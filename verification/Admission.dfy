/**
 The bound on screenshots in progress: a count per display behind a lock, and a permit for each
 screenshot that gives its count back when it is dropped.

 A permit exists only where `Acquire` gave one and is dropped once, which is the language's doing;
 `live` are the permits in existence.
 */
module Admission {

  const MAX_SCREENSHOT_REQUESTS: nat := 4
  const MAX_SCREENSHOT_REQUESTS_PER_DISPLAY: nat := 2

  type Display = nat

  function CountOf(counts: map<Display, nat>, d: Display): nat {
    if d in counts then counts[d] else 0
  }

  /** The sum of the counts. */
  ghost function Total(counts: map<Display, nat>): nat
    decreases |counts|
  {
    if counts == map[] then 0
    else
      var d :| d in counts;
      counts[d] + Total(counts - {d})
  }

  ghost predicate Admits(counts: map<Display, nat>, d: Display) {
    Total(counts) < MAX_SCREENSHOT_REQUESTS && CountOf(counts, d) < MAX_SCREENSHOT_REQUESTS_PER_DISPLAY
  }

  datatype State = State(counts: map<Display, nat>, live: multiset<Display>)

  datatype Event = Ask(display: Display) | Release(display: Display)

  /** Asking counts and gives a permit, or is refused; releasing is of a permit there is. */
  ghost function After(s: State, e: Event): State {
    var d := e.display;
    match e
    case Ask(_) =>
      if Admits(s.counts, d) then State(s.counts[d := CountOf(s.counts, d) + 1], s.live + multiset{d}) else s
    case Release(_) =>
      if d !in s.live then s
      else
        State(if d !in s.counts then s.counts
              else if s.counts[d] <= 1 then s.counts - {d}
              else s.counts[d := s.counts[d] - 1],
              s.live - multiset{d})
  }

  /** The counts are the live permits, display by display, with no display at zero. */
  ghost predicate Represents(counts: map<Display, nat>, live: multiset<Display>) {
    && (forall d :: d in counts ==> counts[d] > 0)
    && (forall d :: live[d] == CountOf(counts, d))
  }

  ghost predicate Valid(s: State) {
    && Represents(s.counts, s.live)
    && |s.live| <= MAX_SCREENSHOT_REQUESTS
    && (forall d :: s.live[d] <= MAX_SCREENSHOT_REQUESTS_PER_DISPLAY)
  }

  /** So their sum is the number of permits. */
  lemma {:induction false} TotalIsPermits(counts: map<Display, nat>, live: multiset<Display>)
    requires Represents(counts, live)
    ensures Total(counts) == |live|
    decreases |counts|
  {
    if counts == map[] {
      assert live == multiset{};
    } else {
      var d :| d in counts && Total(counts) == counts[d] + Total(counts - {d});
      TotalIsPermits(counts - {d}, live[d := 0]);
    }
  }

  lemma AskKeeps(s: State, d: Display)
    requires Valid(s)
    ensures Valid(After(s, Ask(d)))
  {
    TotalIsPermits(s.counts, s.live);
  }

  lemma ReleaseKeeps(s: State, d: Display)
    requires Valid(s)
    ensures Valid(After(s, Release(d)))
  {
    if d in s.live {
      assert s.live[d] == CountOf(s.counts, d);
    }
  }

  lemma StepKeeps(s: State, e: Event)
    requires Valid(s)
    ensures Valid(After(s, e))
  {
    match e
    case Ask(d) => AskKeeps(s, d);
    case Release(d) => ReleaseKeeps(s, d);
  }

  ghost function Run(events: seq<Event>): State {
    if events == [] then State(map[], multiset{}) else After(Run(events[..|events| - 1]), events[|events| - 1])
  }

  lemma {:induction false} RunsAreValid(events: seq<Event>)
    ensures Valid(Run(events))
  {
    if events != [] {
      RunsAreValid(events[..|events| - 1]);
      StepKeeps(Run(events[..|events| - 1]), events[|events| - 1]);
    }
  }

  /** In every run a request is refused exactly when four permits, or two of its display, are live. */
  lemma {:induction false} RefusedExactlyAtALimit(events: seq<Event>, d: Display)
    ensures var live := Run(events).live;
      Run(events + [Ask(d)]).live ==
        if |live| == 4 || live[d] == 2 then live else live + multiset{d}
  {
    RunsAreValid(events);
    TotalIsPermits(Run(events).counts, Run(events).live);
    assert (events + [Ask(d)])[..|events|] == events;
  }

  /** A permit dropped gives its count back, and only its own. */
  lemma {:induction false} ReleaseExactly(events: seq<Event>, d: Display)
    requires d in Run(events).live
    ensures var s, t := Run(events), Run(events + [Release(d)]);
            && t.live == s.live - multiset{d} && d in s.counts && s.counts[d] > 0
            && (if s.counts[d] == 1 then t.counts == s.counts - {d} else t.counts == s.counts[d := s.counts[d] - 1])
  {
    RunsAreValid(events);
    assert (events + [Release(d)])[..|events|] == events;
    assert Run(events).live[d] == CountOf(Run(events).counts, d);
  }

  class ScreenshotAdmission {
    var counts: map<Display, nat>
    ghost var live: multiset<Display>

    ghost function Now(): State
      reads this
    {
      State(counts, live)
    }

    constructor ()
      ensures Now() == Run([])
    {
      counts, live := map[], multiset{};
    }

    /** The values summed in any order. */
    method Sum() returns (sum: nat)
      requires Represents(counts, live)
      ensures sum == Total(counts)
    {
      sum := 0;
      var keys := counts.Keys;
      ghost var rest := live;
      while keys != {}
        invariant keys <= counts.Keys && sum + |rest| == |live|
        invariant forall d :: rest[d] == if d in keys then counts[d] else 0
        decreases |keys|
      {
        var d :| d in keys;
        sum := sum + counts[d];
        rest := rest[d := 0];
        keys := keys - {d};
      }
      assert rest == multiset{};
      TotalIsPermits(counts, live);
    }

    method Acquire(display: Display) returns (permit: bool)
      requires Valid(Now())
      modifies this
      ensures Now() == After(old(Now()), Ask(display)) && Valid(Now())
      ensures permit == (|old(live)| < MAX_SCREENSHOT_REQUESTS && old(live)[display] < MAX_SCREENSHOT_REQUESTS_PER_DISPLAY)
    {
      TotalIsPermits(counts, live);
      StepKeeps(Now(), Ask(display));
      var sum := Sum();
      if sum >= MAX_SCREENSHOT_REQUESTS || CountOf(counts, display) >= MAX_SCREENSHOT_REQUESTS_PER_DISPLAY {
        return false;
      }
      counts := counts[display := CountOf(counts, display) + 1];
      live := live + multiset{display};
      permit := true;
    }

    method DropPermit(display: Display)
      requires Valid(Now()) && display in live
      modifies this
      ensures Now() == After(old(Now()), Release(display)) && Valid(Now())
    {
      StepKeeps(Now(), Release(display));
      if display in counts {
        var count := counts[display] - 1;
        counts := counts[display := count];
        if count == 0 {
          counts := counts - {display};
        }
      }
      live := live - multiset{display};
    }
  }
}
