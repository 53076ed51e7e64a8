/**
 The encode thread's recovery ladder and its keyframe requests.

 A pass of the loop is four steps, because another thread may set the shared request flag between
 any two of them: take the request, encode, run the ladder on a failure, re-arm. `Loop` and the
 functions on it say what each does, the class `EncodeThread` is the code, and the results are
 about every run, with every encode, rebuild and rate change turning out either way.
 */
module EncodeLoop {
  import opened Options

  const HW_ERROR_RECOVERY_THRESHOLD: nat := 30

  /** How an encode attempt turns out: delivered units, an empty success, or an error. */
  datatype Outcome = Output | Empty | Failed

  /** What the ladder did, as later results speak of it. */
  datatype Deed = Encoded | Errored | Rebuilt | Demoted

  /**
   `session` is whether a full-frame session is open, `zeroCopy` whether it encodes GPU buffers in
   place. `forceIdr` is the flag the compositor shares; `requested` what this pass took of it,
   set only `busy` inside a pass. `outputs` is whether the pass has anything to deliver. `deeds`
   and the request counters record the run: requests are numbered as they are armed, `taken` is
   how many of them passes have taken so far, `served` how many a pass took and answered with
   output.
   */
  datatype Loop = Loop(
    zeroCopy: bool,
    session: bool,
    ended: bool,
    streak: nat,
    rebuilt: bool,
    forceIdr: bool,
    busy: bool,
    requested: bool,
    outputs: bool,
    deeds: seq<Deed>,
    armed: nat,
    taken: nat,
    served: nat)

  function Start(zeroCopy: bool, session: bool): Loop {
    Loop(zeroCopy, session, false, 0, false, false, false, false, false, [], 0, 0, 0)
  }

  /** Another thread arms a keyframe request. */
  function Armed(s: Loop): Loop {
    s.(forceIdr := true, armed := s.armed + 1)
  }

  /** A restart takes a zero-copy session back from under the thread. */
  function TakenBack(s: Loop): Loop {
    s.(session := false)
  }

  /**
   Cross-thread changes at the head of a pass. `rateFailed` is a rate change the session refused,
   `reportRefused` a client report the encoder could not act on, which asks for a keyframe in
   its place.
   */
  function Prepared(s: Loop, rateFailed: bool, reportRefused: bool): Loop {
    var s := if rateFailed && s.session then s.(streak := HW_ERROR_RECOVERY_THRESHOLD - 1) else s;
    if reportRefused then Armed(s) else s
  }

  /** The request is taken last; a recorder that `joined` is only asked where the flag is clear. */
  function TookRequest(s: Loop, joined: bool): Loop {
    var s := if joined && !s.forceIdr then Armed(s) else s;
    s.(busy := true, requested := s.forceIdr, forceIdr := false, outputs := false, taken := s.armed)
  }

  /** The head of a pass; it ends the thread where its zero-copy session is gone. */
  function Begun(s: Loop, rateFailed: bool, reportRefused: bool, joined: bool): Loop {
    if s.zeroCopy && !s.session then s.(ended := true)
    else TookRequest(Prepared(s, rateFailed, reportRefused), joined)
  }

  /** What follows a full streak: `opens` is whether the replacement could be opens. */
  function Recovered(s: Loop, opens: bool): Loop {
    var tryGpu := !s.rebuilt;
    var session := if s.zeroCopy && !tryGpu then false else opens;
    var s := s.(streak := 0, session := session, deeds := s.deeds + [if tryGpu then Rebuilt else Demoted]);
    if s.zeroCopy && !session then s.(ended := true)
    else Armed(s.(rebuilt := tryGpu && session))
  }

  function Failing(s: Loop): Loop {
    s.(streak := s.streak + 1, deeds := s.deeds + [Errored])
  }

  /** A full-frame session's attempt at the frame. */
  function Attempted(s: Loop, outcome: Outcome, opens: bool): Loop {
    match outcome
    case Output => s.(streak := 0, rebuilt := false, outputs := true, deeds := s.deeds + [Encoded])
    case Empty => s.(streak := 0, rebuilt := false, deeds := s.deeds + [Encoded])
    case Failed =>
      if s.streak + 1 >= HW_ERROR_RECOVERY_THRESHOLD then Recovered(Failing(s), opens) else Failing(s)
  }

  /** The striped software path, where no session is open: it has nothing to recover. */
  function Striped(s: Loop, outputs: bool): Loop {
    s.(outputs := outputs)
  }

  /** The tail of a pass: a request taken without output is armed again. */
  function Finished(s: Loop): Loop {
    var s := s.(busy := false, forceIdr := s.forceIdr || (s.requested && !s.outputs));
    if s.requested && s.outputs then s.(served := s.taken) else s
  }

  class EncodeThread {
    const zeroCopy: bool
    var session: bool
    var ended: bool
    var hwErrorStreak: nat
    var hwRebuilt: bool
    var forceIdr: bool
    var busy: bool
    var requestedIdr: bool
    var outputs: bool
    ghost var deeds: seq<Deed>
    ghost var armed: nat
    ghost var taken: nat
    ghost var served: nat

    ghost function State(): Loop
      reads this
    {
      Loop(zeroCopy, session, ended, hwErrorStreak, hwRebuilt, forceIdr, busy, requestedIdr, outputs, deeds, armed, taken, served)
    }

    constructor (zeroCopy: bool, session: bool)
      ensures State() == Start(zeroCopy, session)
    {
      this.zeroCopy, this.session, ended := zeroCopy, session, false;
      hwErrorStreak, hwRebuilt := 0, false;
      forceIdr, busy, requestedIdr, outputs := false, false, false, false;
      deeds, armed, taken, served := [], 0, 0, 0;
    }

    /** `force_idr.store(true)`, from either thread. */
    method RequestIdr()
      modifies this`forceIdr, this`armed
      ensures State() == Armed(old(State()))
    {
      forceIdr := true;
      armed := armed + 1;
    }

    method TakeBack()
      modifies this`session
      ensures State() == TakenBack(old(State()))
    {
      session := false;
    }

    method Prepare(rateFailed: bool, reportRefused: bool)
      modifies this
      ensures State() == Prepared(old(State()), rateFailed, reportRefused)
    {
      if session && rateFailed {
        hwErrorStreak := HW_ERROR_RECOVERY_THRESHOLD - 1;
      }
      if reportRefused {
        RequestIdr();
      }
    }

    method TakeRequest(joined: bool)
      modifies this
      ensures State() == TookRequest(old(State()), joined)
    {
      var swapped := forceIdr;
      forceIdr := false;
      if !swapped && joined {
        armed := armed + 1;
      }
      requestedIdr := swapped || joined;
      taken := armed;
      busy, outputs := true, false;
    }

    method BeginPass(rateFailed: bool, reportRefused: bool, joined: bool)
      modifies this
      ensures State() == Begun(old(State()), rateFailed, reportRefused, joined)
    {
      if zeroCopy && !session {
        ended := true;
        return;
      }
      Prepare(rateFailed, reportRefused);
      TakeRequest(joined);
    }

    method Recover(opens: bool)
      modifies this
      ensures State() == Recovered(old(State()), opens)
    {
      hwErrorStreak := 0;
      var tryGpu := !hwRebuilt;
      deeds := deeds + [if tryGpu then Rebuilt else Demoted];
      session := if !zeroCopy || tryGpu then opens else false;
      if zeroCopy && !session {
        ended := true;
      } else {
        hwRebuilt := tryGpu && session;
        RequestIdr();
      }
    }

    method Encode(outcome: Outcome, opens: bool)
      requires session
      modifies this
      ensures State() == Attempted(old(State()), outcome, opens)
    {
      match outcome
      case Output =>
        hwErrorStreak, hwRebuilt, outputs := 0, false, true;
        deeds := deeds + [Encoded];
      case Empty =>
        hwErrorStreak, hwRebuilt := 0, false;
        deeds := deeds + [Encoded];
      case Failed =>
        hwErrorStreak := hwErrorStreak + 1;
        deeds := deeds + [Errored];
        assert State() == Failing(old(State()));
        if hwErrorStreak >= HW_ERROR_RECOVERY_THRESHOLD {
          Recover(opens);
        }
    }

    method EncodeStriped(produced: bool)
      requires !session
      modifies this`outputs
      ensures State() == Striped(old(State()), produced)
    {
      outputs := produced;
    }

    method FinishPass()
      modifies this
      ensures State() == Finished(old(State()))
    {
      if requestedIdr && !outputs {
        forceIdr := true;
      }
      if requestedIdr && outputs {
        served := taken;
      }
      busy := false;
    }
  }

  /**
   One step of either thread. `Arm` and `TakeBack` are the compositor's: `Arm` comes at any time,
   `TakeBack` needs the session's lock, which a pass holds. The others are the encode thread's in
   the order of a pass; one whose decision sends nothing goes from `Begin` to `Finish`.
   */
  datatype Event =
    | Arm
    | TakeBack
    | Begin(rateFailed: bool, reportRefused: bool, joined: bool)
    | Encode(outcome: Outcome, opens: bool)
    | Stripes(produced: bool)
    | Finish

  /** `attempted` marks a pass past its one encode. */
  datatype Run = Run(loop: Loop, attempted: bool)

  predicate Enabled(r: Run, e: Event) {
    match e
    case Arm => true
    case TakeBack => !r.loop.busy && r.loop.zeroCopy
    case Begin(_, _, _) => !r.loop.busy && !r.loop.ended
    case Encode(_, _) => r.loop.busy && r.loop.session && !r.attempted
    case Stripes(_) => r.loop.busy && !r.loop.session && !r.loop.zeroCopy && !r.attempted
    case Finish => r.loop.busy
  }

  function Step(r: Run, e: Event): Run {
    if !Enabled(r, e) then r
    else
      match e
      case Arm => r.(loop := Armed(r.loop))
      case TakeBack => r.(loop := TakenBack(r.loop))
      case Begin(rateFailed, reportRefused, joined) => Run(Begun(r.loop, rateFailed, reportRefused, joined), false)
      case Encode(outcome, opens) => Run(Attempted(r.loop, outcome, opens), true)
      case Stripes(produced) => Run(Striped(r.loop, produced), true)
      case Finish => r.(loop := Finished(r.loop))
  }

  function After(zeroCopy: bool, session: bool, events: seq<Event>): Run {
    if events == [] then Run(Start(zeroCopy, session), false)
    else Step(After(zeroCopy, session, events[..|events| - 1]), events[|events| - 1])
  }

  /** How many of the last deeds are failures. */
  function FailingFor(deeds: seq<Deed>): nat {
    if deeds == [] || !deeds[|deeds| - 1].Errored? then 0
    else 1 + FailingFor(deeds[..|deeds| - 1])
  }

  /** Whether the ladder's last move was a rebuild, no encode having succeeded since. */
  function AfterRebuild(deeds: seq<Deed>): bool {
    if deeds == [] then false
    else if deeds[|deeds| - 1].Errored? then AfterRebuild(deeds[..|deeds| - 1])
    else deeds[|deeds| - 1].Rebuilt?
  }

  /** Failures since an encode last succeeded, whatever the ladder did among them. */
  function FailuresSinceSuccess(deeds: seq<Deed>): nat {
    if deeds == [] || deeds[|deeds| - 1].Encoded? then 0
    else (if deeds[|deeds| - 1].Errored? then 1 else 0) + FailuresSinceSuccess(deeds[..|deeds| - 1])
  }

  predicate IsRecovery(d: Deed) { d.Rebuilt? || d.Demoted? }

  /** A full streak is answered at once, and no two rebuilds have only failures between them. */
  predicate Laddered(deeds: seq<Deed>) {
    deeds == [] ||
    var front, last := deeds[..|deeds| - 1], deeds[|deeds| - 1];
    && Laddered(front)
    && (FailingFor(front) >= HW_ERROR_RECOVERY_THRESHOLD ==> IsRecovery(last))
    && (last.Rebuilt? ==> !AfterRebuild(front))
  }

  /**
   What every step keeps of the ladder. `live` is whether a zero-copy thread still runs: only it
   is bound to end.
   */
  ghost predicate OnLadder(deeds: seq<Deed>, streak: nat, rebuilt: bool, session: bool, live: bool) {
    && Laddered(deeds)
    && FailingFor(deeds) <= streak < HW_ERROR_RECOVERY_THRESHOLD
    && (session ==> rebuilt == AfterRebuild(deeds))
    && (live ==> FailuresSinceSuccess(deeds) <= streak + if AfterRebuild(deeds) then HW_ERROR_RECOVERY_THRESHOLD else 0)
  }

  ghost predicate LadderValid(s: Loop) {
    OnLadder(s.deeds, s.streak, s.rebuilt, s.session, s.zeroCopy && !s.ended)
  }

  lemma DeedsSnoc(deeds: seq<Deed>, d: Deed)
    ensures FailingFor(deeds + [d]) == if d.Errored? then 1 + FailingFor(deeds) else 0
    ensures AfterRebuild(deeds + [d]) == if d.Errored? then AfterRebuild(deeds) else d.Rebuilt?
    ensures FailuresSinceSuccess(deeds + [d]) ==
            if d.Encoded? then 0 else (if d.Errored? then 1 else 0) + FailuresSinceSuccess(deeds)
    ensures Laddered(deeds + [d]) <==>
              && Laddered(deeds)
              && (FailingFor(deeds) >= HW_ERROR_RECOVERY_THRESHOLD ==> IsRecovery(d))
              && (d.Rebuilt? ==> !AfterRebuild(deeds))
  {
    assert (deeds + [d])[..|deeds|] == deeds;
  }

  lemma AttemptKeepsLadder(s: Loop, outcome: Outcome, opens: bool)
    requires LadderValid(s) && s.session && !s.ended
    ensures LadderValid(Attempted(s, outcome, opens))
  {
    DeedsSnoc(s.deeds, if outcome.Failed? then Errored else Encoded);
    if outcome.Failed? && s.streak + 1 >= HW_ERROR_RECOVERY_THRESHOLD {
      DeedsSnoc(s.deeds + [Errored], if s.rebuilt then Demoted else Rebuilt);
    }
  }

  /** Steps that encode nothing change nothing on the ladder but, upwards, the streak. */
  lemma NoDeedKeepsLadder(s: Loop, t: Loop)
    requires LadderValid(s) && t.deeds == s.deeds && t.rebuilt == s.rebuilt
    requires s.streak <= t.streak < HW_ERROR_RECOVERY_THRESHOLD
    requires (t.session ==> s.session) && (t.zeroCopy && !t.ended ==> s.zeroCopy && !s.ended)
    ensures LadderValid(t)
  {
  }

  predicate SameButStreak(s: Loop, t: Loop) {
    && t.deeds == s.deeds && t.rebuilt == s.rebuilt && t.session == s.session && t.zeroCopy == s.zeroCopy
    && (s.ended ==> t.ended) && s.streak <= t.streak < HW_ERROR_RECOVERY_THRESHOLD
  }

  lemma PreparedDoesNoDeed(s: Loop, rateFailed: bool, reportRefused: bool)
    requires s.streak < HW_ERROR_RECOVERY_THRESHOLD
    ensures SameButStreak(s, Prepared(s, rateFailed, reportRefused))
  {
  }

  lemma TookDoesNoDeed(s: Loop, joined: bool)
    requires s.streak < HW_ERROR_RECOVERY_THRESHOLD
    ensures SameButStreak(s, TookRequest(s, joined))
  {
  }

  lemma BegunDoesNoDeed(s: Loop, rateFailed: bool, reportRefused: bool, joined: bool)
    requires s.streak < HW_ERROR_RECOVERY_THRESHOLD
    ensures SameButStreak(s, Begun(s, rateFailed, reportRefused, joined))
  {
    if !s.zeroCopy || s.session {
      PreparedDoesNoDeed(s, rateFailed, reportRefused);
      TookDoesNoDeed(Prepared(s, rateFailed, reportRefused), joined);
    }
  }

  lemma OtherStepsDoNoDeed(r: Run, e: Event)
    requires r.loop.streak < HW_ERROR_RECOVERY_THRESHOLD && Enabled(r, e) && !e.Encode?
    ensures var s, t := r.loop, Step(r, e).loop;
            && t.deeds == s.deeds && t.rebuilt == s.rebuilt && (t.session ==> s.session) && t.zeroCopy == s.zeroCopy
            && (s.ended ==> t.ended) && s.streak <= t.streak < HW_ERROR_RECOVERY_THRESHOLD
  {
    if e.Begin? {
      BegunDoesNoDeed(r.loop, e.rateFailed, e.reportRefused, e.joined);
    }
  }

  lemma AttemptKeepsEnd(s: Loop, outcome: Outcome, opens: bool)
    requires s.session && !s.ended
    ensures var t := Attempted(s, outcome, opens); t.zeroCopy == s.zeroCopy && (t.ended ==> !t.session)
  {
  }

  lemma BegunKeepsEnd(s: Loop, rateFailed: bool, reportRefused: bool, joined: bool)
    requires s.ended ==> !s.session
    ensures var t := Begun(s, rateFailed, reportRefused, joined); t.zeroCopy == s.zeroCopy && (t.ended ==> !t.session)
  {
    PreparedFlags(s, rateFailed, reportRefused);
    PreparedRecord(s, rateFailed, reportRefused);
    TookFlags(Prepared(s, rateFailed, reportRefused), joined);
    TookRecord(Prepared(s, rateFailed, reportRefused), joined);
  }

  lemma StepKeepsEnd(r: Run, e: Event)
    requires r.loop.ended ==> !r.loop.session
    ensures Step(r, e).loop.zeroCopy == r.loop.zeroCopy
    ensures Step(r, e).loop.ended ==> !Step(r, e).loop.session
  {
    if Enabled(r, e) {
      match e
      case Encode(outcome, opens) => AttemptKeepsEnd(r.loop, outcome, opens);
      case Begin(rateFailed, reportRefused, joined) => BegunKeepsEnd(r.loop, rateFailed, reportRefused, joined);
      case _ =>
    }
  }

  lemma StepKeepsLadder(r: Run, e: Event)
    requires LadderValid(r.loop) && (r.loop.ended ==> !r.loop.session)
    ensures LadderValid(Step(r, e).loop)
  {
    if Enabled(r, e) {
      match e
      case Encode(outcome, opens) => AttemptKeepsLadder(r.loop, outcome, opens);
      case _ =>
        OtherStepsDoNoDeed(r, e);
        NoDeedKeepsLadder(r.loop, Step(r, e).loop);
    }
  }

  /** A thread that has ended has no session. */
  lemma {:induction false} RunsKeepLadder(zeroCopy: bool, session: bool, events: seq<Event>)
    ensures LadderValid(After(zeroCopy, session, events).loop)
    ensures var r := After(zeroCopy, session, events);
            r.loop.zeroCopy == zeroCopy && (r.loop.ended ==> !r.loop.session)
  {
    if events != [] {
      RunsKeepLadder(zeroCopy, session, events[..|events| - 1]);
      StepKeepsLadder(After(zeroCopy, session, events[..|events| - 1]), events[|events| - 1]);
      StepKeepsEnd(After(zeroCopy, session, events[..|events| - 1]), events[|events| - 1]);
    }
  }

  /** The last deed that is not a failure, given one at `i`. */
  lemma {:induction false} LastDeed(deeds: seq<Deed>, i: nat) returns (k: nat)
    requires i < |deeds| && !deeds[i].Errored?
    ensures i <= k < |deeds| && !deeds[k].Errored?
    ensures AfterRebuild(deeds) == deeds[k].Rebuilt?
  {
    var front := deeds[..|deeds| - 1];
    if deeds[|deeds| - 1].Errored? {
      k := LastDeed(front, i);
      assert deeds[k] == front[k];
    } else {
      k := |deeds| - 1;
    }
  }

  lemma {:induction false} ApartBetween(deeds: seq<Deed>, i: nat, j: nat) returns (k: nat)
    requires Laddered(deeds) && i < j < |deeds| && deeds[i].Rebuilt? && deeds[j].Rebuilt?
    ensures i < k < j && (deeds[k].Encoded? || deeds[k].Demoted?)
  {
    var front := deeds[..|deeds| - 1];
    if j < |deeds| - 1 {
      k := ApartBetween(front, i, j);
    } else {
      k := LastDeed(front, i);
    }
    assert deeds[k] == front[k];
  }

  /** Between any two GPU rebuilds of any run an encode succeeded or the session was demoted. */
  lemma {:induction false} RebuildsNeverLoop(zeroCopy: bool, session: bool, events: seq<Event>, i: nat, j: nat) returns (k: nat)
    requires var deeds := After(zeroCopy, session, events).loop.deeds;
             i < j < |deeds| && deeds[i].Rebuilt? && deeds[j].Rebuilt?
    ensures var deeds := After(zeroCopy, session, events).loop.deeds;
            i < k < j && (deeds[k].Encoded? || deeds[k].Demoted?)
  {
    RunsKeepLadder(zeroCopy, session, events);
    k := ApartBetween(After(zeroCopy, session, events).loop.deeds, i, j);
  }

  lemma {:induction false} FailingAll(deeds: seq<Deed>, i: nat, j: nat)
    requires i <= j <= |deeds| && forall k :: i <= k < j ==> deeds[k].Errored?
    ensures FailingFor(deeds[..j]) >= j - i
  {
    if i < j {
      FailingAll(deeds, i, j - 1);
      assert deeds[..j][..j - 1] == deeds[..j - 1];
    }
  }

  lemma {:induction false} LadderedAt(deeds: seq<Deed>, j: nat)
    requires Laddered(deeds) && j < |deeds| && FailingFor(deeds[..j]) >= HW_ERROR_RECOVERY_THRESHOLD
    ensures IsRecovery(deeds[j])
  {
    var front := deeds[..|deeds| - 1];
    if j < |front| {
      assert front[..j] == deeds[..j];
      LadderedAt(front, j);
    }
  }

  lemma ThirtyFailuresAnswered(deeds: seq<Deed>, i: nat)
    requires Laddered(deeds) && FailingFor(deeds) < HW_ERROR_RECOVERY_THRESHOLD
    requires i + HW_ERROR_RECOVERY_THRESHOLD <= |deeds|
    requires forall k :: i <= k < i + HW_ERROR_RECOVERY_THRESHOLD ==> deeds[k].Errored?
    ensures i + HW_ERROR_RECOVERY_THRESHOLD < |deeds| && IsRecovery(deeds[i + HW_ERROR_RECOVERY_THRESHOLD])
  {
    FailingAll(deeds, i, i + HW_ERROR_RECOVERY_THRESHOLD);
    assert deeds[..|deeds|] == deeds;
    LadderedAt(deeds, i + HW_ERROR_RECOVERY_THRESHOLD);
  }

  /** Thirty failed encodes in a row are followed at once by a rebuild or a demotion, in any run. */
  lemma {:induction false} ThirtyFailuresRecover(zeroCopy: bool, session: bool, events: seq<Event>, i: nat)
    requires var deeds := After(zeroCopy, session, events).loop.deeds;
             i + HW_ERROR_RECOVERY_THRESHOLD <= |deeds| &&
             forall k :: i <= k < i + HW_ERROR_RECOVERY_THRESHOLD ==> deeds[k].Errored?
    ensures var deeds := After(zeroCopy, session, events).loop.deeds;
            i + HW_ERROR_RECOVERY_THRESHOLD < |deeds| && IsRecovery(deeds[i + HW_ERROR_RECOVERY_THRESHOLD])
  {
    RunsKeepLadder(zeroCopy, session, events);
    ThirtyFailuresAnswered(After(zeroCopy, session, events).loop.deeds, i);
  }

  /** A zero-copy thread that still runs has failed fewer than sixty times since it last encoded. */
  lemma {:induction false} ZeroCopyEndsWithinSixty(session: bool, events: seq<Event>)
    requires !After(true, session, events).loop.ended
    ensures FailuresSinceSuccess(After(true, session, events).loop.deeds) < 2 * HW_ERROR_RECOVERY_THRESHOLD
  {
    RunsKeepLadder(true, session, events);
  }

  /**
   Where the requests are: before a pass an unserved one is in the flag; inside it those that
   came since are in the flag, and those before are in what the pass took.
   */
  ghost predicate RequestsValid(s: Loop) {
    && s.served <= s.taken <= s.armed
    && (if s.busy
        then (s.forceIdr <==> s.armed > s.taken) && (s.requested <==> s.taken > s.served)
        else s.forceIdr <==> s.armed > s.served)
  }

  lemma AttemptKeepsRequests(s: Loop, outcome: Outcome, opens: bool)
    requires RequestsValid(s) && s.busy
    ensures RequestsValid(Attempted(s, outcome, opens))
  {
    if outcome.Failed? {
      var failed := Failing(s);
      var t := Recovered(failed, opens);
      assert RequestsValid(failed);
      assert t.served == s.served && t.taken == s.taken && t.busy && t.requested == s.requested;
      assert (t.armed == s.armed && t.forceIdr == s.forceIdr) || (t.armed == s.armed + 1 && t.forceIdr);
    }
  }

  lemma PreparedKeepsRequests(s: Loop, rateFailed: bool, reportRefused: bool)
    requires RequestsValid(s) && !s.busy
    ensures RequestsValid(Prepared(s, rateFailed, reportRefused)) && !Prepared(s, rateFailed, reportRefused).busy
  {
  }

  lemma TookKeepsRequests(s: Loop, joined: bool)
    requires RequestsValid(s) && !s.busy
    ensures RequestsValid(TookRequest(s, joined))
  {
  }

  lemma BegunKeepsRequests(s: Loop, rateFailed: bool, reportRefused: bool, joined: bool)
    requires RequestsValid(s) && !s.busy
    ensures RequestsValid(Begun(s, rateFailed, reportRefused, joined))
  {
    if !s.zeroCopy || s.session {
      PreparedKeepsRequests(s, rateFailed, reportRefused);
      TookKeepsRequests(Prepared(s, rateFailed, reportRefused), joined);
    }
  }

  lemma StepKeepsRequests(r: Run, e: Event)
    requires RequestsValid(r.loop)
    ensures RequestsValid(Step(r, e).loop)
  {
    if Enabled(r, e) {
      match e
      case Encode(outcome, opens) => AttemptKeepsRequests(r.loop, outcome, opens);
      case Begin(rateFailed, reportRefused, joined) => BegunKeepsRequests(r.loop, rateFailed, reportRefused, joined);
      case Arm =>
      case TakeBack =>
      case Stripes(_) =>
      case Finish =>
    }
  }

  lemma {:induction false} RunsKeepRequests(zeroCopy: bool, session: bool, events: seq<Event>)
    ensures RequestsValid(After(zeroCopy, session, events).loop)
  {
    if events != [] {
      RunsKeepRequests(zeroCopy, session, events[..|events| - 1]);
      StepKeepsRequests(After(zeroCopy, session, events[..|events| - 1]), events[|events| - 1]);
    }
  }

  /**
   No keyframe request is lost and none is made up. A request not served yet is still armed, or
   the pass under way took it; the flag is set for nothing else. Between passes the flag is
   exactly whether something is unserved, however the passes before turned out. (`served` moves only
   in `Finished`, to what a pass with output had taken.)
   */
  lemma RequestsStayArmed(zeroCopy: bool, session: bool, events: seq<Event>)
    ensures var s := After(zeroCopy, session, events).loop;
            && (s.served < s.armed <==> s.forceIdr || (s.busy && s.requested))
            && (!s.busy ==> (s.forceIdr <==> s.served < s.armed))
  {
    RunsKeepRequests(zeroCopy, session, events);
  }

  // ----- the same, told by the events alone

  function StepAll(r: Run, events: seq<Event>): Run {
    if events == [] then r else Step(StepAll(r, events[..|events| - 1]), events[|events| - 1])
  }

  lemma {:induction false} AfterConcat(zeroCopy: bool, session: bool, a: seq<Event>, b: seq<Event>)
    ensures After(zeroCopy, session, a + b) == StepAll(After(zeroCopy, session, a), b)
  {
    if b == [] {
      assert a + b == a;
    } else {
      AfterConcat(zeroCopy, session, a, b[..|b| - 1]);
      assert (a + b)[..|a + b| - 1] == a + b[..|b| - 1];
    }
  }

  predicate Delivers(e: Event) {
    (e.Encode? && e.outcome.Output?) || (e.Stripes? && e.produced)
  }

  lemma StepKeepsRequest(r: Run, e: Event)
    requires !Delivers(e) && (r.loop.forceIdr || (r.loop.busy && r.loop.requested && !r.loop.outputs))
    ensures var t := Step(r, e).loop; t.forceIdr || (t.busy && t.requested && !t.outputs)
  {
    match e
    case Encode(outcome, opens) => AttemptFlags(r.loop, outcome, opens);
    case Begin(rateFailed, reportRefused, joined) =>
      if Enabled(r, e) && (r.loop.zeroCopy ==> r.loop.session) {
        BegunFlags(r.loop, e);
      }
    case _ =>
  }

  lemma {:induction false} RequestKept(r: Run, rest: seq<Event>)
    requires r.loop.forceIdr && forall e :: e in rest ==> !Delivers(e)
    ensures var t := StepAll(r, rest).loop; t.forceIdr || (t.busy && t.requested && !t.outputs)
  {
    if rest != [] {
      var front := rest[..|rest| - 1];
      assert forall e :: e in front ==> e in rest;
      RequestKept(r, front);
      StepKeepsRequest(StepAll(r, front), rest[|rest| - 1]);
    }
  }

  /**
   A request armed at any point stays armed, or is what the pass under way took, for as long as no
   encode delivers units and no stripes are produced.
   */
  lemma {:induction false} RequestStaysUntilDelivery(zeroCopy: bool, session: bool, before: seq<Event>, rest: seq<Event>)
    requires forall e :: e in rest ==> !((e.Encode? && e.outcome.Output?) || (e.Stripes? && e.produced))
    ensures var s := After(zeroCopy, session, before + [Arm] + rest).loop; s.forceIdr || (s.busy && s.requested)
  {
    AfterConcat(zeroCopy, session, before + [Arm], rest);
    AfterConcat(zeroCopy, session, before, [Arm]);
    assert [Arm][..0] == [];
    var r := After(zeroCopy, session, before);
    assert StepAll(r, []) == r && StepAll(r, [Arm]) == Step(r, Arm);
    RequestKept(After(zeroCopy, session, before + [Arm]), rest);
  }

  /** The one encode of a pass: the first event the session it began with, or its lack, allows. */
  function AttemptOf(middle: seq<Event>, zeroCopy: bool, session: bool): (e: Option<Event>)
    ensures e.Some? ==> e.value in middle
  {
    if middle == [] then None
    else
      var front, last := AttemptOf(middle[..|middle| - 1], zeroCopy, session), middle[|middle| - 1];
      if front.Some? then front
      else if (last.Encode? && session) || (last.Stripes? && !session && !zeroCopy) then Some(last)
      else None
  }

  predicate InsidePass(middle: seq<Event>) {
    forall e :: e in middle ==> !e.Begin? && !e.Finish?
  }

  lemma {:induction false} PassSoFar(r: Run, middle: seq<Event>)
    requires r.loop.busy && !r.attempted && !r.loop.outputs && !r.loop.forceIdr && InsidePass(middle)
    ensures var t, attempt := StepAll(r, middle), AttemptOf(middle, r.loop.zeroCopy, r.loop.session);
            && t.loop.busy && t.loop.requested == r.loop.requested && t.loop.zeroCopy == r.loop.zeroCopy
            && t.attempted == attempt.Some? && (attempt.None? ==> t.loop.session == r.loop.session)
            && t.loop.outputs == (attempt.Some? && Delivers(attempt.value))
            && (Arm in middle ==> t.loop.forceIdr)
            && (t.loop.forceIdr ==> Arm in middle || (attempt.Some? && attempt.value.Encode? && attempt.value.outcome.Failed?))
  {
    if middle != [] {
      var front, last := middle[..|middle| - 1], middle[|middle| - 1];
      assert middle == front + [last];
      PassSoFar(r, front);
      var before := StepAll(r, front);
      PassStep(before, last);
    }
  }

  /** One event inside a pass. */
  lemma PassStep(r: Run, e: Event)
    requires r.loop.busy && !e.Begin? && !e.Finish?
    ensures var t := Step(r, e);
            && t.loop.busy && t.loop.requested == r.loop.requested && t.loop.zeroCopy == r.loop.zeroCopy
            && (if !r.attempted && ((e.Encode? && r.loop.session) || (e.Stripes? && !r.loop.session && !r.loop.zeroCopy)) then
                  t.attempted && (r.loop.outputs || t.loop.outputs == Delivers(e))
                else
                  t.attempted == r.attempted && t.loop.outputs == r.loop.outputs && t.loop.session == r.loop.session)
            && (e.Arm? || r.loop.forceIdr ==> t.loop.forceIdr)
            && (t.loop.forceIdr && !r.loop.forceIdr ==> e.Arm? || (!r.attempted && r.loop.session && e.Encode? && e.outcome.Failed?))
  {
    match e
    case Encode(outcome, opens) => AttemptFlags(r.loop, outcome, opens);
    case _ =>
  }

  /** What a recovery leaves of the pass it is in. */
  lemma RecoveredFlags(s: Loop, opens: bool)
    ensures var t := Recovered(s, opens);
            t.busy == s.busy && t.requested == s.requested && t.zeroCopy == s.zeroCopy && t.outputs == s.outputs
    ensures s.forceIdr ==> Recovered(s, opens).forceIdr
  {
  }

  lemma AttemptFlags(s: Loop, outcome: Outcome, opens: bool)
    ensures var t := Attempted(s, outcome, opens);
            && t.busy == s.busy && t.requested == s.requested && t.zeroCopy == s.zeroCopy
            && t.outputs == (s.outputs || outcome.Output?)
            && (s.forceIdr ==> t.forceIdr) && (t.forceIdr && !s.forceIdr ==> outcome.Failed?)
  {
    if outcome.Failed? {
      RecoveredFlags(Failing(s), opens);
    }
  }

  lemma PreparedFlags(s: Loop, rateFailed: bool, reportRefused: bool)
    ensures var p := Prepared(s, rateFailed, reportRefused);
            && p.forceIdr == (s.forceIdr || reportRefused) && p.zeroCopy == s.zeroCopy && p.session == s.session
            && p.busy == s.busy
  {
  }

  lemma TookFlags(s: Loop, joined: bool)
    ensures var t := TookRequest(s, joined);
            && t.busy && !t.outputs && !t.forceIdr && t.zeroCopy == s.zeroCopy && t.session == s.session
            && t.requested == (s.forceIdr || joined)
  {
  }

  lemma BegunFlags(s: Loop, b: Event)
    requires b.Begin? && !s.busy && (s.zeroCopy ==> s.session)
    ensures var t := Begun(s, b.rateFailed, b.reportRefused, b.joined);
            && t.busy && !t.outputs && !t.forceIdr && t.zeroCopy == s.zeroCopy && t.session == s.session
            && t.requested == (s.forceIdr || b.reportRefused || b.joined)
  {
    PreparedFlags(s, b.rateFailed, b.reportRefused);
    TookFlags(Prepared(s, b.rateFailed, b.reportRefused), b.joined);
  }

  /**
   A pass that took a request, the flag's, a refused report's or a recorder's, leaves the flag
   clear at its end if and only if its one encode delivered and nothing was armed since. A pass
   that took none leaves it set only where something was armed, or its encode failed.
   */
  lemma {:induction false} PassServesExactly(zeroCopy: bool, session: bool, before: seq<Event>, b: Event, middle: seq<Event>)
    requires b.Begin? && InsidePass(middle) && Enabled(After(zeroCopy, session, before), b)
    requires zeroCopy ==> After(zeroCopy, session, before).loop.session
    ensures var s, t := After(zeroCopy, session, before).loop, After(zeroCopy, session, before + [b] + middle + [Finish]).loop;
            var attempt := AttemptOf(middle, zeroCopy, s.session);
            && !t.busy
            && (s.forceIdr || b.reportRefused || b.joined ==>
                  (!t.forceIdr <==> attempt.Some? && Delivers(attempt.value) && Arm !in middle))
            && (!(s.forceIdr || b.reportRefused || b.joined) && t.forceIdr ==>
                  Arm in middle || (attempt.Some? && attempt.value.Encode? && attempt.value.outcome.Failed?))
  {
    var r := After(zeroCopy, session, before);
    ZeroCopyStays(zeroCopy, session, before);
    AfterConcat(zeroCopy, session, before, [b]);
    AfterConcat(zeroCopy, session, before + [b], middle);
    AfterConcat(zeroCopy, session, before + [b] + middle, [Finish]);
    assert [b][..0] == [] && [Finish][..0] == [];
    assert StepAll(r, []) == r && StepAll(r, [b]) == Step(r, b);
    BegunFlags(r.loop, b);
    var begun := Step(r, b);
    PassSoFar(begun, middle);
    var last := StepAll(begun, middle);
    assert StepAll(last, []) == last && StepAll(last, [Finish]) == Step(last, Finish);
  }

  lemma {:induction false} ZeroCopyStays(zeroCopy: bool, session: bool, events: seq<Event>)
    ensures After(zeroCopy, session, events).loop.zeroCopy == zeroCopy
  {
    RunsKeepLadder(zeroCopy, session, events);
  }

  // ----- the ladder's record is what happened

  /** How the encodes of a run turned out, off its events. */
  function Encodes(zeroCopy: bool, session: bool, events: seq<Event>): seq<Deed> {
    if events == [] then []
    else
      var front, last := events[..|events| - 1], events[|events| - 1];
      Encodes(zeroCopy, session, front) +
      if last.Encode? && Enabled(After(zeroCopy, session, front), last)
      then [if last.outcome.Failed? then Errored else Encoded] else []
  }

  function WithoutRecoveries(deeds: seq<Deed>): seq<Deed> {
    if deeds == [] then []
    else
      WithoutRecoveries(deeds[..|deeds| - 1]) + if IsRecovery(deeds[|deeds| - 1]) then [] else [deeds[|deeds| - 1]]
  }

  lemma RecoverySnoc(deeds: seq<Deed>, d: Deed)
    ensures WithoutRecoveries(deeds + [d]) == if IsRecovery(d) then WithoutRecoveries(deeds) else WithoutRecoveries(deeds) + [d]
  {
    assert (deeds + [d])[..|deeds|] == deeds;
  }

  lemma RecoveredDeeds(s: Loop, opens: bool)
    ensures Recovered(s, opens).deeds == s.deeds + [if s.rebuilt then Demoted else Rebuilt]
    ensures Recovered(s, opens).streak == 0
  {
  }

  lemma AttemptRecorded(s: Loop, outcome: Outcome, opens: bool)
    ensures WithoutRecoveries(Attempted(s, outcome, opens).deeds) ==
            WithoutRecoveries(s.deeds) + [if outcome.Failed? then Errored else Encoded]
  {
    if outcome.Failed? {
      RecoverySnoc(s.deeds, Errored);
      RecoveredDeeds(Failing(s), opens);
      RecoverySnoc(s.deeds + [Errored], if s.rebuilt then Demoted else Rebuilt);
    } else {
      RecoverySnoc(s.deeds, Encoded);
    }
  }

  lemma PreparedRecord(s: Loop, rateFailed: bool, reportRefused: bool)
    ensures var p := Prepared(s, rateFailed, reportRefused);
            p.deeds == s.deeds && (!rateFailed ==> p.streak == s.streak) && p.rebuilt == s.rebuilt && p.ended == s.ended
  {
  }

  lemma TookRecord(s: Loop, joined: bool)
    ensures var t := TookRequest(s, joined);
            t.deeds == s.deeds && t.streak == s.streak && t.rebuilt == s.rebuilt && t.ended == s.ended
  {
  }

  /** A step that is no encode adds nothing to the record. */
  lemma OtherStepsRecordNothing(r: Run, e: Event)
    requires !e.Encode?
    ensures var t := Step(r, e).loop; t.deeds == r.loop.deeds && ((e.Begin? && e.rateFailed) || t.streak == r.loop.streak)
  {
    if e.Begin? {
      PreparedRecord(r.loop, e.rateFailed, e.reportRefused);
      TookRecord(Prepared(r.loop, e.rateFailed, e.reportRefused), e.joined);
    }
  }

  /** The record of deeds, its recoveries left out, is how the encodes turned out. */
  lemma {:induction false} DeedsAreTheEncodes(zeroCopy: bool, session: bool, events: seq<Event>)
    ensures WithoutRecoveries(After(zeroCopy, session, events).loop.deeds) == Encodes(zeroCopy, session, events)
  {
    if events != [] {
      var front, last := events[..|events| - 1], events[|events| - 1];
      var r := After(zeroCopy, session, front);
      DeedsAreTheEncodes(zeroCopy, session, front);
      if last.Encode? {
        AttemptRecorded(r.loop, last.outcome, last.opens);
      } else {
        OtherStepsRecordNothing(r, last);
      }
    }
  }

  /** Every recovery comes straight after thirty failures. */
  predicate Earned(deeds: seq<Deed>) {
    deeds == [] ||
    var front, last := deeds[..|deeds| - 1], deeds[|deeds| - 1];
    Earned(front) && (IsRecovery(last) ==> FailingFor(front) >= HW_ERROR_RECOVERY_THRESHOLD)
  }

  lemma EarnedSnoc(deeds: seq<Deed>, d: Deed)
    ensures Earned(deeds + [d]) <==> Earned(deeds) && (IsRecovery(d) ==> FailingFor(deeds) >= HW_ERROR_RECOVERY_THRESHOLD)
  {
    assert (deeds + [d])[..|deeds|] == deeds;
  }

  /** Every recovery so far was earned, and the streak is that of the record. */
  predicate InEarnedState(s: Loop) {
    Earned(s.deeds) && s.streak == FailingFor(s.deeds)
  }

  lemma FailureEarns(s: Loop)
    requires InEarnedState(s)
    ensures InEarnedState(Failing(s))
  {
    EarnedSnoc(s.deeds, Errored);
    DeedsSnoc(s.deeds, Errored);
  }

  lemma RecoveryIsEarned(s: Loop, opens: bool)
    requires InEarnedState(s) && s.streak >= HW_ERROR_RECOVERY_THRESHOLD
    ensures InEarnedState(Recovered(s, opens))
  {
    var climbed := if s.rebuilt then Demoted else Rebuilt;
    RecoveredDeeds(s, opens);
    EarnedSnoc(s.deeds, climbed);
    DeedsSnoc(s.deeds, climbed);
  }

  lemma AttemptEarns(s: Loop, outcome: Outcome, opens: bool)
    requires InEarnedState(s)
    ensures InEarnedState(Attempted(s, outcome, opens))
  {
    if outcome.Failed? {
      FailureEarns(s);
      if s.streak + 1 >= HW_ERROR_RECOVERY_THRESHOLD {
        RecoveryIsEarned(Failing(s), opens);
      }
    } else {
      EarnedSnoc(s.deeds, Encoded);
      DeedsSnoc(s.deeds, Encoded);
    }
  }

  /** Nothing is rebuilt or demoted sooner, in a run in which no rate change fails. */
  lemma {:induction false} RecoveriesAreEarned(zeroCopy: bool, session: bool, events: seq<Event>)
    requires forall e :: e in events ==> !(e.Begin? && e.rateFailed)
    ensures var s := After(zeroCopy, session, events).loop; Earned(s.deeds) && s.streak == FailingFor(s.deeds)
  {
    if events != [] {
      var front, last := events[..|events| - 1], events[|events| - 1];
      var r := After(zeroCopy, session, front);
      assert last in events && forall e :: e in front ==> e in events;
      RecoveriesAreEarned(zeroCopy, session, front);
      if last.Encode? {
        AttemptEarns(r.loop, last.outcome, last.opens);
      } else {
        OtherStepsRecordNothing(r, last);
      }
    }
  }

  /**
   A refused rate change makes the next failed encode recover at once: a rebuild, or a demotion
   where the ladder stands after one; a zero-copy thread demoted, or whose rebuild opens nothing,
   ends without a session, and any other goes on with what opened and a keyframe asked for.
   */
  lemma {:induction false} RateFailureRecovers(zeroCopy: bool, session: bool, before: seq<Event>, b: Event, opens: bool)
    requires b.Begin? && b.rateFailed && Enabled(After(zeroCopy, session, before), b)
    requires After(zeroCopy, session, before).loop.session
    ensures var s := After(zeroCopy, session, before).loop;
            var t := After(zeroCopy, session, before + [b] + [Encode(Failed, opens)]).loop;
            var demoted := AfterRebuild(s.deeds);
            && t.deeds == s.deeds + [Errored, if demoted then Demoted else Rebuilt]
            && t.session == (opens && !(zeroCopy && demoted))
            && t.ended == (zeroCopy && !t.session)
            && (!t.ended ==> t.forceIdr)
  {
    var r := After(zeroCopy, session, before);
    ZeroCopyStays(zeroCopy, session, before);
    RunsKeepLadder(zeroCopy, session, before);
    var e := Encode(Failed, opens);
    AfterConcat(zeroCopy, session, before, [b]);
    AfterConcat(zeroCopy, session, before + [b], [e]);
    assert [b][..0] == [] && [e][..0] == [];
    assert StepAll(r, []) == r && StepAll(r, [b]) == Step(r, b);
    var begun := Step(r, b);
    assert StepAll(begun, []) == begun && StepAll(begun, [e]) == Step(begun, e);
    BegunFlags(r.loop, b);
    RateFailedBegun(r.loop, b);
    RecoveredIs(begun.loop, opens);
  }

  lemma RateFailedPrepared(s: Loop, reportRefused: bool)
    requires s.session
    ensures Prepared(s, true, reportRefused).streak == HW_ERROR_RECOVERY_THRESHOLD - 1
  {
  }

  lemma RateFailedBegun(s: Loop, b: Event)
    requires b.Begin? && b.rateFailed && s.session
    ensures var t := Begun(s, b.rateFailed, b.reportRefused, b.joined);
            t.streak == HW_ERROR_RECOVERY_THRESHOLD - 1 && t.deeds == s.deeds && t.rebuilt == s.rebuilt && t.ended == s.ended
  {
    RateFailedPrepared(s, b.reportRefused);
    PreparedRecord(s, true, b.reportRefused);
    TookRecord(Prepared(s, true, b.reportRefused), b.joined);
  }

  lemma RecoveredIs(s: Loop, opens: bool)
    requires s.streak == HW_ERROR_RECOVERY_THRESHOLD - 1 && !s.ended
    ensures var t := Attempted(s, Failed, opens);
            && t.deeds == s.deeds + [Errored, if s.rebuilt then Demoted else Rebuilt]
            && t.session == (opens && !(s.zeroCopy && s.rebuilt))
            && t.ended == (s.zeroCopy && !t.session)
            && (!t.ended ==> t.forceIdr)
  {
    assert s.deeds + [Errored] + [Demoted] == s.deeds + [Errored, Demoted];
    assert s.deeds + [Errored] + [Rebuilt] == s.deeds + [Errored, Rebuilt];
  }

  // ----- where a thread ends

  lemma OneMore(zeroCopy: bool, session: bool, events: seq<Event>, e: Event)
    ensures After(zeroCopy, session, events + [e]) == Step(After(zeroCopy, session, events), e)
  {
    assert (events + [e])[..|events|] == events;
  }

  /** The head of a pass ends the thread, and does nothing else, or begins the pass. */
  lemma BegunEnds(s: Loop, rateFailed: bool, reportRefused: bool, joined: bool)
    requires !s.busy && !s.ended
    ensures var t := Begun(s, rateFailed, reportRefused, joined);
            (t.ended <==> s.zeroCopy && !s.session) && (t.busy <==> !t.ended) && (t.ended ==> t == s.(ended := true))
  {
    if !(s.zeroCopy && !s.session) {
      var p := Prepared(s, rateFailed, reportRefused);
      assert !p.ended;
      assert TookRequest(p, joined).busy && !TookRequest(p, joined).ended;
    }
  }

  /** A pass begins, or ends the thread, which is exactly where it is a zero-copy one without a session. */
  lemma {:induction false} PassBeginsExactly(zeroCopy: bool, session: bool, events: seq<Event>, begin: Event)
    requires begin.Begin?
    requires var s := After(zeroCopy, session, events).loop; !s.busy && !s.ended
    ensures var s := After(zeroCopy, session, events).loop;
            var t := After(zeroCopy, session, events + [begin]).loop;
            (t.ended <==> zeroCopy && !s.session) && (t.busy <==> !t.ended) && (t.ended ==> t == s.(ended := true))
  {
    OneMore(zeroCopy, session, events, begin);
    KindStays(zeroCopy, session, events);
    BegunEnds(After(zeroCopy, session, events).loop, begin.rateFailed, begin.reportRefused, begin.joined);
  }

  /**
   So one whose session a restart took back ends at its next pass, nothing encoded and the flag
   left as it is for its successor.
   */
  lemma {:induction false} TakenBackEnds(session: bool, events: seq<Event>, begin: Event)
    requires begin.Begin?
    requires var s := After(true, session, events).loop; !s.busy && !s.ended
    ensures After(true, session, events + [TakeBack] + [begin]).loop ==
            After(true, session, events).loop.(session := false, ended := true)
  {
    var before := events + [TakeBack];
    TakenBackBetween(session, events);
    assert !After(true, session, before).loop.busy && !After(true, session, before).loop.session;
    PassBeginsExactly(true, session, before, begin);
  }

  lemma TakenBackBetween(session: bool, events: seq<Event>)
    requires !After(true, session, events).loop.busy
    ensures After(true, session, events + [TakeBack]).loop == After(true, session, events).loop.(session := false)
  {
    OneMore(true, session, events, TakeBack);
    KindStays(true, session, events);
  }

  lemma {:induction false} KindStays(zeroCopy: bool, session: bool, events: seq<Event>)
    ensures After(zeroCopy, session, events).loop.zeroCopy == zeroCopy
  {
    if events != [] {
      KindStays(zeroCopy, session, events[..|events| - 1]);
      StepKeepsKind(After(zeroCopy, session, events[..|events| - 1]), events[|events| - 1]);
    }
  }

  lemma StepKeepsKind(r: Run, e: Event)
    ensures Step(r, e).loop.zeroCopy == r.loop.zeroCopy
  {
    match e
    case Begin(rateFailed, reportRefused, joined) => BegunKeepsKind(r.loop, rateFailed, reportRefused, joined);
    case Encode(outcome, opens) => AttemptedKeepsKind(r.loop, outcome, opens);
    case Finish => assert Finished(r.loop).zeroCopy == r.loop.zeroCopy;
    case _ =>
  }

  lemma BegunKeepsKind(s: Loop, rateFailed: bool, reportRefused: bool, joined: bool)
    ensures Begun(s, rateFailed, reportRefused, joined).zeroCopy == s.zeroCopy
  {
    var p := Prepared(s, rateFailed, reportRefused);
    assert p.zeroCopy == s.zeroCopy;
    assert TookRequest(p, joined).zeroCopy == p.zeroCopy;
  }

  lemma AttemptedKeepsKind(s: Loop, outcome: Outcome, opens: bool)
    ensures Attempted(s, outcome, opens).zeroCopy == s.zeroCopy
  {
    assert Recovered(Failing(s), opens).zeroCopy == Failing(s).zeroCopy;
  }

  /** A thread ends between passes, or after the one encode of a pass. */
  predicate EndsAfterItsEncode(r: Run) {
    r.loop.ended && r.loop.busy ==> r.attempted
  }

  lemma StepEndsAfterItsEncode(r: Run, e: Event)
    requires EndsAfterItsEncode(r)
    ensures EndsAfterItsEncode(Step(r, e))
    ensures r.loop.ended ==> Step(r, e).loop.ended && Step(r, e).loop.deeds == r.loop.deeds
  {
  }

  lemma {:induction false} ThreadsEndAfterTheirEncode(zeroCopy: bool, session: bool, events: seq<Event>)
    ensures EndsAfterItsEncode(After(zeroCopy, session, events))
  {
    if events != [] {
      ThreadsEndAfterTheirEncode(zeroCopy, session, events[..|events| - 1]);
      StepEndsAfterItsEncode(After(zeroCopy, session, events[..|events| - 1]), events[|events| - 1]);
    }
  }

  /** A thread that ended encodes no more, whatever comes. */
  lemma {:induction false} EndedEncodesNoMore(zeroCopy: bool, session: bool, events: seq<Event>, more: seq<Event>)
    requires After(zeroCopy, session, events).loop.ended
    ensures var s := After(zeroCopy, session, events + more).loop;
            s.ended && s.deeds == After(zeroCopy, session, events).loop.deeds
  {
    if more == [] {
      assert events + more == events;
    } else {
      var front, e := more[..|more| - 1], more[|more| - 1];
      EndedEncodesNoMore(zeroCopy, session, events, front);
      assert events + more == events + front + [e];
      OneMore(zeroCopy, session, events + front, e);
      ThreadsEndAfterTheirEncode(zeroCopy, session, events + front);
      StepEndsAfterItsEncode(After(zeroCopy, session, events + front), e);
    }
  }

  /** A request's way, from the start of a thread with a session: taken by the first pass, and answered by its output or armed again. */
  lemma {:induction false} FirstRequest(zeroCopy: bool, outcome: Outcome, opens: bool)
    ensures var s := After(zeroCopy, true, [Arm, Begin(false, false, false), Encode(outcome, opens), Finish]).loop;
            && !s.busy && !s.ended && s.session && s.armed == 1
            && (s.forceIdr <==> !outcome.Output?) && (s.served == 1 <==> outcome.Output?)
            && s.deeds == [if outcome.Failed? then Errored else Encoded]
  {
    var events := [Arm, Begin(false, false, false), Encode(outcome, opens), Finish];
    assert events[..0] == [] && events[..1] == [Arm] && events[..2] == [Arm, Begin(false, false, false)];
    assert events[..3] == [Arm, Begin(false, false, false), Encode(outcome, opens)] && events[..4] == events;
    assert [Arm, Begin(false, false, false), Encode(outcome, opens)] == events[..2] + [Encode(outcome, opens)];
    OneMore(zeroCopy, true, events[..0], Arm);
    OneMore(zeroCopy, true, events[..1], Begin(false, false, false));
    OneMore(zeroCopy, true, events[..2], Encode(outcome, opens));
    OneMore(zeroCopy, true, events[..3], Finish);
    assert events[..0] + [Arm] == events[..1] && events[..1] + [Begin(false, false, false)] == events[..2];
    assert events[..3] + [Finish] == events;
  }
}
