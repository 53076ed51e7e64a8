/**
 Captures of a host compositor: each start asks the host for a mode and is reconciled with the
 one the host runs, and the readers asking for a display's geometry meanwhile are parked behind
 the request.

 Every reader has a channel of its own, so what must not happen is that one is sent two answers,
 or is dropped unanswered. The functions up to `After` are the code on values, `Compositor` is the
 code in place, and the theorems are about every sequence of events.
 */
module HostLayout {
  import opened Options

  type Display = nat
  type Reader = nat

  datatype Size = Size(w: int, h: int)

  datatype Settings = Settings(size: Size, video: bool, hosted: bool)

  /** `owner` is the screen a view is cut from; the view shares that screen's mode. */
  datatype Node = Node(owner: Option<Display>, capture: Option<Settings>)

  datatype Pending = Pending(epoch: nat, want: Size, waiters: seq<Reader>)

  datatype State = State(
    nodes: map<Display, Node>, modes: map<Display, Size>, host: bool,
    pending: map<Display, Pending>, channels: map<Reader, seq<Size>>)

  /**
   What a start meets: the host's connection is alive, a new connection succeeds, the render
   target of the new size can be had (or is not needed), and the number the host gives the request.
   */
  datatype Start = Start(alive: bool, connects: bool, backed: bool, epoch: nat)

  /** The host's ruling on a request: none yet, or given, with the mode it then announces if any. */
  datatype Ruling = Unanswered | Ruled(mode: Option<Size>)

  function Even(n: int): int {
    n - n % 2
  }

  /** The sizes a video codec takes are even. */
  function Masked(size: Size, video: bool): Size {
    if video then Size(Even(size.w), Even(size.h)) else size
  }

  function ModeOf(nodes: map<Display, Node>, modes: map<Display, Size>, id: Display): Size {
    if id !in nodes then Size(0, 0)
    else
      var screen := if nodes[id].owner.Some? then nodes[id].owner.value else id;
      if screen in modes then modes[screen] else Size(0, 0)
  }

  function Realized(s: State, id: Display): Size {
    if id in s.nodes && s.nodes[id].capture.Some? then s.nodes[id].capture.value.size
    else ModeOf(s.nodes, s.modes, id)
  }

  function Sent(channels: map<Reader, seq<Size>>, readers: seq<Reader>, size: Size): map<Reader, seq<Size>> {
    map t | t in channels :: if t in readers then channels[t] + [size] else channels[t]
  }

  predicate ParkedAt(pending: map<Display, Pending>, t: Reader, id: Display) {
    id in pending && t in pending[id].waiters
  }

  function Waiters(pending: map<Display, Pending>, id: Display): seq<Reader> {
    if id in pending then pending[id].waiters else []
  }

  // ----- the operations on values

  function Uncaptured(n: Node): Node {
    n.(capture := None)
  }

  function Stopped(s: State, id: Display): State {
    if id !in s.nodes then s
    else
      s.(nodes := s.nodes[id := Uncaptured(s.nodes[id])],
         pending := s.pending - {id},
         channels := Sent(s.channels, Waiters(s.pending, id), ModeOf(s.nodes, s.modes, id)))
  }

  /** What the losing of the host puts on the channels: every parked reader gets its display's mode. */
  ghost function Drained(s: State): map<Reader, seq<Size>> {
    map t | t in s.channels ::
      if exists id :: ParkedAt(s.pending, t, id) then
        var id :| ParkedAt(s.pending, t, id);
        s.channels[t] + [ModeOf(s.nodes, s.modes, id)]
      else s.channels[t]
  }

  ghost function Reaped(s: State, alive: bool): State {
    if !s.host || alive then s
    else
      State(map id | id in s.nodes :: Uncaptured(s.nodes[id]), s.modes, false, map[], Drained(s))
  }

  /** The size a start of `node` captures at: a screen keeps its mode where the target cannot be had. */
  function CaptureSize(node: Node, modes: map<Display, Size>, id: Display, settings: Settings, start: Start): Size {
    if node.owner.Some? || start.backed then Masked(settings.size, settings.video)
    else if id in modes then modes[id]
    else Size(0, 0)
  }

  /** The host connected where one is wanted, and a screen given the mode it captures at. */
  function Configured(s: State, node: Node, id: Display, settings: Settings, start: Start): State {
    s.(host := s.host || (settings.hosted && start.connects),
       modes := if node.owner.None? then s.modes[id := CaptureSize(node, s.modes, id, settings, start)] else s.modes)
  }

  /** The new capture in place: its readers parked behind the host's request, or answered without one. */
  function Installed(s: State, id: Display, node: Node, hosted: bool, epoch: nat, waiters: seq<Reader>): State
    requires node.capture.Some?
  {
    var size := node.capture.value.size;
    s.(nodes := s.nodes[id := node],
       pending := if hosted then s.pending[id := Pending(epoch, size, waiters)] else s.pending,
       channels := if hosted then s.channels else Sent(s.channels, waiters, size))
  }

  ghost function Started(s: State, id: Display, settings: Settings, start: Start): State {
    if id !in s.nodes then s
    else
      var node := s.nodes[id];
      var reaped := Reaped(s.(nodes := s.nodes - {id}, pending := s.pending - {id}), start.alive);
      var configured := Configured(reaped, node, id, settings, start);
      var size := CaptureSize(node, s.modes, id, settings, start);
      Installed(configured, id, node.(capture := Some(settings.(size := size))),
                settings.hosted && configured.host, start.epoch, Waiters(s.pending, id))
  }

  /** The host's mode where it is known and is not the one asked for. */
  function Resolution(want: Size, current: Option<Size>): Option<Size> {
    if current.Some? && current.value != want then current else None
  }

  /** The ruling on `id` restarts its capture. */
  predicate Restarts(s: State, id: Display, ruling: Ruling) {
    && id in s.pending && s.host && ruling.Ruled?
    && var mode := Resolution(s.pending[id].want, ruling.mode);
       && mode.Some? && id in s.nodes && s.nodes[id].capture.Some?
       && Masked(mode.value, s.nodes[id].capture.value.video) != s.pending[id].want
  }

  predicate Settles(s: State, id: Display, ruling: Ruling) {
    id in s.pending && (!s.host || ruling.Ruled?)
  }

  ghost function Settled(s: State, id: Display, ruling: Ruling, start: Start): State {
    if !Settles(s, id, ruling) then s
    else
      var waiters := s.pending[id].waiters;
      var taken := s.(pending := s.pending - {id});
      var next :=
        if Restarts(s, id, ruling)
        then Started(taken, id, s.nodes[id].capture.value.(size := ruling.mode.value), start)
        else taken;
      next.(channels := Sent(next.channels, waiters, Realized(next, id)))
  }

  function Asked(s: State, t: Reader, id: Display): State {
    var channels := s.channels[t := []];
    if id in s.pending then
      s.(channels := channels, pending := s.pending[id := s.pending[id].(waiters := s.pending[id].waiters + [t])])
    else s.(channels := Sent(channels, [t], Realized(s, id)))
  }

  /**
   What can happen. `Reap` and `Settle` are the steps of a tick, one display settled at a time;
   `Add`, `Remove` and `Remode` are what the registry does to a node. A reader asks once.
   */
  datatype Event =
    | GetInfo(reader: Reader, id: Display)
    | StartCapture(id: Display, settings: Settings, start: Start)
    | StopCapture(id: Display)
    | Reap(alive: bool)
    | Settle(id: Display, ruling: Ruling, start: Start)
    | Add(id: Display, owner: Option<Display>, mode: Size)
    | Remove(id: Display)
    | Remode(id: Display, mode: Size)

  ghost function After(s: State, e: Event): State {
    match e
    case GetInfo(t, id) => if t in s.channels then s else Asked(s, t, id)
    case StartCapture(id, settings, start) => Started(s, id, settings, start)
    case StopCapture(id) => Stopped(s, id)
    case Reap(alive) => Reaped(s, alive)
    case Settle(id, ruling, start) => Settled(s, id, ruling, start)
    case Add(id, owner, mode) =>
      if id in s.nodes then s
      else s.(nodes := s.nodes[id := Node(owner, None)], modes := if owner.None? then s.modes[id := mode] else s.modes)
    case Remove(id) =>
      var stopped := Stopped(s, id);
      stopped.(nodes := stopped.nodes - {id})
    case Remode(id, mode) => if id in s.nodes && s.nodes[id].owner.None? then s.(modes := s.modes[id := mode]) else s
  }

  ghost function Run(s: State, events: seq<Event>): State {
    if events == [] then s else After(Run(s, events[..|events| - 1]), events[|events| - 1])
  }

  // ----- every reader is answered once, or parked once

  predicate Distinct(readers: seq<Reader>) {
    forall i, j :: 0 <= i < j < |readers| ==> readers[i] != readers[j]
  }

  /** `loose` are the readers an operation has in hand, parked nowhere and yet to be answered. */
  ghost predicate Once(pending: map<Display, Pending>, channels: map<Reader, seq<Size>>, loose: seq<Reader>) {
    && Distinct(loose) && (forall t :: t in loose ==> t in channels && channels[t] == [])
    && (forall id :: id in pending ==> Distinct(pending[id].waiters))
    && (forall t, id :: ParkedAt(pending, t, id) ==> t in channels && channels[t] == [] && t !in loose)
    && (forall t, id, other :: ParkedAt(pending, t, id) && ParkedAt(pending, t, other) ==> id == other)
    && (forall t :: t in channels && t !in loose && (forall id :: !ParkedAt(pending, t, id)) ==> |channels[t]| == 1)
  }

  /** A request is of a display that captures from the live host, at the size requested. */
  predicate Attached(s: State) {
    forall id :: id in s.pending ==>
      && s.host && id in s.nodes && s.nodes[id].capture.Some?
      && s.nodes[id].capture.value.hosted && s.nodes[id].capture.value.size == s.pending[id].want
  }

  ghost predicate Valid(s: State) {
    Once(s.pending, s.channels, []) && Attached(s)
  }

  lemma DistinctParts(a: seq<Reader>, b: seq<Reader>)
    ensures Distinct(a + b) <==> Distinct(a) && Distinct(b) && forall t :: t in a ==> t !in b
    ensures forall t :: t in a + b <==> t in a || t in b
  {
    var all := a + b;
    assert forall i :: 0 <= i < |all| ==> all[i] == if i < |a| then a[i] else b[i - |a|];
    if Distinct(all) {
      forall i, j | 0 <= i < |a| && 0 <= j < |b| ensures a[i] != b[j] {
        assert all[i] != all[|a| + j];
      }
      forall i, j | 0 <= i < j < |b| ensures b[i] != b[j] {
        assert all[|a| + i] != all[|a| + j];
      }
      forall i, j | 0 <= i < j < |a| ensures a[i] != a[j] {
        assert all[i] != all[j];
      }
      forall t | t in a ensures t !in b {
        var i :| 0 <= i < |a| && a[i] == t;
      }
    }
    if Distinct(a) && Distinct(b) && forall t :: t in a ==> t !in b {
      forall i, j | 0 <= i < j < |all| ensures all[i] != all[j] {
        assert i < |a| ==> all[i] in a;
        assert j >= |a| ==> all[j] in b;
      }
    }
  }

  /** Sending to readers in hand answers them. */
  lemma SendLoose(pending: map<Display, Pending>, channels: map<Reader, seq<Size>>, sent: seq<Reader>, loose: seq<Reader>, size: Size)
    requires Once(pending, channels, sent + loose)
    ensures Once(pending, Sent(channels, sent, size), loose)
  {
    DistinctParts(sent, loose);
  }

  /** Taking a request out puts its readers in hand. */
  lemma TakeOut(pending: map<Display, Pending>, channels: map<Reader, seq<Size>>, id: Display, loose: seq<Reader>)
    requires Once(pending, channels, loose)
    ensures Once(pending - {id}, channels, Waiters(pending, id) + loose)
  {
    var taken := Waiters(pending, id);
    assert forall t :: t in taken <==> ParkedAt(pending, t, id);
    assert forall t, other :: ParkedAt(pending - {id}, t, other) <==> ParkedAt(pending, t, other) && other != id;
    DistinctParts(taken, loose);
  }

  /** Putting one in parks them again. */
  lemma PutIn(pending: map<Display, Pending>, channels: map<Reader, seq<Size>>, id: Display, p: Pending, loose: seq<Reader>)
    requires Once(pending, channels, p.waiters + loose) && id !in pending
    ensures Once(pending[id := p], channels, loose)
  {
    var parked := pending[id := p];
    DistinctParts(p.waiters, loose);
    assert forall t, other :: ParkedAt(parked, t, other) <==> if other == id then t in p.waiters else ParkedAt(pending, t, other);
    assert forall t, other :: ParkedAt(parked, t, other) ==> t in channels && channels[t] == [] && t !in loose;
    assert forall t, one, other :: ParkedAt(parked, t, one) && ParkedAt(parked, t, other) ==> one == other;
    forall t | t in channels && t !in loose && (forall other :: !ParkedAt(parked, t, other)) ensures |channels[t]| == 1 {
      assert !ParkedAt(parked, t, id);
      assert forall other :: !ParkedAt(pending, t, other);
    }
  }

  lemma DrainedOnce(s: State, loose: seq<Reader>)
    requires Once(s.pending, s.channels, loose)
    ensures Once(map[], Drained(s), loose)
  {
    assert forall t, id :: !ParkedAt(map[], t, id);
    forall t | t in s.channels && t !in loose ensures |Drained(s)[t]| == 1 {
      if exists id :: ParkedAt(s.pending, t, id) {
        var id :| ParkedAt(s.pending, t, id);
      }
    }
  }

  lemma StoppedOnce(s: State, id: Display, loose: seq<Reader>)
    requires Once(s.pending, s.channels, loose)
    ensures Once(Stopped(s, id).pending, Stopped(s, id).channels, loose)
  {
    TakeOut(s.pending, s.channels, id, loose);
    SendLoose(s.pending - {id}, s.channels, Waiters(s.pending, id), loose, ModeOf(s.nodes, s.modes, id));
  }

  lemma ReapedOnce(s: State, alive: bool, loose: seq<Reader>)
    requires Once(s.pending, s.channels, loose)
    ensures Once(Reaped(s, alive).pending, Reaped(s, alive).channels, loose)
  {
    DrainedOnce(s, loose);
  }

  /** A start carries the readers of the request it supersedes to its own, or answers them. */
  lemma StartedOnce(s: State, id: Display, settings: Settings, start: Start, loose: seq<Reader>)
    requires Once(s.pending, s.channels, loose)
    ensures Once(Started(s, id, settings, start).pending, Started(s, id, settings, start).channels, loose)
  {
    if id in s.nodes {
      var waiters := Waiters(s.pending, id);
      var taken := s.(nodes := s.nodes - {id}, pending := s.pending - {id});
      TakeOut(s.pending, s.channels, id, loose);
      ReapedOnce(taken, start.alive, waiters + loose);
      var reaped := Reaped(taken, start.alive);
      var size := CaptureSize(s.nodes[id], s.modes, id, settings, start);
      if settings.hosted && (reaped.host || start.connects) {
        PutIn(reaped.pending, reaped.channels, id, Pending(start.epoch, size, waiters), loose);
      } else {
        SendLoose(reaped.pending, reaped.channels, waiters, loose, size);
      }
    }
  }

  lemma SettledOnce(s: State, id: Display, ruling: Ruling, start: Start)
    requires Once(s.pending, s.channels, [])
    ensures Once(Settled(s, id, ruling, start).pending, Settled(s, id, ruling, start).channels, [])
  {
    if Settles(s, id, ruling) {
      var waiters := s.pending[id].waiters;
      var taken := s.(pending := s.pending - {id});
      TakeOut(s.pending, s.channels, id, []);
      assert waiters + [] == waiters;
      var next := taken;
      if Restarts(s, id, ruling) {
        var settings := s.nodes[id].capture.value.(size := ruling.mode.value);
        StartedOnce(taken, id, settings, start, waiters);
        next := Started(taken, id, settings, start);
      }
      SendLoose(next.pending, next.channels, waiters, [], Realized(next, id));
    }
  }

  lemma AskedOnce(s: State, t: Reader, id: Display)
    requires Once(s.pending, s.channels, []) && t !in s.channels
    ensures Once(Asked(s, t, id).pending, Asked(s, t, id).channels, [])
  {
    var channels := s.channels[t := []];
    assert Once(s.pending, channels, [t]);
    assert [t] + [] == [t];
    if id in s.pending {
      var p := s.pending[id].(waiters := s.pending[id].waiters + [t]);
      TakeOut(s.pending, channels, id, [t]);
      assert p.waiters + [] == Waiters(s.pending, id) + [t];
      PutIn(s.pending - {id}, channels, id, p, []);
      assert (s.pending - {id})[id := p] == s.pending[id := p];
    } else {
      SendLoose(s.pending, channels, [t], [], Realized(s, id));
    }
  }

  lemma StepOnce(s: State, e: Event)
    requires Once(s.pending, s.channels, [])
    ensures Once(After(s, e).pending, After(s, e).channels, [])
  {
    match e
    case GetInfo(t, id) =>
      if t !in s.channels {
        AskedOnce(s, t, id);
      }
    case StartCapture(id, settings, start) => StartedOnce(s, id, settings, start, []);
    case StopCapture(id) => StoppedOnce(s, id, []);
    case Reap(alive) => ReapedOnce(s, alive, []);
    case Settle(id, ruling, start) => SettledOnce(s, id, ruling, start);
    case Add(_, _, _) =>
    case Remove(id) => StoppedOnce(s, id, []);
    case Remode(_, _) =>
  }

  /** What an event leaves pending is attached to a capture of the size it asks for. */
  lemma StartedAttached(s: State, id: Display, settings: Settings, start: Start)
    requires Attached(s)
    ensures Attached(Started(s, id, settings, start))
  {
  }

  lemma StepAttached(s: State, e: Event)
    requires Attached(s)
    ensures Attached(After(s, e))
  {
    match e
    case StartCapture(id, settings, start) => StartedAttached(s, id, settings, start);
    case Settle(id, ruling, start) =>
      if Restarts(s, id, ruling) {
        StartedAttached(s.(pending := s.pending - {id}), id, s.nodes[id].capture.value.(size := ruling.mode.value), start);
      }
    case _ =>
  }

  /** Nothing pending, nobody asking. */
  function Initial(nodes: map<Display, Node>, modes: map<Display, Size>): State {
    State(nodes, modes, false, map[], map[])
  }

  lemma {:induction false} RunsAreValid(nodes: map<Display, Node>, modes: map<Display, Size>, events: seq<Event>)
    ensures Valid(Run(Initial(nodes, modes), events))
  {
    if events != [] {
      var front := events[..|events| - 1];
      RunsAreValid(nodes, modes, front);
      StepOnce(Run(Initial(nodes, modes), front), events[|events| - 1]);
      StepAttached(Run(Initial(nodes, modes), front), events[|events| - 1]);
    }
  }

  /** Parked behind the request of `id`, a capturing display, once, and nowhere else. */
  ghost predicate ParkedOnlyAt(s: State, t: Reader, id: Display) {
    && id in s.pending && id in s.nodes && s.nodes[id].capture.Some?
    && (exists k :: 0 <= k < |s.pending[id].waiters| && s.pending[id].waiters[k] == t)
    && (forall j, k :: 0 <= j < k < |s.pending[id].waiters| && s.pending[id].waiters[j] == t ==> s.pending[id].waiters[k] != t)
    && (forall other :: ParkedAt(s.pending, t, other) ==> other == id)
  }

  /**
   In every run, every reader has either been sent exactly one answer and is parked nowhere, or
   been sent none and is parked behind exactly one request, of a display that captures.
   */
  lemma AnsweredOnceOrParkedOnce(nodes: map<Display, Node>, modes: map<Display, Size>, events: seq<Event>, t: Reader)
    requires t in Run(Initial(nodes, modes), events).channels
    ensures var s := Run(Initial(nodes, modes), events);
      || (|s.channels[t]| == 1 && forall id :: !ParkedAt(s.pending, t, id))
      || (s.channels[t] == [] && exists id :: ParkedOnlyAt(s, t, id))
  {
    var s := Run(Initial(nodes, modes), events);
    RunsAreValid(nodes, modes, events);
    if exists id :: ParkedAt(s.pending, t, id) {
      var id :| ParkedAt(s.pending, t, id);
      assert ParkedOnlyAt(s, t, id);
    }
  }

  /** The readers of a settled request are sent, and only then, the size captured from then on. */
  lemma SettledReadersSeeTheCapture(s: State, id: Display, ruling: Ruling, start: Start, t: Reader)
    requires Valid(s) && ParkedAt(s.pending, t, id) && ruling.Ruled?
    ensures var next := Settled(s, id, ruling, start);
      && next.nodes[id].capture.Some? && next.channels[t] == [next.nodes[id].capture.value.size]
      && (Restarts(s, id, ruling) && (start.backed || s.nodes[id].owner.Some?) ==>
            TakenAt(ruling.mode.value, s.nodes[id].capture.value.video, next.nodes[id].capture.value.size))
      && (!Restarts(s, id, ruling) ==> next.nodes == s.nodes)
  {
    var waiters := s.pending[id].waiters;
    var taken := s.(pending := s.pending - {id});
    assert s.nodes[id].capture.Some?;
    TakeOut(s.pending, s.channels, id, []);
    assert waiters + [] == waiters;
    if Restarts(s, id, ruling) {
      StartedOnce(taken, id, s.nodes[id].capture.value.(size := ruling.mode.value), start, waiters);
    }
  }

  // ----- the size captured

  /** A video codec takes even sides, and loses at most a pixel of each; any other takes the size as it is. */
  predicate TakenAt(asked: Size, video: bool, size: Size) {
    if video then
      && size.w % 2 == 0 && asked.w - 1 <= size.w <= asked.w
      && size.h % 2 == 0 && asked.h - 1 <= size.h <= asked.h
    else size == asked
  }

  lemma MaskedIsTakenAt(asked: Size, video: bool)
    ensures TakenAt(asked, video, Masked(asked, video))
  {
  }

  /** There is only one such size. */
  lemma TakenAtOnce(asked: Size, video: bool, a: Size, b: Size)
    requires TakenAt(asked, video, a) && TakenAt(asked, video, b)
    ensures a == b
  {
  }

  /**
   What a start captures at: what was asked for, as the codec takes it, on a view and where the
   target can be had; a screen's own mode otherwise. A screen takes it as its mode, a request
   asks the host for it, and the readers of a start without a host are sent it.
   */
  lemma {:induction false} StartCapturesAt(s: State, id: Display, settings: Settings, start: Start)
    requires id in s.nodes
    ensures var next := After(s, StartCapture(id, settings, start));
      && id in next.nodes && next.nodes[id].capture.Some?
      && var size := next.nodes[id].capture.value.size;
         && (if s.nodes[id].owner.Some? || start.backed then TakenAt(settings.size, settings.video, size)
             else size == ModeOf(s.nodes, s.modes, id))
         && (s.nodes[id].owner.None? ==> id in next.modes && next.modes[id] == size)
         && (settings.hosted && next.host ==> id in next.pending && next.pending[id].want == size)
         && (!settings.hosted ==> id !in next.pending)
  {
    MaskedIsTakenAt(settings.size, settings.video);
  }

  /**
   After a ruling that announces a mode, the capture runs at that mode as its codec takes it, or
   at the mode itself where it did already: always where it is a view or its target can be had.
   */
  lemma {:induction false} SettledFollowsTheHost(s: State, id: Display, mode: Size, start: Start)
    requires Valid(s) && id in s.pending && (s.nodes[id].owner.Some? || start.backed)
    ensures var next := After(s, Settle(id, Ruled(Some(mode)), start));
      && next.nodes[id].capture.Some?
      && var size := next.nodes[id].capture.value.size;
         size == mode || TakenAt(mode, s.nodes[id].capture.value.video, size)
  {
    MaskedIsTakenAt(mode, s.nodes[id].capture.value.video);
  }

  /** And it is restarted only where it does not run so already. */
  lemma {:induction false} RestartedOnlyOffTheMode(s: State, id: Display, mode: Size)
    requires Valid(s) && id in s.pending
    ensures var c := s.nodes[id].capture.value;
      Restarts(s, id, Ruled(Some(mode))) <==> c.size != mode && !TakenAt(mode, c.video, c.size)
  {
    var c := s.nodes[id].capture.value;
    MaskedIsTakenAt(mode, c.video);
    if TakenAt(mode, c.video, c.size) {
      TakenAtOnce(mode, c.video, c.size, Masked(mode, c.video));
    }
  }

  /** Without a request pending a reader is answered at once: the capture's size, or the mode. */
  lemma {:induction false} AskedWithoutRequest(s: State, t: Reader, id: Display)
    requires t !in s.channels
    ensures var next := After(s, GetInfo(t, id));
      if id in s.pending then ParkedAt(next.pending, t, id) && next.channels[t] == []
      else
        && !ParkedAt(next.pending, t, id)
        && next.channels[t] == [if id in s.nodes && s.nodes[id].capture.Some? then s.nodes[id].capture.value.size
                                else ModeOf(s.nodes, s.modes, id)]
  {
  }

  /** A display's mode is its screen's; an unknown display has none. */
  lemma ModeIsTheScreens(s: State, id: Display)
    ensures id !in s.nodes ==> ModeOf(s.nodes, s.modes, id) == Size(0, 0)
    ensures id in s.nodes && s.nodes[id].owner.None? && id in s.modes ==> ModeOf(s.nodes, s.modes, id) == s.modes[id]
    ensures id in s.nodes && s.nodes[id].owner.Some? && s.nodes[id].owner.value in s.modes ==>
      ModeOf(s.nodes, s.modes, id) == s.modes[s.nodes[id].owner.value]
  {
  }

  /** A stop ends the display's capture and request, and answers its readers with the mode. */
  lemma {:induction false} StopEndsIt(s: State, id: Display)
    requires Valid(s) && id in s.nodes
    ensures var next := After(s, StopCapture(id));
      && next.nodes == s.nodes[id := Node(s.nodes[id].owner, None)] && next.modes == s.modes && next.host == s.host
      && id !in next.pending && (forall other :: other in s.pending && other != id ==> other in next.pending && next.pending[other] == s.pending[other])
      && forall t :: ParkedAt(s.pending, t, id) ==> next.channels[t] == [ModeOf(s.nodes, s.modes, id)]
  {
    forall t | ParkedAt(s.pending, t, id) ensures t in s.channels && s.channels[t] == [] {
    }
  }

  /** A lost host ends every capture and request, and answers every reader with its display's mode; a live one is left alone. */
  lemma {:induction false} ReapEndsAll(s: State, alive: bool)
    requires Valid(s)
    ensures var next := After(s, Reap(alive));
      if alive || !s.host then next == s
      else
        && !next.host && next.pending == map[] && next.modes == s.modes && next.nodes.Keys == s.nodes.Keys
        && (forall id :: id in next.nodes ==> next.nodes[id] == Node(s.nodes[id].owner, None))
        && forall t, id :: ParkedAt(s.pending, t, id) ==> next.channels[t] == [ModeOf(s.nodes, s.modes, id)]
  {
    if s.host && !alive {
      forall t, id | ParkedAt(s.pending, t, id) ensures t in s.channels && Drained(s)[t] == [ModeOf(s.nodes, s.modes, id)] {
        DrainAll(s, s.pending.Keys, []);
        DrainedReader(s, s.pending.Keys, t, id, []);
      }
    }
  }

  /** A ruling not given yet changes nothing. */
  lemma {:induction false} UnansweredWaits(s: State, id: Display, start: Start)
    requires s.host
    ensures After(s, Settle(id, Unanswered, start)) == s
  {
  }

  // ----- the code

  /** The channels once the readers parked behind the requests of `done` are answered. */
  ghost function DrainedOf(s: State, done: set<Display>): map<Reader, seq<Size>> {
    map t | t in s.channels ::
      if exists id :: id in done && ParkedAt(s.pending, t, id) then
        var id :| id in done && ParkedAt(s.pending, t, id);
        s.channels[t] + [ModeOf(s.nodes, s.modes, id)]
      else s.channels[t]
  }

  /** What reader `t` finds on its channel then. */
  lemma DrainedReader(s: State, done: set<Display>, t: Reader, id: Display, loose: seq<Reader>)
    requires Once(s.pending, s.channels, loose) && ParkedAt(s.pending, t, id)
    ensures t in s.channels
    ensures DrainedOf(s, done)[t] == if id in done then s.channels[t] + [ModeOf(s.nodes, s.modes, id)] else s.channels[t]
  {
  }

  lemma NotParked(s: State, done: set<Display>, t: Reader)
    requires t in s.channels && forall id :: id in done ==> !ParkedAt(s.pending, t, id)
    ensures DrainedOf(s, done)[t] == s.channels[t]
  {
  }

  lemma DrainOneReader(s: State, done: set<Display>, id: Display, t: Reader, loose: seq<Reader>)
    requires Once(s.pending, s.channels, loose) && id !in done && t in s.channels
    ensures DrainedOf(s, done + {id})[t] ==
      if t in Waiters(s.pending, id) then DrainedOf(s, done)[t] + [ModeOf(s.nodes, s.modes, id)] else DrainedOf(s, done)[t]
  {
    if home :| ParkedAt(s.pending, t, home) {
      DrainedReader(s, done, t, home, loose);
      DrainedReader(s, done + {id}, t, home, loose);
      assert ParkedAt(s.pending, t, id) <==> id == home;
    } else {
      NotParked(s, done, t);
      NotParked(s, done + {id}, t);
      assert !ParkedAt(s.pending, t, id);
    }
  }

  lemma DrainOneMore(s: State, done: set<Display>, id: Display, loose: seq<Reader>)
    requires Once(s.pending, s.channels, loose) && id !in done
    ensures Sent(DrainedOf(s, done), Waiters(s.pending, id), ModeOf(s.nodes, s.modes, id)) == DrainedOf(s, done + {id})
  {
    forall t | t in s.channels
      ensures Sent(DrainedOf(s, done), Waiters(s.pending, id), ModeOf(s.nodes, s.modes, id))[t] == DrainedOf(s, done + {id})[t]
    {
      DrainOneReader(s, done, id, t, loose);
    }
  }

  lemma DrainAll(s: State, done: set<Display>, loose: seq<Reader>)
    requires Once(s.pending, s.channels, loose) && s.pending.Keys <= done
    ensures DrainedOf(s, done) == Drained(s)
  {
    assert forall t, id :: ParkedAt(s.pending, t, id) ==> id in done;
  }

  lemma DrainNone(s: State)
    ensures DrainedOf(s, {}) == s.channels
  {
  }

  /** Stopping captures changes no display's mode. */
  lemma ModesStay(nodes: map<Display, Node>, other: map<Display, Node>, modes: map<Display, Size>, id: Display)
    requires nodes.Keys == other.Keys && forall d :: d in nodes ==> nodes[d].owner == other[d].owner
    ensures ModeOf(nodes, modes, id) == ModeOf(other, modes, id)
  {
  }

  function Displays(settled: seq<Event>): set<Display>
    requires forall e :: e in settled ==> e.Settle?
  {
    if settled == [] then {} else Displays(settled[..|settled| - 1]) + {settled[|settled| - 1].id}
  }

  /** A state between `was` and its reaping: the captures of `ids` still run, those of `done` are stopped. */
  ghost predicate StoppingSince(was: State, now: State, ids: set<Display>, done: set<Display>) {
    && done !! ids && ids <= was.nodes.Keys
    && now.nodes == (map id | id in was.nodes :: if id in ids then was.nodes[id] else Uncaptured(was.nodes[id]))
    && now.modes == was.modes && now.host == was.host
    && now.pending == was.pending - done && now.channels == DrainedOf(was, done)
  }

  lemma StopOneMore(was: State, now: State, ids: set<Display>, done: set<Display>, id: Display, loose: seq<Reader>)
    requires Once(was.pending, was.channels, loose) && StoppingSince(was, now, ids, done) && id in ids
    ensures StoppingSince(was, Stopped(now, id), ids - {id}, done + {id})
  {
    ModesStay(was.nodes, now.nodes, was.modes, id);
    DrainOneMore(was, done, id, loose);
    assert was.pending - done - {id} == was.pending - (done + {id});
    assert Waiters(now.pending, id) == Waiters(was.pending, id);
  }

  /** What is still parked may be answered. */
  lemma ParkedMayBeAnswered(s: State, done: set<Display>, id: Display, loose: seq<Reader>)
    requires Once(s.pending, s.channels, loose)
    ensures Distinct(Waiters(s.pending, id))
    ensures forall t :: t in Waiters(s.pending, id) ==> t in DrainedOf(s, done)
  {
    assert forall t :: t in Waiters(s.pending, id) ==> ParkedAt(s.pending, t, id);
  }

  /** Between the stopping of every capture and the draining of every request: `keys` are left. */
  ghost predicate DrainingSince(was: State, now: State, drained: map<Display, Pending>, keys: set<Display>, done: set<Display>) {
    && keys <= drained.Keys && done !! keys && was.pending.Keys <= done + keys
    && (forall id :: id in drained ==> id in was.pending && drained[id] == was.pending[id])
    && now.nodes == (map id | id in was.nodes :: Uncaptured(was.nodes[id])) && now.modes == was.modes
    && now.channels == DrainedOf(was, done)
  }

  lemma DrainStart(was: State, now: State, done: set<Display>)
    requires now.nodes == (map id | id in was.nodes :: Uncaptured(was.nodes[id])) && now.modes == was.modes
    requires now.pending == was.pending - done && now.channels == DrainedOf(was, done)
    ensures DrainingSince(was, now, now.pending, now.pending.Keys, done)
  {
  }

  lemma DrainEnd(was: State, now: State, drained: map<Display, Pending>, done: set<Display>, loose: seq<Reader>)
    requires Once(was.pending, was.channels, loose) && DrainingSince(was, now, drained, {}, done)
    ensures now.channels == Drained(was)
  {
    DrainAll(was, done, loose);
  }

  lemma DrainStep(was: State, now: State, drained: map<Display, Pending>, keys: set<Display>, done: set<Display>, id: Display, loose: seq<Reader>)
    requires Once(was.pending, was.channels, loose) && DrainingSince(was, now, drained, keys, done) && id in keys
    ensures Distinct(drained[id].waiters) && forall t :: t in drained[id].waiters ==> t in now.channels
    ensures DrainingSince(was, now.(channels := Sent(now.channels, drained[id].waiters, Realized(now, id))), drained, keys - {id}, done + {id})
  {
    ModesStay(was.nodes, now.nodes, was.modes, id);
    DrainOneMore(was, done, id, loose);
    ParkedMayBeAnswered(was, done, id, loose);
    assert drained[id].waiters == Waiters(was.pending, id);
  }

  lemma SendOneMore(channels: map<Reader, seq<Size>>, sent: seq<Reader>, t: Reader, size: Size)
    requires t in channels && t !in sent
    ensures Sent(channels, sent + [t], size) == Sent(channels, sent, size)[t := channels[t] + [size]]
  {
  }

  class Compositor {
    var nodes: map<Display, Node>
    var modes: map<Display, Size>
    var host: bool
    var pending: map<Display, Pending>
    var channels: map<Reader, seq<Size>>

    ghost function Now(): State
      reads this
    {
      State(nodes, modes, host, pending, channels)
    }

    constructor (nodes: map<Display, Node>, modes: map<Display, Size>)
      ensures Now() == Initial(nodes, modes)
    {
      this.nodes, this.modes, host, pending, channels := nodes, modes, false, map[], map[];
    }

    method RealizedGeometry(id: Display) returns (size: Size)
      ensures size == Realized(Now(), id)
    {
      if id in nodes && nodes[id].capture.Some? {
        return nodes[id].capture.value.size;
      }
      size := ModeOf(nodes, modes, id);
    }

    method AnswerGeometryWaiters(id: Display, waiters: seq<Reader>)
      requires Distinct(waiters) && forall t :: t in waiters ==> t in channels
      modifies this`channels
      ensures channels == Sent(old(channels), waiters, Realized(old(Now()), id))
    {
      var info := RealizedGeometry(id);
      for i := 0 to |waiters|
        invariant channels == Sent(old(channels), waiters[..i], info)
      {
        assert waiters[..i + 1] == waiters[..i] + [waiters[i]];
        SendOneMore(old(channels), waiters[..i], waiters[i], info);
        channels := channels[waiters[i] := channels[waiters[i]] + [info]];
      }
      assert waiters[..|waiters|] == waiters;
    }

    /** `loose` are readers the caller has in hand. */
    method StopCaptureOnDisplay(id: Display, ghost loose: seq<Reader>)
      requires Once(pending, channels, loose)
      modifies this
      ensures Now() == Stopped(old(Now()), id)
    {
      if id !in nodes {
        return;
      }
      nodes := nodes[id := nodes[id].(capture := None)];
      if id in pending {
        var p := pending[id];
        pending := pending - {id};
        assert forall t :: t in p.waiters ==> ParkedAt(old(pending), t, id);
        ModesStay(old(nodes), nodes, modes, id);
        AnswerGeometryWaiters(id, p.waiters);
      } else {
        assert pending - {id} == pending;
        assert Sent(channels, [], ModeOf(nodes, modes, id)) == channels;
      }
    }

    /** Stops every capture, in any order; `done` are the displays it stopped. */
    method StopCaptures(ghost loose: seq<Reader>) returns (ghost done: set<Display>)
      requires Once(pending, channels, loose)
      modifies this
      ensures nodes == map id | id in old(nodes) :: Uncaptured(old(nodes)[id])
      ensures modes == old(modes) && host == old(host)
      ensures pending == old(pending) - done && channels == DrainedOf(old(Now()), done)
    {
      ghost var was := Now();
      done := {};
      DrainNone(was);
      assert pending - {} == pending;
      var ids := set id | id in nodes && nodes[id].capture.Some?;
      while ids != {}
        invariant StoppingSince(was, Now(), ids, done) && Once(pending, channels, loose)
        decreases |ids|
      {
        var id :| id in ids;
        StoppedOnce(Now(), id, loose);
        StopOneMore(was, Now(), ids, done, id, loose);
        StopCaptureOnDisplay(id, loose);
        ids := ids - {id};
        done := done + {id};
      }
    }

    method DrainOne(ghost was: State, drained: map<Display, Pending>, ghost keys: set<Display>, ghost done: set<Display>, id: Display,
                    ghost loose: seq<Reader>)
      requires Once(was.pending, was.channels, loose)
      requires DrainingSince(was, Now(), drained, keys, done) && id in keys
      modifies this`channels
      ensures DrainingSince(was, Now(), drained, keys - {id}, done + {id})
    {
      DrainStep(was, Now(), drained, keys, done, id, loose);
      AnswerGeometryWaiters(id, drained[id].waiters);
    }

    /** Answers the readers of every request left once `done` were stopped, in any order. */
    method DrainPending(ghost was: State, ghost stopped: set<Display>, ghost loose: seq<Reader>)
      requires Once(was.pending, was.channels, loose)
      requires DrainingSince(was, Now(), pending, pending.Keys, stopped)
      modifies this`pending, this`channels
      ensures pending == map[] && channels == Drained(was)
    {
      var drained := pending;
      pending := map[];
      var keys := drained.Keys;
      ghost var done := stopped;
      while keys != {}
        invariant pending == map[] && DrainingSince(was, Now(), drained, keys, done)
        decreases |keys|
      {
        var id :| id in keys;
        DrainOne(was, drained, keys, done, id, loose);
        keys := keys - {id};
        done := done + {id};
      }
      DrainEnd(was, Now(), drained, done, loose);
    }

    method ReapDeadHost(alive: bool, ghost loose: seq<Reader>)
      requires Once(pending, channels, loose)
      modifies this
      ensures Now() == Reaped(old(Now()), alive)
    {
      if !host || alive {
        return;
      }
      ghost var was := Now();
      ghost var stopped := StopCaptures(loose);
      host := false;
      DrainStart(was, Now(), stopped);
      DrainPending(was, stopped, loose);
    }

    method Configure(node: Node, id: Display, requested: Settings, start: Start) returns (size: Size)
      modifies this
      ensures Now() == Configured(old(Now()), node, id, requested, start)
      ensures size == CaptureSize(node, old(modes), id, requested, start)
    {
      if requested.hosted && !host {
        host := start.connects;
      }
      size := Masked(requested.size, requested.video);
      if node.owner.None? {
        var current := if id in modes then modes[id] else Size(0, 0);
        if current != size && !start.backed {
          size := current;
        }
        modes := modes[id := size];
      }
    }

    /** The first half of a start: the display's old capture and request go, and a dead host. */
    method TakeDown(id: Display, alive: bool, ghost loose: seq<Reader>) returns (node: Node, waiters: seq<Reader>)
      requires Once(pending, channels, loose) && id in nodes
      modifies this
      ensures node == Uncaptured(old(nodes)[id]) && waiters == Waiters(old(pending), id)
      ensures Now() == Reaped(old(Now()).(nodes := old(nodes) - {id}, pending := old(pending) - {id}), alive)
      ensures Once(pending, channels, waiters + loose)
    {
      node := nodes[id].(capture := None);
      nodes := nodes - {id};
      waiters := Waiters(pending, id);
      TakeOut(pending, channels, id, loose);
      pending := pending - {id};
      ReapedOnce(Now(), alive, waiters + loose);
      ReapDeadHost(alive, waiters + loose);
    }

    method StartCaptureOnDisplay(id: Display, requested: Settings, start: Start, ghost loose: seq<Reader>)
      requires Once(pending, channels, loose)
      modifies this
      ensures Now() == Started(old(Now()), id, requested, start)
    {
      if id !in nodes {
        return;
      }
      var node, waiters := TakeDown(id, start.alive, loose);
      DistinctParts(waiters, loose);
      var size := Configure(node, id, requested, start);
      InstallCapture(id, node.(capture := Some(requested.(size := size))), requested.hosted && host, start.epoch, waiters);
    }

    /** Parks the readers behind the host's request, or answers them without a host. */
    method InstallCapture(id: Display, node: Node, hosted: bool, epoch: nat, waiters: seq<Reader>)
      requires node.capture.Some? && Distinct(waiters) && forall t :: t in waiters ==> t in channels
      modifies this
      ensures Now() == Installed(old(Now()), id, node, hosted, epoch, waiters)
    {
      nodes := nodes[id := node];
      if hosted {
        pending := pending[id := Pending(epoch, node.capture.value.size, waiters)];
      } else {
        AnswerGeometryWaiters(id, waiters);
      }
    }

    /** One display of a tick's reconciliation. */
    method Settle(id: Display, ruling: Ruling, start: Start)
      requires Once(pending, channels, [])
      modifies this
      ensures Now() == Settled(old(Now()), id, ruling, start)
    {
      if id !in pending {
        return;
      }
      var hostMode: Option<Size> := None;
      if host {
        if ruling.Unanswered? {
          return;
        }
        hostMode := Resolution(pending[id].want, ruling.mode);
      }
      ghost var was := Now();
      var p := pending[id];
      TakeOut(pending, channels, id, []);
      assert p.waiters + [] == p.waiters;
      pending := pending - {id};
      if hostMode.Some? && id in nodes && nodes[id].capture.Some? {
        var settings := nodes[id].capture.value.(size := hostMode.value);
        var followed := Masked(hostMode.value, settings.video);
        if followed != p.want {
          StartedOnce(Now(), id, settings, start, p.waiters);
          StartCaptureOnDisplay(id, settings, start, p.waiters);
        }
      }
      AnswerGeometryWaiters(id, p.waiters);
    }

    /** The requests pending at a tick, settled one after another; `settled` is the order. */
    method ReconcileHostLayouts(ruling: Display -> Ruling, start: Display -> Start) returns (ghost settled: seq<Event>)
      requires Once(pending, channels, [])
      modifies this
      ensures Now() == Run(old(Now()), settled) && Once(pending, channels, [])
      ensures forall e :: e in settled ==> e.Settle? && e.ruling == ruling(e.id) && e.start == start(e.id)
      ensures Displays(settled) == old(pending).Keys && |settled| == |old(pending).Keys|
    {
      ghost var was := Now();
      settled := [];
      var ids := pending.Keys;
      while ids != {}
        invariant Once(pending, channels, []) && ids <= was.pending.Keys && Now() == Run(was, settled)
        invariant forall e :: e in settled ==> e.Settle? && e.ruling == ruling(e.id) && e.start == start(e.id)
        invariant Displays(settled) == was.pending.Keys - ids && |settled| + |ids| == |was.pending.Keys|
        decreases |ids|
      {
        var id :| id in ids;
        ghost var e := Event.Settle(id, ruling(id), start(id));
        SettledOnce(Now(), id, ruling(id), start(id));
        assert (settled + [e])[..|settled|] == settled;
        Settle(id, ruling(id), start(id));
        settled := settled + [e];
        ids := ids - {id};
      }
    }

    method CuGetInfo(t: Reader, id: Display)
      requires t !in channels
      modifies this
      ensures Now() == Asked(old(Now()), t, id)
    {
      channels := channels[t := []];
      if id in pending {
        pending := pending[id := pending[id].(waiters := pending[id].waiters + [t])];
      } else {
        AnswerGeometryWaiters(id, [t]);
      }
    }
  }

  // ----- one start, at most one restart

  /** The start events of `id` in a run. */
  function StartCount(events: seq<Event>, id: Display): nat {
    if events == [] then 0
    else
      var e := events[|events| - 1];
      StartCount(events[..|events| - 1], id) + if e.StartCapture? && e.id == id then 1 else 0
  }

  predicate RestartsOn(s: State, e: Event, id: Display) {
    e.Settle? && e.id == id && Restarts(s, id, e.ruling)
  }

  /** The restarts of `id` its rulings cause in a run from `s`. */
  ghost function RestartCount(s: State, events: seq<Event>, id: Display): nat {
    if events == [] then 0
    else
      var front := events[..|events| - 1];
      RestartCount(s, front, id) + if RestartsOn(Run(s, front), events[|events| - 1], id) then 1 else 0
  }

  /** The next ruling that announces `mode` would restart `id`. */
  function Owed(s: State, id: Display, mode: Size): nat {
    if Restarts(s, id, Ruled(Some(mode))) then 1 else 0
  }

  /**
   What a restart of `id` at the host's `mode` needs to be the last: a view's size is its own, a
   screen's target must be had or its own mode be one the host's is followed at, unless the host
   is lost to the start.
   */
  predicate Follows(s: State, id: Display, mode: Size, start: Start)
    requires id in s.nodes && s.nodes[id].capture.Some?
  {
    || s.nodes[id].owner.Some?
    || start.backed
    || (!start.alive && !start.connects)
    || ModeOf(s.nodes, s.modes, id) == mode
    || TakenAt(mode, s.nodes[id].capture.value.video, ModeOf(s.nodes, s.modes, id))
  }

  lemma StartOwes(s: State, id: Display, settings: Settings, start: Start, other: Display, mode: Size)
    requires Attached(s) && other != id
    ensures Owed(Started(s, id, settings, start), other, mode) <= Owed(s, other, mode)
  {
  }

  /** Against a host that keeps its mode a restart is the last if and only if it follows that mode. */
  lemma {:induction false} RestartIsTheLast(s: State, id: Display, mode: Size, ruling: Ruling, start: Start)
    requires Attached(s) && Restarts(s, id, ruling) && ruling.mode == Some(mode)
    ensures Restarts(Settled(s, id, ruling, start), id, Ruled(Some(mode))) <==> !Follows(s, id, mode, start)
  {
    var settings := s.nodes[id].capture.value.(size := mode);
    var taken := s.(pending := s.pending - {id});
    var next := Started(taken, id, settings, start);
    var live := ModeOf(s.nodes, s.modes, id);
    MaskedIsTakenAt(mode, settings.video);
    if TakenAt(mode, settings.video, live) {
      TakenAtOnce(mode, settings.video, live, Masked(mode, settings.video));
    }
    var want := CaptureSize(s.nodes[id], s.modes, id, settings, start);
    assert id in next.pending <==> next.host;
    assert next.host <==> start.alive || start.connects;
    assert next.host ==> next.pending[id].want == want;
    assert next.nodes[id].capture.value.video == settings.video;
  }

  /** The host keeps `mode` for `id`, announced or not, and a restart of `id` can follow it. */
  predicate Keeps(s: State, e: Event, id: Display, mode: Size) {
    e.Settle? && e.id == id ==>
      && (e.ruling.Ruled? && e.ruling.mode.Some? ==> e.ruling.mode.value == mode)
      && (Restarts(s, id, e.ruling) ==> Follows(s, id, mode, e.start))
  }

  ghost predicate AllKeep(s: State, events: seq<Event>, id: Display, mode: Size) {
    forall k :: 0 <= k < |events| ==> Keeps(Run(s, events[..k]), events[k], id, mode)
  }

  lemma StepOwes(s: State, e: Event, id: Display, mode: Size)
    requires Attached(s) && Keeps(s, e, id, mode)
    ensures Owed(After(s, e), id, mode) + (if RestartsOn(s, e, id) then 1 else 0)
         <= Owed(s, id, mode) + (if e.StartCapture? && e.id == id then 1 else 0)
  {
    match e
    case StartCapture(other, settings, start) =>
      if other != id {
        StartOwes(s, other, settings, start, id, mode);
      }
    case Settle(other, ruling, start) =>
      if Restarts(s, other, ruling) {
        if other == id {
          RestartIsTheLast(s, id, mode, ruling, start);
        } else {
          var taken := s.(pending := s.pending - {other});
          StartOwes(taken, other, s.nodes[other].capture.value.(size := ruling.mode.value), start, id, mode);
        }
      }
    case _ =>
  }

  /**
   Against a host that keeps one mode the rulings restart a display at most as often as clients
   start it, however odd the mode and whatever else happens, where its restarts can follow the mode.
   */
  lemma {:induction false} OneRestartPerStart(nodes: map<Display, Node>, modes: map<Display, Size>, events: seq<Event>, id: Display, mode: Size)
    requires AllKeep(Initial(nodes, modes), events, id, mode)
    ensures RestartCount(Initial(nodes, modes), events, id) + Owed(Run(Initial(nodes, modes), events), id, mode) <= StartCount(events, id)
  {
    if events != [] {
      var front := events[..|events| - 1];
      assert AllKeep(Initial(nodes, modes), front, id, mode) by {
        assert forall k :: 0 <= k < |front| ==> front[..k] == events[..k] && front[k] == events[k];
      }
      OneRestartPerStart(nodes, modes, front, id, mode);
      RunsAreValid(nodes, modes, front);
      StepOwes(Run(Initial(nodes, modes), front), events[|events| - 1], id, mode);
    }
  }

  /** `n` rulings of the same mode, the restarts they cause all turning out as `start`. */
  function Rulings(id: Display, mode: Size, start: Start, n: nat): (events: seq<Event>)
    ensures |events| == n
  {
    seq(n, _ => Settle(id, Ruled(Some(mode)), start))
  }

  /** A restart that does not follow the mode leaves the display where it was: due another. */
  lemma UnfollowedRestartsAgain(s: State, id: Display, mode: Size, start: Start)
    requires Attached(s) && Restarts(s, id, Ruled(Some(mode))) && !Follows(s, id, mode, start)
    ensures var next := Settled(s, id, Ruled(Some(mode)), start);
      Attached(next) && Restarts(next, id, Ruled(Some(mode))) && !Follows(next, id, mode, start)
  {
    StepAttached(s, Settle(id, Ruled(Some(mode)), start));
    RestartIsTheLast(s, id, mode, Ruled(Some(mode)), start);
    var taken := s.(pending := s.pending - {id});
    var next := Started(taken, id, s.nodes[id].capture.value.(size := mode), start);
    assert next.nodes[id].owner == s.nodes[id].owner;
    assert ModeOf(next.nodes, next.modes, id) == ModeOf(s.nodes, s.modes, id);
  }

  /** So the condition cannot be spared: without it any number of rulings are as many restarts. */
  lemma {:induction false} UnfollowedRestartsForEver(s: State, id: Display, mode: Size, start: Start, n: nat)
    requires Attached(s) && Restarts(s, id, Ruled(Some(mode))) && !Follows(s, id, mode, start)
    ensures RestartCount(s, Rulings(id, mode, start, n), id) == n
    ensures var last := Run(s, Rulings(id, mode, start, n));
      Attached(last) && Restarts(last, id, Ruled(Some(mode))) && !Follows(last, id, mode, start)
  {
    if n > 0 {
      UnfollowedRestartsForEver(s, id, mode, start, n - 1);
      assert Rulings(id, mode, start, n)[..n - 1] == Rulings(id, mode, start, n - 1);
      UnfollowedRestartsAgain(Run(s, Rulings(id, mode, start, n - 1)), id, mode, start);
    }
  }

  /**
   A screen whose new target is refused keeps its mode, asks for that, and is restarted at the
   host's again by every ruling: here one start is followed by any number of restarts.
   */
  function Refused(n: nat): (events: seq<Event>)
    ensures |events| == n + 1
  {
    var start := Start(true, true, false, 0);
    if n == 0 then [StartCapture(2, Settings(Size(800, 600), true, true), start)]
    else Refused(n - 1) + [Settle(2, Ruled(Some(Size(1280, 720))), start)]
  }

  /** Where every one of those restarts leaves it. */
  function AskingAgain(): State {
    State(map[2 := Node(None, Some(Settings(Size(1920, 1080), true, true)))], map[2 := Size(1920, 1080)], true,
          map[2 := Pending(0, Size(1920, 1080), [])], map[])
  }

  lemma RefusedOnce()
    ensures After(Initial(map[2 := Node(None, None)], map[2 := Size(1920, 1080)]),
                  StartCapture(2, Settings(Size(800, 600), true, true), Start(true, true, false, 0))) == AskingAgain()
  {
    var s := Initial(map[2 := Node(None, None)], map[2 := Size(1920, 1080)]);
    assert Reaped(s.(nodes := s.nodes - {2}, pending := s.pending - {2}), true) == s.(nodes := s.nodes - {2}, pending := s.pending - {2});
  }

  lemma RefusedAgain()
    ensures var e := Settle(2, Ruled(Some(Size(1280, 720))), Start(true, true, false, 0));
      RestartsOn(AskingAgain(), e, 2) && After(AskingAgain(), e) == AskingAgain()
  {
    var s := AskingAgain();
    var taken := s.(pending := s.pending - {2});
    var next := Started(taken, 2, Settings(Size(1280, 720), true, true), Start(true, true, false, 0));
    assert next == s;
    assert Sent(next.channels, [], Realized(next, 2)) == map[];
  }

  lemma {:induction false} RefusedTargetsRestartForEver(n: nat)
    ensures var s := Initial(map[2 := Node(None, None)], map[2 := Size(1920, 1080)]);
      StartCount(Refused(n), 2) == 1 && RestartCount(s, Refused(n), 2) == n && Run(s, Refused(n)) == AskingAgain()
  {
    if n == 0 {
      RefusedOnce();
      assert Refused(0)[..0] == [];
    } else {
      RefusedTargetsRestartForEver(n - 1);
      RefusedAgain();
      assert Refused(n)[..n] == Refused(n - 1);
    }
  }
}
