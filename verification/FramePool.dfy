/**
 The hand-off from the compositor thread to the encode thread: a free list of numbered buffers
 and one publish slot.

 Each operation holds the pool's lock from start to end, so each is one step. `PoolState` and the
 functions on it say what each does, and the class `WlFramePool` is the code. `System` puts the
 two threads beside the pool: what each holds, and what went through. The results are about every
 interleaving of their steps.
 */
module FramePool {
  import opened Options

  /** A published frame: its slot's buffer, and the buffer encoded in place of it where there is one. */
  datatype Frame<B> = Frame(id: nat, buf: B, source: Option<B>, frameId: nat)
  {
    /** The buffer the encoder reads. */
    function Reads(): B { if source.Some? then source.value else buf }
  }

  datatype PoolState<B> = PoolState(free: seq<(nat, B)>, slot: Option<Frame<B>>, stop: bool)

  /** What one look at the slot gives the encode thread. */
  datatype Look<B> = Got(frame: Frame<B>) | Stopped | Waiting

  function Numbered<B>(buffers: seq<B>): seq<(nat, B)> {
    seq(|buffers|, i requires 0 <= i < |buffers| => (i, buffers[i]))
  }

  /** `try_begin`: a buffer only while the slot is empty, the one freed last. */
  function Begun<B>(p: PoolState<B>): (PoolState<B>, Option<(nat, B)>) {
    if p.slot.Some? || p.free == [] then (p, None)
    else (p.(free := p.free[..|p.free| - 1]), Some(p.free[|p.free| - 1]))
  }

  function Published<B>(p: PoolState<B>, f: Frame<B>): PoolState<B> {
    p.(slot := Some(f))
  }

  function Returned<B>(p: PoolState<B>, id: nat, buf: B): PoolState<B> {
    p.(free := p.free + [(id, buf)])
  }

  /** One pass of `take`: the slot is looked at before the stop flag. */
  function Looked<B>(p: PoolState<B>): (PoolState<B>, Look<B>) {
    if p.slot.Some? then (p.(slot := None), Got(p.slot.value))
    else if p.stop then (p, Stopped)
    else (p, Waiting)
  }

  function ShutDown<B>(p: PoolState<B>): PoolState<B> {
    p.(stop := true)
  }

  class WlFramePool<B> {
    var free: seq<(nat, B)>
    var slot: Option<Frame<B>>
    var stop: bool

    function State(): PoolState<B>
      reads this
    {
      PoolState(free, slot, stop)
    }

    constructor Of(buffers: seq<B>)
      ensures State() == PoolState(Numbered(buffers), None, false)
    {
      free, slot, stop := Numbered(buffers), None, false;
    }

    method TryBegin() returns (reserved: Option<(nat, B)>)
      modifies this`free
      ensures (State(), reserved) == Begun(old(State()))
    {
      if slot.Some? || free == [] {
        return None;
      }
      reserved := Some(free[|free| - 1]);
      free := free[..|free| - 1];
    }

    method Publish(frame: Frame<B>)
      requires slot.None?
      modifies this`slot
      ensures State() == Published(old(State()), frame)
    {
      slot := Some(frame);
    }

    method Cancel(id: nat, buf: B)
      modifies this`free
      ensures State() == Returned(old(State()), id, buf)
    {
      free := free + [(id, buf)];
    }

    /** One turn of the loop in `take`; the thread parks and looks again where it is `Waiting`. */
    method Take() returns (look: Look<B>)
      modifies this`slot
      ensures (State(), look) == Looked(old(State()))
    {
      if slot.Some? {
        look := Got(slot.value);
        slot := None;
      } else if stop {
        look := Stopped;
      } else {
        look := Waiting;
      }
    }

    method Recycle(id: nat, buf: B)
      modifies this`free
      ensures State() == Returned(old(State()), id, buf)
    {
      free := free + [(id, buf)];
    }

    method Shutdown()
      modifies this`stop
      ensures State() == ShutDown(old(State()))
    {
      stop := true;
    }
  }

  /** Where a thread that encodes is in its loop. */
  datatype Encoder = Idle | Ended | GaveUp

  /**
   The pool with its two threads. `reserved` is the compositor's, `held` the encode thread's;
   `published` and `taken` are the frames that passed the two ends of the slot so far.
   */
  datatype System<B> = System(
    pool: PoolState<B>,
    reserved: Option<(nat, B)>,
    held: Option<Frame<B>>,
    encoder: Encoder,
    published: seq<Frame<B>>,
    taken: seq<Frame<B>>)

  /** The steps of the compositor thread, then those of the encode thread. */
  datatype Action<B> =
    | Begin
    | Publish(source: Option<B>, frameId: nat)
    | Cancel
    | Shutdown
    | Take
    | Recycle
    | GiveUp

  function Start<B>(buffers: seq<B>): System<B> {
    System(PoolState(Numbered(buffers), None, false), None, None, Idle, [], [])
  }

  /**
   What a thread's own program order allows. The compositor reserves at most one buffer at a
   time and lets go of the pool when it shuts it down; the encode thread works on one frame at
   a time. Nothing here looks at the slot.
   */
  predicate Enabled<B>(s: System<B>, a: Action<B>) {
    match a
    case Begin => s.reserved.None? && !s.pool.stop
    case Publish(_, _) => s.reserved.Some? && !s.pool.stop
    case Cancel => s.reserved.Some?
    case Shutdown => !s.pool.stop
    case Take => s.held.None? && s.encoder.Idle?
    case Recycle => s.held.Some?
    case GiveUp => s.held.None? && s.encoder.Idle?
  }

  function FrameOf<B>(s: System<B>, source: Option<B>, frameId: nat): Frame<B>
    requires s.reserved.Some?
  {
    Frame(s.reserved.value.0, s.reserved.value.1, source, frameId)
  }

  /** One step; a step its thread cannot take is none at all. */
  function Step<B>(s: System<B>, a: Action<B>): System<B> {
    if !Enabled(s, a) then s
    else
      match a
      case Begin =>
        var (pool, reserved) := Begun(s.pool);
        s.(pool := pool, reserved := reserved)
      case Publish(source, frameId) =>
        var frame := FrameOf(s, source, frameId);
        s.(pool := Published(s.pool, frame), reserved := None, published := s.published + [frame])
      case Cancel =>
        s.(pool := Returned(s.pool, s.reserved.value.0, s.reserved.value.1), reserved := None)
      case Shutdown =>
        s.(pool := ShutDown(s.pool))
      case Take =>
        var (pool, look) := Looked(s.pool);
        (match look
         case Got(frame) => s.(pool := pool, held := Some(frame), taken := s.taken + [frame])
         case Stopped => s.(encoder := Ended)
         case Waiting => s)
      case Recycle =>
        s.(pool := Returned(s.pool, s.held.value.id, s.held.value.buf), held := None)
      case GiveUp =>
        s.(encoder := GaveUp)
  }

  function After<B>(buffers: seq<B>, actions: seq<Action<B>>): System<B> {
    if actions == [] then Start(buffers)
    else Step(After(buffers, actions[..|actions| - 1]), actions[|actions| - 1])
  }

  function Carried<B>(f: Option<Frame<B>>): seq<(nat, B)> {
    if f.Some? then [(f.value.id, f.value.buf)] else []
  }

  function Kept<B>(r: Option<(nat, B)>): seq<(nat, B)> {
    if r.Some? then [r.value] else []
  }

  /** Every numbered buffer, wherever it is. */
  ghost function Everywhere<B>(s: System<B>): multiset<(nat, B)> {
    multiset(s.pool.free) + multiset(Kept(s.reserved)) + multiset(Carried(s.pool.slot)) + multiset(Carried(s.held))
  }

  function InSlot<B>(s: System<B>): seq<Frame<B>> {
    if s.pool.slot.Some? then [s.pool.slot.value] else []
  }

  /**
   A reservation means an empty slot, what was published is what was taken and the slot's frame
   after it, and the encode thread leaves of itself only once both have met.
   */
  ghost predicate InOrder<B>(s: System<B>) {
    && (s.reserved.Some? ==> s.pool.slot.None?)
    && s.published == s.taken + InSlot(s)
    && (s.encoder.Ended? ==> s.pool.stop && s.pool.slot.None?)
    && (s.held.Some? ==> s.taken != [] && s.held.value == s.taken[|s.taken| - 1])
    && (s.held.Some? ==> s.encoder.Idle?)
  }

  /** What every step of either thread keeps: the numbered buffers are only moved. */
  ghost predicate Valid<B>(buffers: seq<B>, s: System<B>) {
    && Everywhere(s) == multiset(Numbered(buffers))
    && InOrder(s)
  }

  lemma BeginKeeps<B>(s: System<B>)
    requires Enabled(s, Begin)
    ensures Everywhere(Step(s, Begin)) == Everywhere(s)
  {
    var t := Step(s, Begin);
    if t.reserved.Some? {
      assert s.pool.free == t.pool.free + [t.reserved.value];
    }
  }

  lemma PublishKeeps<B>(s: System<B>, source: Option<B>, frameId: nat)
    requires Enabled(s, Publish(source, frameId)) && s.pool.slot.None?
    ensures Everywhere(Step(s, Publish(source, frameId))) == Everywhere(s)
  {
    var t := Step(s, Publish(source, frameId));
    assert Carried(t.pool.slot) == Kept(s.reserved);
  }

  lemma ReturnKeeps<B>(free: seq<(nat, B)>, x: (nat, B))
    ensures multiset(free + [x]) == multiset(free) + multiset([x])
  {
  }

  lemma CancelKeeps<B>(s: System<B>)
    requires Enabled(s, Cancel)
    ensures Everywhere(Step(s, Cancel)) == Everywhere(s)
  {
    var t := Step(s, Cancel);
    var x := s.reserved.value;
    assert t.pool.free == s.pool.free + [(x.0, x.1)];
    ReturnKeeps(s.pool.free, x);
    assert Kept(s.reserved) == [x] && Kept(t.reserved) == [];
  }

  lemma RecycleKeeps<B>(s: System<B>)
    requires Enabled(s, Recycle)
    ensures Everywhere(Step(s, Recycle)) == Everywhere(s)
  {
    var t := Step(s, Recycle);
    var x := (s.held.value.id, s.held.value.buf);
    assert t.pool.free == s.pool.free + [x];
    ReturnKeeps(s.pool.free, x);
    assert Carried(s.held) == [x] && Carried(t.held) == [];
  }

  lemma TakeKeeps<B>(s: System<B>)
    requires Enabled(s, Take)
    ensures Everywhere(Step(s, Take)) == Everywhere(s)
  {
    var t := Step(s, Take);
    if s.pool.slot.Some? {
      assert Carried(t.held) == Carried(s.pool.slot);
      assert Carried(s.held) == Carried(t.pool.slot) == [];
    }
  }

  lemma StepKeepsBuffers<B>(s: System<B>, a: Action<B>)
    requires s.reserved.Some? ==> s.pool.slot.None?
    ensures Everywhere(Step(s, a)) == Everywhere(s)
  {
    if Enabled(s, a) {
      match a
      case Begin => BeginKeeps(s);
      case Publish(source, frameId) => PublishKeeps(s, source, frameId);
      case Cancel => CancelKeeps(s);
      case Shutdown =>
      case Take => TakeKeeps(s);
      case Recycle => RecycleKeeps(s);
      case GiveUp =>
    }
  }

  lemma StepKeepsOrder<B>(s: System<B>, a: Action<B>)
    requires InOrder(s)
    ensures InOrder(Step(s, a))
  {
    var t := Step(s, a);
    match a {
      case Publish(_, _) =>
        if Enabled(s, a) {
          assert t.published == s.taken + [] + InSlot(t);
        }
      case Take =>
        if Enabled(s, a) && s.pool.slot.Some? {
          assert t.published == t.taken + [];
        }
      case _ =>
        assert InSlot(t) == InSlot(s) && t.taken == s.taken && t.published == s.published;
    }
  }

  lemma StepKeeps<B>(buffers: seq<B>, s: System<B>, a: Action<B>)
    requires Valid(buffers, s)
    ensures Valid(buffers, Step(s, a))
  {
    StepKeepsBuffers(s, a);
    StepKeepsOrder(s, a);
  }

  lemma {:induction false} RunsAreValid<B>(buffers: seq<B>, actions: seq<Action<B>>)
    ensures Valid(buffers, After(buffers, actions))
  {
    if actions == [] {
      assert Everywhere(Start(buffers)) == multiset(Numbered(buffers));
    } else {
      RunsAreValid(buffers, actions[..|actions| - 1]);
      StepKeeps(buffers, After(buffers, actions[..|actions| - 1]), actions[|actions| - 1]);
    }
  }

  /** (a) No buffer is lost, duplicated or swapped for another, in any interleaving. */
  lemma {:induction false} BuffersAreConserved<B>(buffers: seq<B>, actions: seq<Action<B>>)
    ensures Everywhere(After(buffers, actions)) == multiset(Numbered(buffers))
    ensures |Everywhere(After(buffers, actions))| == |buffers|
  {
    RunsAreValid(buffers, actions);
  }

  /** (b) Whenever the compositor is about to publish, the slot is empty. */
  lemma {:induction false} PublishFindsSlotEmpty<B>(buffers: seq<B>, actions: seq<Action<B>>, source: Option<B>, frameId: nat)
    requires Enabled(After(buffers, actions), Publish(source, frameId))
    ensures After(buffers, actions).pool.slot.None?
  {
    RunsAreValid(buffers, actions);
  }

  /** (c) Frames are taken in the order they were published, and at most the newest is not yet. */
  lemma TakenIsPublished<B>(buffers: seq<B>, actions: seq<Action<B>>)
    ensures var s := After(buffers, actions);
            && s.taken <= s.published
            && |s.published| <= |s.taken| + 1
            && (|s.published| > |s.taken| <==> s.pool.slot.Some?)
            && (s.pool.slot.Some? ==> s.pool.slot.value == s.published[|s.taken|])
  {
    RunsAreValid(buffers, actions);
  }

  /** (d) The encode thread's `take` ends only when nothing published is left behind. */
  lemma ShutdownDropsNothing<B>(buffers: seq<B>, actions: seq<Action<B>>)
    requires After(buffers, actions).encoder.Ended?
    ensures After(buffers, actions).taken == After(buffers, actions).published
  {
    RunsAreValid(buffers, actions);
  }

  lemma DistinctPlaces<T>(a: seq<T>, b: seq<T>, all: multiset<T>, x: T)
    requires multiset(a) + multiset(b) <= all && all[x] <= 1
    requires x in a
    ensures x !in b
  {
    assert multiset(a)[x] + multiset(b)[x] <= all[x];
  }

  lemma NumberedOnce<B>(buffers: seq<B>, x: (nat, B))
    ensures multiset(Numbered(buffers))[x] <= 1
  {
    NumberedOnceUpTo(Numbered(buffers), x);
  }

  lemma {:induction false} NumberedOnceUpTo<B>(s: seq<(nat, B)>, x: (nat, B))
    requires forall i :: 0 <= i < |s| ==> s[i].0 == i
    ensures multiset(s)[x] <= 1
    ensures x in s ==> x.0 < |s|
  {
    if s != [] {
      var front := s[..|s| - 1];
      assert s == front + [s[|s| - 1]];
      NumberedOnceUpTo(front, x);
    }
  }

  /** The compositor never fills a buffer the encode thread has, or will take. */
  lemma FillingNeverSharesABuffer<B>(buffers: seq<B>, actions: seq<Action<B>>)
    ensures var s := After(buffers, actions);
            s.reserved.Some? ==>
              && s.reserved.value !in Carried(s.held)
              && s.reserved.value !in Carried(s.pool.slot)
              && s.reserved.value !in s.pool.free
  {
    RunsAreValid(buffers, actions);
    var s := After(buffers, actions);
    if s.reserved.Some? {
      NumberedOnce(buffers, s.reserved.value);
      var all := multiset(Numbered(buffers));
      assert Everywhere(s) ==
             multiset(s.pool.free) + multiset(Kept(s.reserved)) + multiset(Carried(s.pool.slot)) + multiset(Carried(s.held));
      DistinctPlaces(Kept(s.reserved), Carried(s.held), all, s.reserved.value);
      DistinctPlaces(Kept(s.reserved), Carried(s.pool.slot), all, s.reserved.value);
      DistinctPlaces(Kept(s.reserved), s.pool.free, all, s.reserved.value);
    }
  }

  // ----- what a step does, in every run

  lemma {:induction false} OneMore<B>(buffers: seq<B>, actions: seq<Action<B>>, a: Action<B>)
    ensures After(buffers, actions + [a]) == Step(After(buffers, actions), a)
  {
    assert (actions + [a])[..|actions|] == actions;
  }

  /** The compositor gets a buffer exactly where one is free and no frame waits, the one returned last. */
  lemma {:induction false} BeginExactly<B>(buffers: seq<B>, actions: seq<Action<B>>)
    requires Enabled(After(buffers, actions), Begin)
    ensures var s, t := After(buffers, actions), After(buffers, actions + [Begin]);
            if s.pool.slot.None? && s.pool.free != []
            then t.reserved.Some? && s.pool.free == t.pool.free + [t.reserved.value] && t.pool.slot.None? && t.held == s.held
            else t == s
  {
    OneMore(buffers, actions, Begin);
  }

  /** With two buffers there is always one where no frame waits: the encode thread never holds both. */
  lemma {:induction false} BeginNeverStarves<B>(buffers: seq<B>, actions: seq<Action<B>>)
    requires |buffers| >= 2 && Enabled(After(buffers, actions), Begin) && After(buffers, actions).pool.slot.None?
    ensures After(buffers, actions + [Begin]).reserved.Some?
  {
    var s := After(buffers, actions);
    BuffersAreConserved(buffers, actions);
    assert |Everywhere(s)| == |s.pool.free| + |Carried(s.held)|;
    BeginExactly(buffers, actions);
  }

  /** A publish puts the reserved buffer in the slot, with its source and number, where nothing was lost. */
  lemma {:induction false} PublishExactly<B>(buffers: seq<B>, actions: seq<Action<B>>, source: Option<B>, frameId: nat)
    requires Enabled(After(buffers, actions), Publish(source, frameId))
    ensures var s, t := After(buffers, actions), After(buffers, actions + [Publish(source, frameId)]);
            && t.pool.slot == Some(Frame(s.reserved.value.0, s.reserved.value.1, source, frameId))
            && t.reserved.None? && t.published == s.published + [t.pool.slot.value] && t.pool.free == s.pool.free
  {
    OneMore(buffers, actions, Publish(source, frameId));
  }

  /** The encode thread gets the frame that waits; ends where none does and the pool is shut down; else waits. */
  lemma {:induction false} TakeExactly<B>(buffers: seq<B>, actions: seq<Action<B>>)
    requires Enabled(After(buffers, actions), Take)
    ensures var s, t := After(buffers, actions), After(buffers, actions + [Take]);
            if s.pool.slot.Some? then t.held == s.pool.slot && t.pool.slot.None? && t.taken == s.taken + [s.pool.slot.value]
            else if s.pool.stop then t.encoder.Ended? && t.held.None?
            else t == s
  {
    OneMore(buffers, actions, Take);
  }

  /** A buffer returned, cancelled or recycled, is the next one given out. */
  lemma {:induction false} ReturnedComesNext<B>(buffers: seq<B>, actions: seq<Action<B>>, a: Action<B>)
    requires a.Cancel? || a.Recycle?
    requires Enabled(After(buffers, actions), a) && Enabled(After(buffers, actions + [a]), Begin)
    requires After(buffers, actions).pool.slot.None?
    ensures var s, t := After(buffers, actions), After(buffers, actions + [a] + [Begin]);
            t.reserved == if a.Cancel? then s.reserved else Some((s.held.value.id, s.held.value.buf))
  {
    OneMore(buffers, actions, a);
    OneMore(buffers, actions + [a], Begin);
  }

  /** A shutdown changes nothing but that. */
  lemma {:induction false} ShutdownExactly<B>(buffers: seq<B>, actions: seq<Action<B>>)
    requires Enabled(After(buffers, actions), Shutdown)
    ensures var s, t := After(buffers, actions), After(buffers, actions + [Shutdown]);
            t.pool.stop && t == s.(pool := t.pool) && t.pool.free == s.pool.free && t.pool.slot == s.pool.slot
  {
    OneMore(buffers, actions, Shutdown);
  }

  /** The first frame's way, state by state. */
  lemma {:induction false} FirstFrame<B>(buffers: seq<B>, source: Option<B>, frameId: nat)
    requires buffers != []
    ensures var last := |buffers| - 1;
            var free, frame := Numbered(buffers)[..last], Frame(last, buffers[last], source, frameId);
            var begun := System(PoolState(free, None, false), Some((last, buffers[last])), None, Idle, [], []);
            var published := System(PoolState(free, Some(frame), false), None, None, Idle, [frame], []);
            var taken := System(PoolState(free, None, false), None, Some(frame), Idle, [frame], [frame]);
            && Step(Start(buffers), Begin) == begun
            && Step(begun, Publish(source, frameId)) == published
            && Step(published, Take) == taken
            && Step(taken, Recycle) == taken.(pool := PoolState(Numbered(buffers), None, false), held := None)
  {
    var last := |buffers| - 1;
    assert Numbered(buffers) == Numbered(buffers)[..last] + [(last, buffers[last])];
  }

  /** A frame goes round: begun, published, taken as it was published, and its buffer free again. */
  lemma {:induction false} FrameGoesRound<B>(buffers: seq<B>, source: Option<B>, frameId: nat)
    requires buffers != []
    ensures var last := |buffers| - 1;
            var taken := After(buffers, [Begin, Publish(source, frameId), Take]);
            && taken.taken == [Frame(last, buffers[last], source, frameId)] && taken.held == Some(taken.taken[0])
            && |taken.pool.free| == last
            && After(buffers, [Begin, Publish(source, frameId), Take, Recycle]).pool == PoolState(Numbered(buffers), None, false)
  {
    FirstFrame(buffers, source, frameId);
    var actions := [Begin, Publish(source, frameId), Take, Recycle];
    assert actions[..0] == [] && actions[..1] == [Begin] && actions[..2] == [Begin, Publish(source, frameId)];
    assert actions[..3] == [Begin, Publish(source, frameId), Take] && actions[..4] == actions;
    PrefixStep(buffers, actions, 0);
    PrefixStep(buffers, actions, 1);
    PrefixStep(buffers, actions, 2);
    PrefixStep(buffers, actions, 3);
  }

  lemma PrefixStep<B>(buffers: seq<B>, actions: seq<Action<B>>, k: nat)
    requires k < |actions|
    ensures After(buffers, actions[..k + 1]) == Step(After(buffers, actions[..k]), actions[k])
  {
    assert actions[..k + 1][..k] == actions[..k];
  }
}
