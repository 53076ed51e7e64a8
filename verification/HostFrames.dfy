/**
 A host compositor's buffers on their way through a zero-copy session: adopted as the retained
 frame, published to the encode thread in place, put aside when replaced, and handed back once the
 encode thread is done with every frame that reads them.

 `HostState` holds the compositor thread's side, the functions on it say what each of its
 operations does, and the class `HostCapture` is the code. `Pipeline` joins it to the pool and
 the encode thread of `FramePool`, and the results are about every interleaving of the two.
 */
module HostFrames {
  import opened Options
  import FP = FramePool

  /** A GPU buffer: the host's, one of the pool's render targets, or a still copy of the capture's own. */
  datatype Buffer = Host(n: nat) | Target(n: nat) | Still(n: nat)

  /** A frame kept as the display's content; `detached` where it is the capture's own copy. */
  datatype HostFrame = HostFrame(buffer: Buffer, detached: bool)

  /**
   `inflight` are the replaced frames with the number of the last published frame that reads
   each, `retainedUse` that number for the retained frame (0: none reads it). `host` are the
   buffers in the host's own hands, and `still` the copy `detach` draws into.
   */
  datatype HostState = HostState(
    retained: Option<HostFrame>,
    retainedUse: nat,
    inflight: seq<(nat, HostFrame)>,
    published: nat,
    still: Option<Buffer>,
    host: set<Buffer>)

  function Kept(inflight: seq<(nat, HostFrame)>, done: nat): seq<(nat, HostFrame)> {
    if inflight == [] then []
    else (if inflight[0].0 <= done then [] else [inflight[0]]) + Kept(inflight[1..], done)
  }

  /** The host's buffers among the frames that are done; a detached copy is none of the host's. */
  function Freed(inflight: seq<(nat, HostFrame)>, done: nat): set<Buffer> {
    if inflight == [] then {}
    else (if inflight[0].0 <= done && !inflight[0].1.detached then {inflight[0].1.buffer} else {}) + Freed(inflight[1..], done)
  }

  /** `release_host_inflight`: every frame whose last reader is done goes back. */
  function Released(s: HostState, done: nat): HostState {
    s.(inflight := Kept(s.inflight, done), host := s.host + Freed(s.inflight, done))
  }

  /** `retain_host_frame` under a zero-copy session. */
  function Retained(s: HostState, frame: HostFrame, done: nat): HostState {
    var inflight := if s.retained.Some? then s.inflight + [(s.retainedUse, s.retained.value)] else s.inflight;
    Released(s.(retained := Some(frame), retainedUse := 0, inflight := inflight), done)
  }

  /** `published += 1`, and the retained frame's use where the frame reads it itself. */
  function Counted(s: HostState, readsRetained: bool): HostState {
    s.(published := s.published + 1, retainedUse := if readsRetained then s.published + 1 else s.retainedUse)
  }

  predicate AnyDetached(inflight: seq<(nat, HostFrame)>) {
    exists e :: e in inflight && e.1.detached
  }

  /**
   `detach_retained_gpu`: how its renderer calls turn out. `fits` is whether the still copy has
   the frame's size, `alloc` the buffer allocated where it has not, `drawn` whether the copy was
   drawn and its fence reached.
   */
  datatype Copying = Copying(available: bool, fits: bool, alloc: Option<Buffer>, drawn: bool)

  /** Whether a still copy is drawn at all, and into which buffer. */
  function StillDrawn(s: HostState, c: Copying): Option<Buffer> {
    if AnyDetached(s.inflight) || s.retained.None? || s.retained.value.detached || !c.available then None
    else if s.still.Some? && c.fits then s.still
    else c.alloc
  }

  function Detached(s: HostState, c: Copying, done: nat): HostState {
    if AnyDetached(s.inflight) || s.retained.None? || s.retained.value.detached || !c.available then s
    else
      var target := StillDrawn(s, c);
      var s := s.(still := target);
      if target.None? || !c.drawn then s
      else Retained(s, HostFrame(target.value, true), done)
  }

  /** One entry kept in `held`, or its buffer given to `host`. */
  lemma ReleaseStep(inflight: seq<(nat, HostFrame)>, i: nat, done: nat, held: seq<(nat, HostFrame)>, host: set<Buffer>)
    requires i < |inflight|
    ensures held + Kept(inflight[i..], done) ==
      (if inflight[i].0 <= done then held else held + [inflight[i]]) + Kept(inflight[i + 1..], done)
    ensures host + Freed(inflight[i..], done) ==
      (if inflight[i].0 <= done && !inflight[i].1.detached then host + {inflight[i].1.buffer} else host) + Freed(inflight[i + 1..], done)
  {
    assert inflight[i..][1..] == inflight[i + 1..];
  }

  class HostCapture {
    var retained: Option<HostFrame>
    var retainedUse: nat
    var inflight: seq<(nat, HostFrame)>
    var published: nat
    var still: Option<Buffer>
    var host: set<Buffer>

    function State(): HostState
      reads this
    {
      HostState(retained, retainedUse, inflight, published, still, host)
    }

    /** `done` is the encode thread's counter as read at the call. */
    method ReleaseHostInflight(done: nat)
      modifies this`inflight, this`host
      ensures State() == Released(old(State()), done)
    {
      var held: seq<(nat, HostFrame)> := [];
      var i := 0;
      while i < |inflight|
        invariant 0 <= i <= |inflight|
        invariant inflight == old(inflight)
        invariant held + Kept(inflight[i..], done) == Kept(inflight, done)
        invariant host + Freed(inflight[i..], done) == old(host) + Freed(inflight, done)
      {
        var (lastUse, frame) := inflight[i];
        ReleaseStep(inflight, i, done, held, host);
        if lastUse <= done {
          if !frame.detached {
            host := host + {frame.buffer};
          }
        } else {
          held := held + [inflight[i]];
        }
        i := i + 1;
      }
      inflight := held;
    }

    method RetainHostFrame(frame: HostFrame, done: nat)
      modifies this`retained, this`retainedUse, this`inflight, this`host
      ensures State() == Retained(old(State()), frame, done)
    {
      if retained.Some? {
        inflight := inflight + [(retainedUse, retained.value)];
      }
      retained := Some(frame);
      retainedUse := 0;
      ReleaseHostInflight(done);
    }

    method DetachRetainedGpu(c: Copying, done: nat) returns (drawnInto: Option<Buffer>)
      modifies this`retained, this`retainedUse, this`inflight, this`host, this`still
      ensures drawnInto == StillDrawn(old(State()), c)
      ensures State() == Detached(old(State()), c, done)
    {
      if exists e :: e in inflight && e.1.detached {
        return None;
      }
      if retained.None? || retained.value.detached || !c.available {
        return None;
      }
      if still.None? || !c.fits {
        still := c.alloc;
      }
      if still.None? {
        return None;
      }
      drawnInto := still;
      if c.drawn {
        RetainHostFrame(HostFrame(still.value, true), done);
      }
    }

    method CountPublished(readsRetained: bool)
      modifies this`published, this`retainedUse
      ensures State() == Counted(old(State()), readsRetained)
    {
      published := published + 1;
      if readsRetained {
        retainedUse := published;
      }
    }
  }

  /**
   Both threads and the host. `toCount` is set between the encode thread's recycling of a frame
   and its count, and `recycled` is that count. `stills` are the still buffers ever allocated.
   */
  datatype Pipeline = Pipeline(
    sys: FP.System<Buffer>,
    capture: HostState,
    recycled: nat,
    toCount: bool,
    stills: set<Buffer>)

  /** The compositor thread's steps, then the encode thread's. */
  datatype Action =
    | Adopt(buffer: Buffer)
    | Release
    | Detach(copying: Copying)
    | Begin
    | Cancel
    | PublishRetained(frameId: nat)
    | PublishComposite(frameId: nat)
    | Take
    | Recycle
    | Count
    | GiveUp

  /**
   What the program order of each thread and the host's own contract allow: the host only delivers
   a buffer it has, an allocation is a new buffer, and a frame that reads the retained one is
   published only while there is one.
   */
  predicate Enabled(p: Pipeline, a: Action) {
    match a
    case Adopt(b) => b.Host? && b in p.capture.host
    case Release => true
    case Detach(c) => c.alloc.Some? ==> c.alloc.value.Still? && c.alloc.value !in p.stills
    case Begin => FP.Enabled(p.sys, FP.Begin)
    case Cancel => FP.Enabled(p.sys, FP.Cancel)
    case PublishRetained(id) => FP.Enabled(p.sys, FP.Publish(None, id)) && p.capture.retained.Some?
    case PublishComposite(id) => FP.Enabled(p.sys, FP.Publish(None, id))
    case Take => FP.Enabled(p.sys, FP.Take) && !p.toCount
    case Recycle => FP.Enabled(p.sys, FP.Recycle) && !p.toCount
    case Count => p.toCount
    case GiveUp => FP.Enabled(p.sys, FP.GiveUp)
  }

  function Step(p: Pipeline, a: Action): Pipeline {
    if !Enabled(p, a) then p
    else
      match a
      case Adopt(b) =>
        var capture := p.capture.(host := p.capture.host - {b});
        p.(capture := Retained(capture, HostFrame(b, false), p.recycled))
      case Release => p.(capture := Released(p.capture, p.recycled))
      case Detach(c) =>
        p.(capture := Detached(p.capture, c, p.recycled),
           stills := p.stills + if c.alloc.Some? then {c.alloc.value} else {})
      case Begin => p.(sys := FP.Step(p.sys, FP.Begin))
      case Cancel => p.(sys := FP.Step(p.sys, FP.Cancel))
      case PublishRetained(id) =>
        p.(sys := FP.Step(p.sys, FP.Publish(Some(p.capture.retained.value.buffer), id)),
           capture := Counted(p.capture, true))
      case PublishComposite(id) =>
        p.(sys := FP.Step(p.sys, FP.Publish(None, id)), capture := Counted(p.capture, false))
      case Take => p.(sys := FP.Step(p.sys, FP.Take))
      case Recycle => p.(sys := FP.Step(p.sys, FP.Recycle), toCount := true)
      case Count => p.(recycled := p.recycled + 1, toCount := false)
      case GiveUp => p.(sys := FP.Step(p.sys, FP.GiveUp))
  }

  /**
   A new session: its render targets, and what the host has not been given back since the last.
   A capture's restart leaves the display's content retained, as the host delivered it or as the
   earlier capture's own copy.
   */
  function Start(targets: nat, host: set<Buffer>, retained: Option<HostFrame>): Pipeline {
    Pipeline(
      FP.Start(seq(targets, i requires 0 <= i < targets => Target(i))),
      HostState(retained, 0, [], 0, None, host), 0, false,
      if retained.Some? && retained.value.detached then {retained.value.buffer} else {})
  }

  /** The host has buffers of its own, and what is retained is one it has not, or a copy. */
  predicate StartsWith(host: set<Buffer>, retained: Option<HostFrame>) {
    && (forall b :: b in host ==> b.Host?)
    && (retained.Some? ==>
          if retained.value.detached then retained.value.buffer.Still?
          else retained.value.buffer.Host? && retained.value.buffer !in host)
  }

  function After(targets: nat, host: set<Buffer>, retained: Option<HostFrame>, actions: seq<Action>): Pipeline {
    if actions == [] then Start(targets, host, retained)
    else Step(After(targets, host, retained, actions[..|actions| - 1]), actions[|actions| - 1])
  }

  /** Whether published frame number `k` (from 1) is not counted as done yet. */
  predicate Pending(p: Pipeline, k: nat) {
    p.recycled < k <= |p.sys.published|
  }

  function ReadBy(p: Pipeline, k: nat): Buffer
    requires 0 < k <= |p.sys.published|
  {
    p.sys.published[k - 1].Reads()
  }

  /** The frames the capture keeps, the retained one last, each with its last use. */
  function Uses(c: HostState): seq<(nat, HostFrame)> {
    c.inflight + if c.retained.Some? then [(c.retainedUse, c.retained.value)] else []
  }

  ghost predicate Covered(c: HostState, b: Buffer, k: nat) {
    exists e :: e in Uses(c) && e.1.buffer == b && e.0 >= k
  }

  predicate Distinct(uses: seq<(nat, HostFrame)>) {
    uses == [] || (Distinct(uses[1..]) && forall e :: e in uses[1..] ==> e.1.buffer != uses[0].1.buffer)
  }

  /** Kept frames are each in a buffer of their own, the host's unless detached. */
  ghost predicate Separate(c: HostState) {
    && Distinct(Uses(c))
    && (forall e :: e in Uses(c) ==> e.1.buffer !in c.host)
    && (forall e :: e in Uses(c) ==> if e.1.detached then e.1.buffer.Still? else e.1.buffer.Host?)
    && (forall b :: b in c.host ==> b.Host?)
  }

  /** A frame is counted as used by a published frame that does read it, and by none else. */
  ghost predicate Honest(p: Pipeline) {
    forall e :: e in Uses(p.capture) && e.0 > 0 ==> e.0 <= |p.sys.published| && ReadBy(p, e.0) == e.1.buffer
  }

  /** Every frame not done reads a render target, or a frame the capture still counts as used by it. */
  ghost predicate Safe(p: Pipeline) {
    forall k: nat :: Pending(p, k) ==> ReadBy(p, k).Target? || Covered(p.capture, ReadBy(p, k), k)
  }

  /** Render targets come from the pool and still buffers from the capture's own allocations. */
  ghost predicate Sorted(p: Pipeline) {
    && (forall x :: x in FP.Everywhere(p.sys) ==> x.1.Target?)
    && (forall e :: e in Uses(p.capture) && e.1.detached ==> e.1.buffer in p.stills)
    && (forall b :: b in p.stills ==> b.Still?)
    && (p.capture.still.Some? ==> p.capture.still.value in p.stills)
  }

  /** What every step of either thread keeps. */
  ghost predicate Valid(p: Pipeline) {
    && FP.InOrder(p.sys)
    && p.capture.published == |p.sys.published|
    && |p.sys.taken| == p.recycled + (if p.sys.held.Some? || p.toCount then 1 else 0)
    && !(p.sys.held.Some? && p.toCount)
    && Separate(p.capture)
    && Honest(p)
    && Safe(p)
    && Sorted(p)
  }

  lemma {:induction false} KeptMember(uses: seq<(nat, HostFrame)>, done: nat, e: (nat, HostFrame))
    ensures e in Kept(uses, done) <==> e in uses && e.0 > done
  {
    if uses != [] {
      KeptMember(uses[1..], done, e);
      assert uses == [uses[0]] + uses[1..];
    }
  }

  lemma {:induction false} KeptDistinct(uses: seq<(nat, HostFrame)>, done: nat)
    requires Distinct(uses)
    ensures Distinct(Kept(uses, done))
  {
    if uses != [] {
      KeptDistinct(uses[1..], done);
      forall e {
        KeptMember(uses[1..], done, e);
      }
      var kept := Kept(uses[1..], done);
      if uses[0].0 > done {
        assert Kept(uses, done)[0] == uses[0] && Kept(uses, done)[1..] == kept;
      } else {
        assert Kept(uses, done) == kept;
      }
    }
  }

  lemma {:induction false} FreedMember(uses: seq<(nat, HostFrame)>, done: nat, b: Buffer)
    ensures b in Freed(uses, done) <==> exists e :: e in uses && e.0 <= done && !e.1.detached && e.1.buffer == b
  {
    if uses != [] {
      FreedMember(uses[1..], done, b);
      assert uses == [uses[0]] + uses[1..];
      assert forall e :: e in uses <==> e == uses[0] || e in uses[1..];
    }
  }

  lemma {:induction false} DistinctSnoc(uses: seq<(nat, HostFrame)>, x: (nat, HostFrame))
    requires Distinct(uses) && forall e :: e in uses ==> e.1.buffer != x.1.buffer
    ensures Distinct(uses + [x])
  {
    if uses != [] {
      DistinctSnoc(uses[1..], x);
      assert (uses + [x])[1..] == uses[1..] + [x];
    }
  }

  lemma {:induction false} DistinctPrefix(uses: seq<(nat, HostFrame)>, x: (nat, HostFrame))
    requires Distinct(uses + [x])
    ensures Distinct(uses) && forall e :: e in uses ==> e.1.buffer != x.1.buffer
  {
    if uses != [] {
      assert (uses + [x])[1..] == uses[1..] + [x];
      assert x in uses[1..] + [x];
      DistinctPrefix(uses[1..], x);
    }
  }

  lemma {:induction false} SameBufferSameUse(uses: seq<(nat, HostFrame)>, d: (nat, HostFrame), e: (nat, HostFrame))
    requires Distinct(uses) && d in uses && e in uses && d.1.buffer == e.1.buffer
    ensures d == e
  {
    if d != uses[0] && e != uses[0] {
      SameBufferSameUse(uses[1..], d, e);
    }
  }

  /** The frames kept after a release: those whose last use is not done. */
  lemma ReleasedUses(c: HostState, done: nat)
    requires Separate(c)
    ensures Separate(Released(c, done))
    ensures forall e :: e in Uses(c) && e.0 > done ==> e in Uses(Released(c, done))
    ensures forall e :: e in Uses(Released(c, done)) ==> e in Uses(c)
  {
    var d := Released(c, done);
    var tail := if c.retained.Some? then [(c.retainedUse, c.retained.value)] else [];
    assert Uses(c) == c.inflight + tail && Uses(d) == d.inflight + tail;
    forall e {
      KeptMember(c.inflight, done, e);
    }
    if tail == [] {
      assert Uses(c) == c.inflight && Uses(d) == d.inflight;
      KeptDistinct(c.inflight, done);
    } else {
      DistinctPrefix(c.inflight, tail[0]);
      KeptDistinct(c.inflight, done);
      DistinctSnoc(d.inflight, tail[0]);
    }
    forall e | e in Uses(d) ensures e.1.buffer !in d.host {
      FreedMember(c.inflight, done, e.1.buffer);
      if x :| x in c.inflight && x.0 <= done && !x.1.detached && x.1.buffer == e.1.buffer {
        SameBufferSameUse(Uses(c), x, e);
      }
    }
    forall b | b in d.host ensures b.Host? {
      FreedMember(c.inflight, done, b);
    }
  }

  lemma RetainedUses(c: HostState, f: HostFrame, done: nat)
    requires Separate(c) && f.buffer !in c.host
    requires if f.detached then f.buffer.Still? else f.buffer.Host?
    requires forall e :: e in Uses(c) ==> e.1.buffer != f.buffer
    ensures Separate(Retained(c, f, done))
    ensures forall e :: e in Uses(c) && e.0 > done ==> e in Uses(Retained(c, f, done))
    ensures forall e :: e in Uses(Retained(c, f, done)) ==> e == (0, f) || e in Uses(c)
  {
    var swapped := c.(retained := Some(f), retainedUse := 0, inflight := Uses(c));
    assert c.retained.None? ==> Uses(c) == c.inflight;
    DistinctSnoc(Uses(c), (0, f));
    assert Uses(swapped) == Uses(c) + [(0, f)];
    ReleasedUses(swapped, done);
  }

  /** Steps of the compositor that only change what the capture keeps. */
  lemma CaptureKeeps(p: Pipeline, q: Pipeline)
    requires Valid(p) && Separate(q.capture)
    requires q == p.(capture := q.capture, stills := q.stills) && q.capture.published == p.capture.published
    requires forall e :: e in Uses(p.capture) && e.0 > p.recycled ==> e in Uses(q.capture)
    requires forall e :: e in Uses(q.capture) && e.0 > 0 ==> e in Uses(p.capture)
    requires Sorted(q)
    ensures Valid(q)
  {
    forall k: nat | Pending(q, k) && !ReadBy(q, k).Target?
      ensures Covered(q.capture, ReadBy(q, k), k)
    {
      assert Pending(p, k) && Covered(p.capture, ReadBy(p, k), k);
    }
  }

  lemma AdoptKeeps(p: Pipeline, b: Buffer)
    requires Valid(p) && Enabled(p, Adopt(b))
    ensures Valid(Step(p, Adopt(b)))
  {
    var taken := p.capture.(host := p.capture.host - {b});
    assert Uses(taken) == Uses(p.capture);
    RetainedUses(taken, HostFrame(b, false), p.recycled);
    CaptureKeeps(p, Step(p, Adopt(b)));
  }

  lemma ReleaseKeeps(p: Pipeline)
    requires Valid(p)
    ensures Valid(Step(p, Release))
  {
    ReleasedUses(p.capture, p.recycled);
    CaptureKeeps(p, Step(p, Release));
  }

  /** No kept frame is in a still copy where one may be drawn. */
  lemma DrawnStillIsFree(p: Pipeline, c: Copying)
    requires Valid(p) && Enabled(p, Detach(c)) && StillDrawn(p.capture, c).Some?
    ensures StillDrawn(p.capture, c).value.Still?
    ensures forall e :: e in Uses(p.capture) ==> e.1.buffer.Host?
  {
  }

  lemma DetachKeeps(p: Pipeline, c: Copying)
    requires Valid(p) && Enabled(p, Detach(c))
    ensures Valid(Step(p, Detach(c)))
  {
    var q := Step(p, Detach(c));
    var target := StillDrawn(p.capture, c);
    var kept := p.capture.(still := target);
    if target.Some? && c.drawn {
      DrawnStillIsFree(p, c);
      assert Uses(kept) == Uses(p.capture);
      RetainedUses(kept, HostFrame(target.value, true), p.recycled);
    } else {
      assert Uses(q.capture) == Uses(p.capture);
    }
    CaptureKeeps(p, q);
  }

  /** Counting a frame on the retained one moves only that entry's use. */
  lemma CountedUses(c: HostState, readsRetained: bool)
    requires Separate(c) && (readsRetained ==> c.retained.Some?)
    ensures Separate(Counted(c, readsRetained))
    ensures forall e :: e in Uses(c) ==>
              e in Uses(Counted(c, readsRetained)) ||
              (readsRetained && (c.published + 1, e.1) in Uses(Counted(c, readsRetained)))
    ensures forall e :: e in Uses(Counted(c, readsRetained)) ==>
              e in Uses(c) || (readsRetained && e == (c.published + 1, c.retained.value))
    ensures readsRetained ==> (c.published + 1, c.retained.value) in Uses(Counted(c, readsRetained))
  {
    var d := Counted(c, readsRetained);
    if readsRetained {
      var used, now := (c.retainedUse, c.retained.value), (c.published + 1, c.retained.value);
      assert Uses(c) == c.inflight + [used] && Uses(d) == c.inflight + [now];
      DistinctPrefix(c.inflight, used);
      DistinctSnoc(c.inflight, now);
      assert used in Uses(c);
    } else {
      assert Uses(d) == Uses(c);
    }
  }

  /** `q` is `p` with one frame more published, which reads its own target or the retained frame. */
  ghost predicate PublishedOne(p: Pipeline, q: Pipeline, retained: bool) {
    && (retained ==> p.capture.retained.Some?)
    && q.recycled == p.recycled && q.capture == Counted(p.capture, retained)
    && |q.sys.published| == |p.sys.published| + 1 && q.sys.published[..|p.sys.published|] == p.sys.published
    && var b := q.sys.published[|p.sys.published|].Reads();
       if retained then b == p.capture.retained.value.buffer else b.Target?
  }

  lemma PublishedBefore(p: Pipeline, q: Pipeline, retained: bool)
    requires PublishedOne(p, q, retained)
    ensures forall k: nat :: 0 < k <= |p.sys.published| ==> ReadBy(q, k) == ReadBy(p, k)
  {
    forall k: nat | 0 < k <= |p.sys.published| ensures ReadBy(q, k) == ReadBy(p, k) {
      assert q.sys.published[..|p.sys.published|][k - 1] == q.sys.published[k - 1];
    }
  }

  lemma HonestAfterPublish(p: Pipeline, q: Pipeline, retained: bool)
    requires Valid(p) && PublishedOne(p, q, retained)
    ensures Honest(q) && Separate(q.capture)
  {
    CountedUses(p.capture, retained);
    PublishedBefore(p, q, retained);
  }

  /** Counting a frame loses none of the earlier ones. */
  lemma StillCovered(c: HostState, retained: bool, b: Buffer, k: nat)
    requires Separate(c) && (retained ==> c.retained.Some?) && Covered(c, b, k) && k <= c.published
    ensures Covered(Counted(c, retained), b, k)
  {
    CountedUses(c, retained);
    var e :| e in Uses(c) && e.1.buffer == b && e.0 >= k;
    assert e in Uses(Counted(c, retained)) || (c.published + 1, e.1) in Uses(Counted(c, retained));
  }

  /** A published frame is safe where it reads its own target, or is counted on the retained one. */
  lemma SafeAfterPublish(p: Pipeline, q: Pipeline, retained: bool)
    requires Valid(p) && PublishedOne(p, q, retained)
    ensures Safe(q) && Honest(q) && Separate(q.capture)
  {
    HonestAfterPublish(p, q, retained);
    PublishedBefore(p, q, retained);
    forall k: nat | Pending(q, k) && !ReadBy(q, k).Target?
      ensures Covered(q.capture, ReadBy(q, k), k)
    {
      if k <= |p.sys.published| {
        assert Pending(p, k);
        StillCovered(p.capture, retained, ReadBy(p, k), k);
      } else {
        CountedUses(p.capture, retained);
        assert (p.capture.published + 1, p.capture.retained.value) in Uses(q.capture);
      }
    }
  }

  lemma PublishStep(p: Pipeline, source: Option<Buffer>, frameId: nat)
    requires Valid(p) && FP.Enabled(p.sys, FP.Publish(source, frameId))
    ensures var t := FP.Step(p.sys, FP.Publish(source, frameId));
            && FP.InOrder(t) && FP.Everywhere(t) == FP.Everywhere(p.sys)
            && t.published == p.sys.published + [FP.FrameOf(p.sys, source, frameId)]
            && t.taken == p.sys.taken && t.held == p.sys.held
            && FP.FrameOf(p.sys, None, frameId).Reads().Target?
  {
    FP.StepKeepsOrder(p.sys, FP.Publish(source, frameId));
    FP.StepKeepsBuffers(p.sys, FP.Publish(source, frameId));
    assert p.sys.reserved.value in FP.Everywhere(p.sys);
  }

  lemma PublishRetainedKeeps(p: Pipeline, frameId: nat)
    requires Valid(p) && Enabled(p, PublishRetained(frameId))
    ensures Valid(Step(p, PublishRetained(frameId)))
  {
    var q := Step(p, PublishRetained(frameId));
    PublishStep(p, Some(p.capture.retained.value.buffer), frameId);
    SafeAfterPublish(p, q, true);
    CountedUses(p.capture, true);
    assert (p.capture.retainedUse, p.capture.retained.value) in Uses(p.capture);
  }

  lemma PublishCompositeKeeps(p: Pipeline, frameId: nat)
    requires Valid(p) && Enabled(p, PublishComposite(frameId))
    ensures Valid(Step(p, PublishComposite(frameId)))
  {
    var q := Step(p, PublishComposite(frameId));
    PublishStep(p, None, frameId);
    SafeAfterPublish(p, q, false);
    CountedUses(p.capture, false);
  }

  /** The pool's own step in a step that leaves the capture alone. */
  function PoolStep(a: Action): Option<FP.Action<Buffer>> {
    match a
    case Begin => Some(FP.Begin)
    case Cancel => Some(FP.Cancel)
    case Take => Some(FP.Take)
    case Recycle => Some(FP.Recycle)
    case GiveUp => Some(FP.GiveUp)
    case _ => None
  }

  /** What such a step leaves of the frames on their way. */
  predicate SameFrames(s: FP.System<Buffer>, t: FP.System<Buffer>, a: FP.Action<Buffer>) {
    && t.published == s.published
    && (if a.Take? then |t.taken| == |s.taken| + if t.held.Some? then 1 else 0 else t.taken == s.taken)
    && (a.Recycle? ==> t.held.None?)
    && (a.Begin? || a.Cancel? || a.GiveUp? ==> t.held == s.held)
  }

  lemma CompositorStepFrames(s: FP.System<Buffer>, a: FP.Action<Buffer>)
    requires FP.Enabled(s, a) && (a.Begin? || a.Cancel?)
    ensures SameFrames(s, FP.Step(s, a), a)
  {
  }

  lemma TakeFrames(s: FP.System<Buffer>)
    requires FP.Enabled(s, FP.Take)
    ensures SameFrames(s, FP.Step(s, FP.Take), FP.Take)
  {
  }

  lemma EncoderStepFrames(s: FP.System<Buffer>, a: FP.Action<Buffer>)
    requires FP.Enabled(s, a) && (a.Recycle? || a.GiveUp?)
    ensures SameFrames(s, FP.Step(s, a), a)
  {
  }

  lemma PoolStepFacts(p: Pipeline, a: FP.Action<Buffer>)
    requires Valid(p) && FP.Enabled(p.sys, a) && !a.Publish? && !a.Shutdown?
    ensures var t := FP.Step(p.sys, a);
            FP.InOrder(t) && FP.Everywhere(t) == FP.Everywhere(p.sys) && SameFrames(p.sys, t, a)
  {
    FP.StepKeepsOrder(p.sys, a);
    FP.StepKeepsBuffers(p.sys, a);
    match a
    case Take => TakeFrames(p.sys);
    case Begin => CompositorStepFrames(p.sys, a);
    case Cancel => CompositorStepFrames(p.sys, a);
    case _ => EncoderStepFrames(p.sys, a);
  }

  /** A step that publishes, counts and keeps nothing new leaves the capture's account right. */
  lemma AccountUnmoved(p: Pipeline, q: Pipeline)
    requires Safe(p) && Honest(p)
    requires q.capture == p.capture && q.sys.published == p.sys.published && q.recycled >= p.recycled
    ensures Safe(q) && Honest(q)
  {
    forall k: nat | Pending(q, k) && !ReadBy(q, k).Target?
      ensures Covered(q.capture, ReadBy(q, k), k)
    {
      assert Pending(p, k) && ReadBy(q, k) == ReadBy(p, k);
    }
    forall e | e in Uses(q.capture) && e.0 > 0
      ensures e.0 <= |q.sys.published| && ReadBy(q, e.0) == e.1.buffer
    {
      assert ReadBy(q, e.0) == ReadBy(p, e.0);
    }
  }

  lemma PoolKeeps(p: Pipeline, a: Action)
    requires Valid(p) && Enabled(p, a) && PoolStep(a).Some?
    ensures Valid(Step(p, a))
  {
    var q := Step(p, a);
    PoolStepFacts(p, PoolStep(a).value);
    AccountUnmoved(p, q);
  }

  lemma CountKeeps(p: Pipeline)
    requires Valid(p) && Enabled(p, Count)
    ensures Valid(Step(p, Count))
  {
    AccountUnmoved(p, Step(p, Count));
  }

  lemma StepKeeps(p: Pipeline, a: Action)
    requires Valid(p)
    ensures Valid(Step(p, a))
  {
    if Enabled(p, a) {
      match a
      case Adopt(b) => AdoptKeeps(p, b);
      case Release => ReleaseKeeps(p);
      case Detach(c) => DetachKeeps(p, c);
      case PublishRetained(id) => PublishRetainedKeeps(p, id);
      case PublishComposite(id) => PublishCompositeKeeps(p, id);
      case Count => CountKeeps(p);
      case _ => PoolKeeps(p, a);
    }
  }

  lemma {:induction false} RunsAreValid(targets: nat, host: set<Buffer>, retained: Option<HostFrame>, actions: seq<Action>)
    requires StartsWith(host, retained)
    ensures Valid(After(targets, host, retained, actions))
  {
    if actions == [] {
      var p := Start(targets, host, retained);
      assert Uses(p.capture) == if retained.Some? then [(0, retained.value)] else [];
      forall x | x in FP.Everywhere(p.sys) ensures x.1.Target? {
        assert x in p.sys.pool.free;
      }
    } else {
      RunsAreValid(targets, host, retained, actions[..|actions| - 1]);
      StepKeeps(After(targets, host, retained, actions[..|actions| - 1]), actions[|actions| - 1]);
    }
  }

  /** A frame the encode thread has, or is about to take. */
  predicate InFlight(p: Pipeline, f: FP.Frame<Buffer>) {
    p.sys.held == Some(f) || p.sys.pool.slot == Some(f)
  }

  lemma InFlightIsPending(p: Pipeline, f: FP.Frame<Buffer>) returns (k: nat)
    requires Valid(p) && InFlight(p, f)
    ensures Pending(p, k) && ReadBy(p, k) == f.Reads()
  {
    if p.sys.held == Some(f) {
      k := |p.sys.taken|;
      assert p.sys.published[k - 1] == p.sys.taken[k - 1];
    } else {
      k := |p.sys.taken| + 1;
      assert p.sys.published == p.sys.taken + [f];
    }
  }

  /**
   In every interleaving, no buffer in the host's hands is read by a frame the encode thread has
   or will take: a replaced frame goes back only once every frame that reads it is done.
   */
  lemma HostNeverHoldsAReadBuffer(targets: nat, host: set<Buffer>, retained: Option<HostFrame>, actions: seq<Action>, f: FP.Frame<Buffer>)
    requires StartsWith(host, retained)
    requires InFlight(After(targets, host, retained, actions), f)
    ensures f.Reads() !in After(targets, host, retained, actions).capture.host
  {
    RunsAreValid(targets, host, retained, actions);
    var _ := InFlightIsPending(After(targets, host, retained, actions), f);
  }

  /** In every interleaving, the buffer a still copy is drawn into is read by no such frame. */
  lemma StillNeverDrawnOver(targets: nat, host: set<Buffer>, retained: Option<HostFrame>, actions: seq<Action>, c: Copying, f: FP.Frame<Buffer>)
    requires StartsWith(host, retained)
    requires Enabled(After(targets, host, retained, actions), Detach(c))
    requires InFlight(After(targets, host, retained, actions), f)
    ensures StillDrawn(After(targets, host, retained, actions).capture, c) != Some(f.Reads())
  {
    RunsAreValid(targets, host, retained, actions);
    var p := After(targets, host, retained, actions);
    var _ := InFlightIsPending(p, f);
    if StillDrawn(p.capture, c).Some? {
      DrawnStillIsFree(p, c);
    }
  }

  /** A frame the host just delivered is read by no frame in flight: it may be drawn on in place. */
  lemma FreshFrameIsUnread(targets: nat, host: set<Buffer>, retained: Option<HostFrame>, actions: seq<Action>, b: Buffer, f: FP.Frame<Buffer>)
    requires StartsWith(host, retained)
    requires Enabled(After(targets, host, retained, actions), Adopt(b))
    requires InFlight(After(targets, host, retained, actions + [Adopt(b)]), f)
    ensures f.Reads() != b
  {
    assert (actions + [Adopt(b)])[..|actions|] == actions;
    HostNeverHoldsAReadBuffer(targets, host, retained, actions, f);
  }

  /**
   And nothing is kept from the host without a reader: after a release, each replaced frame still
   kept names a published frame that reads it and that the encode thread has not counted.
   */
  lemma KeptOnlyWhileRead(targets: nat, host: set<Buffer>, retained: Option<HostFrame>, actions: seq<Action>, e: (nat, HostFrame))
    requires StartsWith(host, retained)
    requires e in After(targets, host, retained, actions + [Release]).capture.inflight
    ensures var p := After(targets, host, retained, actions + [Release]);
            Pending(p, e.0) && ReadBy(p, e.0) == e.1.buffer
  {
    var before := After(targets, host, retained, actions);
    assert (actions + [Release])[..|actions|] == actions;
    RunsAreValid(targets, host, retained, actions + [Release]);
    KeptMember(before.capture.inflight, before.recycled, e);
    assert e in Uses(After(targets, host, retained, actions + [Release]).capture);
  }

  // ----- nothing is lost

  /** The host's buffers among kept frames: those that are no copy. */
  function Lent(uses: seq<(nat, HostFrame)>): set<Buffer> {
    set e | e in uses && !e.1.detached :: e.1.buffer
  }

  /** Every buffer of the host, in its own hands or lent to the capture. */
  function HostBuffers(c: HostState): set<Buffer> {
    c.host + Lent(Uses(c))
  }

  function StartBuffers(host: set<Buffer>, retained: Option<HostFrame>): set<Buffer> {
    host + if retained.Some? && !retained.value.detached then {retained.value.buffer} else {}
  }

  lemma LentConcat(a: seq<(nat, HostFrame)>, b: seq<(nat, HostFrame)>)
    ensures Lent(a + b) == Lent(a) + Lent(b)
  {
    assert forall e :: e in a + b <==> e in a || e in b;
  }

  lemma {:induction false} KeptOrFreed(uses: seq<(nat, HostFrame)>, done: nat)
    ensures Lent(Kept(uses, done)) + Freed(uses, done) == Lent(uses)
  {
    if uses != [] {
      KeptOrFreed(uses[1..], done);
      LentConcat([uses[0]], uses[1..]);
      assert uses == [uses[0]] + uses[1..];
      assert Lent([uses[0]]) == if uses[0].1.detached then {} else {uses[0].1.buffer};
      if uses[0].0 > done {
        LentConcat([uses[0]], Kept(uses[1..], done));
      } else {
        assert Kept(uses, done) == Kept(uses[1..], done);
      }
    }
  }

  function RetainedPart(c: HostState): seq<(nat, HostFrame)> {
    if c.retained.Some? then [(c.retainedUse, c.retained.value)] else []
  }

  lemma ReleasedConserves(c: HostState, done: nat)
    ensures HostBuffers(Released(c, done)) == HostBuffers(c)
  {
    KeptOrFreed(c.inflight, done);
    LentConcat(c.inflight, RetainedPart(c));
    LentConcat(Kept(c.inflight, done), RetainedPart(c));
  }

  lemma RetainedConserves(c: HostState, f: HostFrame, done: nat)
    ensures HostBuffers(Retained(c, f, done)) == HostBuffers(c) + if f.detached then {} else {f.buffer}
  {
    var swapped := c.(retained := Some(f), retainedUse := 0, inflight := Uses(c));
    assert c.retained.None? ==> Uses(c) == c.inflight;
    ReleasedConserves(swapped, done);
    LentConcat(Uses(c), [(0, f)]);
    assert Lent([(0, f)]) == if f.detached then {} else {f.buffer};
  }

  lemma CountedConserves(c: HostState, readsRetained: bool)
    ensures HostBuffers(Counted(c, readsRetained)) == HostBuffers(c)
  {
    var d := Counted(c, readsRetained);
    LentConcat(c.inflight, RetainedPart(c));
    LentConcat(d.inflight, RetainedPart(d));
    assert Lent(RetainedPart(c)) == Lent(RetainedPart(d)) by {
      if c.retained.Some? {
        assert Lent(RetainedPart(c)) == if c.retained.value.detached then {} else {c.retained.value.buffer};
        assert Lent(RetainedPart(d)) == if c.retained.value.detached then {} else {c.retained.value.buffer};
      }
    }
  }

  lemma DetachedConserves(c: HostState, copying: Copying, done: nat)
    ensures HostBuffers(Detached(c, copying, done)) == HostBuffers(c)
  {
    var target := StillDrawn(c, copying);
    var kept := c.(still := target);
    assert HostBuffers(kept) == HostBuffers(c);
    if target.Some? {
      RetainedConserves(kept, HostFrame(target.value, true), done);
    }
  }

  lemma StepConserves(p: Pipeline, a: Action)
    ensures HostBuffers(Step(p, a).capture) == HostBuffers(p.capture)
  {
    if Enabled(p, a) {
      match a
      case Adopt(b) => RetainedConserves(p.capture.(host := p.capture.host - {b}), HostFrame(b, false), p.recycled);
      case Release => ReleasedConserves(p.capture, p.recycled);
      case Detach(c) => DetachedConserves(p.capture, c, p.recycled);
      case PublishRetained(_) => CountedConserves(p.capture, true);
      case PublishComposite(_) => CountedConserves(p.capture, false);
      case _ =>
    }
  }

  /**
   In every interleaving, the host's buffers are those it has and those kept of frames that are no
   copies, each in one place: exactly the ones there were at the start.
   */
  lemma {:induction false} HostBuffersAreConserved(targets: nat, host: set<Buffer>, retained: Option<HostFrame>, actions: seq<Action>)
    requires StartsWith(host, retained)
    ensures var c := After(targets, host, retained, actions).capture;
            && c.host + (set e | e in Uses(c) && !e.1.detached :: e.1.buffer) ==
                 host + (if retained.Some? && !retained.value.detached then {retained.value.buffer} else {})
            && (forall e :: e in Uses(c) ==> e.1.buffer !in c.host)
            && (forall d, e :: d in Uses(c) && e in Uses(c) && d.1.buffer == e.1.buffer ==> d == e)
  {
    var p := After(targets, host, retained, actions);
    RunsAreValid(targets, host, retained, actions);
    forall d, e | d in Uses(p.capture) && e in Uses(p.capture) && d.1.buffer == e.1.buffer ensures d == e {
      SameBufferSameUse(Uses(p.capture), d, e);
    }
    RunsConserve(targets, host, retained, actions);
  }

  lemma {:induction false} RunsConserve(targets: nat, host: set<Buffer>, retained: Option<HostFrame>, actions: seq<Action>)
    ensures HostBuffers(After(targets, host, retained, actions).capture) == StartBuffers(host, retained)
  {
    if actions == [] {
      var c := Start(targets, host, retained).capture;
      assert Uses(c) == RetainedPart(c);
      if retained.Some? {
        assert Lent([(0, retained.value)]) == if retained.value.detached then {} else {retained.value.buffer};
      }
    } else {
      RunsConserve(targets, host, retained, actions[..|actions| - 1]);
      StepConserves(After(targets, host, retained, actions[..|actions| - 1]), actions[|actions| - 1]);
    }
  }

  /**
   So after a release the host has every buffer of its own but the retained one and those that
   published frames not yet counted as done read.
   */
  lemma {:induction false} DoneBuffersGoBack(targets: nat, host: set<Buffer>, retained: Option<HostFrame>, actions: seq<Action>, b: Buffer)
    requires StartsWith(host, retained)
    requires b in host || (retained.Some? && !retained.value.detached && retained.value.buffer == b)
    ensures var p := After(targets, host, retained, actions + [Release]);
            || b in p.capture.host
            || (p.capture.retained.Some? && p.capture.retained.value.buffer == b)
            || exists k: nat :: Pending(p, k) && ReadBy(p, k) == b
  {
    var all := actions + [Release];
    var p := After(targets, host, retained, all);
    HostBuffersAreConserved(targets, host, retained, all);
    if b !in p.capture.host {
      var e :| e in Uses(p.capture) && !e.1.detached && e.1.buffer == b;
      if e in p.capture.inflight {
        KeptOnlyWhileRead(targets, host, retained, actions, e);
        assert Pending(p, e.0) && ReadBy(p, e.0) == b;
      }
    }
  }

  /** The frame the host delivers is what the display shows from then on. */
  lemma {:induction false} AdoptedIsRetained(targets: nat, host: set<Buffer>, retained: Option<HostFrame>, actions: seq<Action>, b: Buffer)
    requires Enabled(After(targets, host, retained, actions), Adopt(b))
    ensures After(targets, host, retained, actions + [Adopt(b)]).capture.retained == Some(HostFrame(b, false))
  {
    assert (actions + [Adopt(b)])[..|actions|] == actions;
  }

  /**
   A still host frame gives way to a copy exactly where the copy can be made: its buffer is not the
   host's from then on, once its readers are done.
   */
  lemma {:induction false} StillGivesWayToCopy(targets: nat, host: set<Buffer>, retained: Option<HostFrame>, actions: seq<Action>, c: Copying)
    requires StartsWith(host, retained) && Enabled(After(targets, host, retained, actions), Detach(c))
    ensures var before, after := After(targets, host, retained, actions).capture, After(targets, host, retained, actions + [Detach(c)]).capture;
            var may := c.available && before.retained.Some? && !before.retained.value.detached
              && (forall e :: e in before.inflight ==> !e.1.detached)
              && c.drawn && ((before.still.Some? && c.fits) || c.alloc.Some?);
            if may then after.retained.Some? && after.retained.value.detached && after.retained.value.buffer.Still?
            else after.retained == before.retained
  {
    assert (actions + [Detach(c)])[..|actions|] == actions;
    RunsAreValid(targets, host, retained, actions);
  }
}
