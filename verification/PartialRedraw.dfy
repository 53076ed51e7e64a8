/**
 Redrawing a stale buffer only where it is stale. The compositor renders into pool buffers the
 encode thread has held for a while, or into one offscreen target read back into them, and keeps
 ages and generations so that a partial redraw leaves what a full one would.

 The damage tracker and the renderer are abstract: a picture is a colour for each pixel, and a
 render at age `k` may redraw any set of pixels that holds every one whose colour differs from
 what it was `k` renders ago. Age 0, or an age beyond what the tracker remembers, redraws
 everything. A render that fails may leave anything in its target, and the tracker then remembers
 nothing; one whose fence is missed may leave anything too, but the tracker counts it.
 */
module PartialRedraw {
  import opened Options

  type Picture = seq<int>

  datatype Mode = Pixman | ZeroCopy | Readback

  /**
   How one tick's calls turn out: whether the target is bound, the render succeeds and its fence
   is reached, the pixels it draws, and what a spoiled target or a failed checked read is left
   with. `shot` is a screenshot asked for, which `asyncShot` serves without the pool buffer;
   `copies` is whether reading the target back succeeds.
   */
  datatype Outcome = Outcome(
    binds: bool,
    renders: bool,
    fence: bool,
    drawn: set<nat>,
    leftover: Picture,
    shot: bool,
    asyncShot: bool,
    copies: bool)

  /**
   A capture's bookkeeping and the pictures behind it. `history` is what the tracker remembers,
   oldest first: the composite of each render it counts. `buffers` are the pool's, with one
   `lastRender` and one `contentGen` each (None where the source has `u64::MAX`), and `target`
   the offscreen one.
   */
  datatype Capture = Capture(
    needsFull: bool,
    renderSeq: nat,
    lastRender: seq<nat>,
    generation: nat,
    contentGen: seq<Option<nat>>,
    history: seq<Picture>,
    buffers: seq<Picture>,
    target: Picture)

  /** Every picture has `size` pixels, and the bookkeeping covers every buffer. */
  predicate Sized(c: Capture, size: nat) {
    && |c.lastRender| == |c.buffers| == |c.contentGen|
    && |c.target| == size
    && (forall i :: 0 <= i < |c.lastRender| ==> c.lastRender[i] <= c.renderSeq)
    && (forall b :: b in c.buffers ==> |b| == size)
    && (forall h :: h in c.history ==> |h| == size)
  }

  ghost predicate Whole(drawn: set<nat>, size: nat) {
    forall p: nat :: p < size ==> p in drawn
  }

  /** What the tracker promises of a render of `scene` at `age`. */
  ghost predicate Covers(history: seq<Picture>, age: nat, scene: Picture, drawn: set<nat>)
    requires forall h :: h in history ==> |h| == |scene|
  {
    if age == 0 || age > |history| then Whole(drawn, |scene|)
    else
      var then_ := history[|history| - age];
      forall p: nat :: p < |scene| && then_[p] != scene[p] ==> p in drawn
  }

  function Redrawn(onto: Picture, scene: Picture, drawn: set<nat>): Picture
    requires |onto| == |scene|
  {
    seq(|scene|, p requires 0 <= p < |scene| => if p in drawn then scene[p] else onto[p])
  }

  /** A pool buffer's age: the renders since it last took one, 0 where it never did. */
  function Age(c: Capture, id: nat): nat
    requires id < |c.lastRender| && c.lastRender[id] <= c.renderSeq
  {
    if c.lastRender[id] == 0 then 0 else c.renderSeq + 1 - c.lastRender[id]
  }

  /** The age a tick renders at. A tick without a pool buffer draws a scratch one whole. */
  function RenderAge(c: Capture, mode: Mode, id: Option<nat>, animated: bool): nat
    requires id.Some? ==> id.value < |c.lastRender| && c.lastRender[id.value] <= c.renderSeq
  {
    if animated || c.needsFull then 0
    else
      match mode
      case Readback => 1
      case _ => if id.Some? then Age(c, id.value) else 0
  }

  /** What a render leaves in a target that held `onto`. */
  function Drawn(onto: Picture, scene: Picture, o: Outcome): Picture
    requires |onto| == |scene|
  {
    if o.renders && o.fence then Redrawn(onto, scene, o.drawn) else o.leftover
  }

  function Remembered(history: seq<Picture>, scene: Picture, o: Outcome): seq<Picture> {
    if o.renders then history + [scene] else []
  }

  /** A software tick, into pool buffer `id` or a scratch buffer; and whether it succeeded. */
  function PixmanTick(c: Capture, id: Option<nat>, scene: Picture, o: Outcome): (Capture, bool)
    requires Sized(c, |scene|) && (id.Some? ==> id.value < |c.buffers|)
  {
    if !o.binds then (c, false)
    else
      var ok := o.renders;
      var o := o.(fence := true);
      var c := c.(
        needsFull := c.needsFull && !ok,
        renderSeq := c.renderSeq + 1,
        history := Remembered(c.history, scene, o),
        buffers := if id.Some? then c.buffers[id.value := Drawn(c.buffers[id.value], scene, o)] else c.buffers);
      (if id.Some? && ok then c.(lastRender := c.lastRender[id.value := c.renderSeq]) else c, ok)
  }

  /** A zero-copy tick, into GPU target `id` of the pool. */
  function ZeroCopyTick(c: Capture, id: nat, scene: Picture, o: Outcome): (Capture, bool)
    requires Sized(c, |scene|) && id < |c.buffers|
  {
    if !o.binds then (c, false)
    else
      var ok := o.renders && o.fence;
      var seqNo := c.renderSeq + 1;
      (c.(needsFull := if o.renders then !o.fence else c.needsFull,
          renderSeq := seqNo,
          lastRender := c.lastRender[id := if ok then seqNo else 0],
          history := Remembered(c.history, scene, o),
          buffers := c.buffers[id := Drawn(c.buffers[id], scene, o)]), ok)
  }

  /** Reading the offscreen target back into pool buffer `id`, after a render that succeeded. */
  function ReadInto(c: Capture, id: nat, o: Outcome): (Capture, bool)
    requires id < |c.buffers| == |c.contentGen|
  {
    if o.shot && !o.asyncShot then
      if o.copies
      then (c.(buffers := c.buffers[id := c.target], contentGen := c.contentGen[id := Some(c.generation)]), true)
      else (c.(buffers := c.buffers[id := o.leftover], needsFull := true), false)
    else if c.contentGen[id] != Some(c.generation) then
      (c.(buffers := if o.copies then c.buffers[id := c.target] else c.buffers,
          contentGen := c.contentGen[id := Some(c.generation)]), true)
    else (c, true)
  }

  /** The offscreen render of a readback tick. */
  function OffscreenTick(c: Capture, scene: Picture, o: Outcome): Capture
    requires Sized(c, |scene|)
  {
    c.(needsFull := if o.renders then !o.fence else c.needsFull,
       target := Drawn(c.target, scene, o),
       history := Remembered(c.history, scene, o),
       generation := if o.renders && o.fence && o.drawn != {} then c.generation + 1 else c.generation)
  }

  function ReadbackTick(c: Capture, id: Option<nat>, scene: Picture, o: Outcome): (Capture, bool)
    requires Sized(c, |scene|) && (id.Some? ==> id.value < |c.buffers|)
  {
    if !o.binds then (c, false)
    else
      var t := OffscreenTick(c, scene, o);
      if o.renders && o.fence && id.Some? then ReadInto(t, id.value, o) else (t, o.renders && o.fence)
  }

  function Ticked(c: Capture, mode: Mode, id: Option<nat>, scene: Picture, o: Outcome): (Capture, bool)
    requires Sized(c, |scene|) && (id.Some? ==> id.value < |c.buffers|) && (mode.ZeroCopy? ==> id.Some?)
  {
    match mode
    case Pixman => PixmanTick(c, id, scene, o)
    case ZeroCopy => ZeroCopyTick(c, id.value, scene, o)
    case Readback => ReadbackTick(c, id, scene, o)
  }

  class WlCapture {
    var needsFullRender: bool
    var renderSeq: nat
    var poolLastRender: seq<nat>
    var contentGen: nat
    var poolContentGen: seq<Option<nat>>
    ghost var history: seq<Picture>
    var buffers: seq<Picture>
    var offscreen: Picture

    ghost function State(): Capture
      reads this
    {
      Capture(needsFullRender, renderSeq, poolLastRender, contentGen, poolContentGen, history, buffers, offscreen)
    }

    method RenderPixman(id: Option<nat>, scene: Picture, o: Outcome) returns (ok: bool)
      requires Sized(State(), |scene|) && (id.Some? ==> id.value < |buffers|)
      modifies this
      ensures (State(), ok) == PixmanTick(old(State()), id, scene, o)
    {
      if !o.binds {
        return false;
      }
      ok := false;
      if o.renders {
        ok := true;
        needsFullRender := false;
        history := history + [scene];
      } else {
        history := [];
      }
      if id.Some? {
        buffers := buffers[id.value := Drawn(buffers[id.value], scene, o.(fence := true))];
      }
      renderSeq := renderSeq + 1;
      if ok && id.Some? {
        poolLastRender := poolLastRender[id.value := renderSeq];
      }
    }

    method RenderZeroCopy(id: nat, scene: Picture, o: Outcome) returns (ok: bool)
      requires Sized(State(), |scene|) && id < |buffers|
      modifies this
      ensures (State(), ok) == ZeroCopyTick(old(State()), id, scene, o)
    {
      if !o.binds {
        return false;
      }
      ok := false;
      buffers := buffers[id := Drawn(buffers[id], scene, o)];
      if o.renders {
        ok := true;
        history := history + [scene];
        if o.fence {
          needsFullRender := false;
        } else {
          ok := false;
          needsFullRender := true;
        }
      } else {
        history := [];
      }
      renderSeq := renderSeq + 1;
      poolLastRender := poolLastRender[id := if ok then renderSeq else 0];
    }

    method RenderOffscreen(scene: Picture, o: Outcome) returns (ok: bool)
      requires Sized(State(), |scene|)
      modifies this
      ensures State() == OffscreenTick(old(State()), scene, o)
      ensures ok == (o.renders && o.fence)
    {
      ok := false;
      var damaged := false;
      offscreen := Drawn(offscreen, scene, o);
      if o.renders {
        ok := true;
        damaged := o.drawn != {};
        history := history + [scene];
        if o.fence {
          needsFullRender := false;
        } else {
          ok := false;
          damaged := false;
          needsFullRender := true;
        }
      } else {
        history := [];
      }
      if damaged {
        contentGen := contentGen + 1;
      }
    }

    method ReadBack(id: nat, o: Outcome) returns (ok: bool)
      requires id < |buffers| == |poolContentGen|
      modifies this`buffers, this`poolContentGen, this`needsFullRender
      ensures (State(), ok) == ReadInto(old(State()), id, o)
    {
      ok := true;
      if o.shot && !o.asyncShot {
        if o.copies {
          buffers := buffers[id := offscreen];
          poolContentGen := poolContentGen[id := Some(contentGen)];
        } else {
          buffers := buffers[id := o.leftover];
          ok := false;
          needsFullRender := true;
        }
      } else if poolContentGen[id] != Some(contentGen) {
        if o.copies {
          buffers := buffers[id := offscreen];
        }
        poolContentGen := poolContentGen[id := Some(contentGen)];
      }
    }

    method RenderReadback(id: Option<nat>, scene: Picture, o: Outcome) returns (ok: bool)
      requires Sized(State(), |scene|) && (id.Some? ==> id.value < |buffers|)
      modifies this
      ensures (State(), ok) == ReadbackTick(old(State()), id, scene, o)
    {
      if !o.binds {
        return false;
      }
      ok := RenderOffscreen(scene, o);
      if ok && id.Some? {
        ok := ReadBack(id.value, o);
      }
    }
  }

  /** A pool buffer the tracker can still speak of shows the composite of the render it last took. */
  ghost predicate Aged(c: Capture, size: nat)
    requires Sized(c, size)
  {
    forall id :: 0 <= id < |c.buffers| && c.lastRender[id] != 0 && Age(c, id) <= |c.history| ==>
      c.buffers[id] == c.history[|c.history| - Age(c, id)]
  }

  /** Unless a whole redraw is due, the offscreen target shows the last composite. */
  ghost predicate TargetCurrent(c: Capture) {
    c.needsFull || c.history == [] || c.target == c.history[|c.history| - 1]
  }

  /** Unless a whole redraw is due, a buffer of the current generation shows the offscreen target. */
  ghost predicate Synced(c: Capture)
    requires |c.contentGen| == |c.buffers|
  {
    && (forall id :: 0 <= id < |c.buffers| && c.contentGen[id].Some? ==> c.contentGen[id].value <= c.generation)
    && (c.needsFull || c.history == [] ||
        forall id :: 0 <= id < |c.buffers| && c.contentGen[id] == Some(c.generation) ==> c.buffers[id] == c.target)
  }

  /** What every tick of a capture in `mode` keeps. */
  ghost predicate Valid(c: Capture, mode: Mode, size: nat) {
    && Sized(c, size)
    && (if mode.Readback? then TargetCurrent(c) && Synced(c) else Aged(c, size))
  }

  /** A tick whose calls keep their promises; `size` is the capture's, never empty. */
  ghost predicate Honest(c: Capture, mode: Mode, id: Option<nat>, scene: Picture, animated: bool, o: Outcome, size: nat) {
    && size > 0 && |scene| == size && Sized(c, size) && |o.leftover| == size
    && (id.Some? ==> id.value < |c.buffers|)
    && (mode.ZeroCopy? ==> id.Some?)
    && Covers(c.history, RenderAge(c, mode, id, animated), scene, o.drawn)
  }

  /** The heart of it: redrawing at a buffer's own age leaves the whole composite. */
  lemma {:induction false} PartialIsFull(history: seq<Picture>, age: nat, onto: Picture, scene: Picture, drawn: set<nat>)
    requires |onto| == |scene| && forall h :: h in history ==> |h| == |scene|
    requires Covers(history, age, scene, drawn)
    requires 0 < age <= |history| ==> onto == history[|history| - age]
    ensures Redrawn(onto, scene, drawn) == scene
  {
    if age == 0 || age > |history| {
      assert forall p :: 0 <= p < |scene| ==> p in drawn;
    }
  }

  /** A software tick keeps the ages right, and one that succeeds leaves the composite. */
  lemma {:induction false} PixmanKeeps(c: Capture, id: Option<nat>, scene: Picture, animated: bool, o: Outcome, size: nat)
    requires Valid(c, Pixman, size) && Honest(c, Pixman, id, scene, animated, o, size)
    ensures var (d, ok) := PixmanTick(c, id, scene, o);
            Valid(d, Pixman, size) && (ok && id.Some? ==> d.buffers[id.value] == scene)
  {
    var (d, ok) := PixmanTick(c, id, scene, o);
    if o.binds {
      if id.Some? && ok {
        PartialIsFull(c.history, RenderAge(c, Pixman, id, animated), c.buffers[id.value], scene, o.drawn);
      }
      forall i | 0 <= i < |d.buffers| && d.lastRender[i] != 0 && Age(d, i) <= |d.history|
        ensures d.buffers[i] == d.history[|d.history| - Age(d, i)]
      {
        assert !(id == Some(i) && ok) ==> Age(d, i) == Age(c, i) + 1;
      }
    }
  }

  /** So does a zero-copy tick. */
  lemma {:induction false} ZeroCopyKeeps(c: Capture, id: nat, scene: Picture, animated: bool, o: Outcome, size: nat)
    requires Valid(c, ZeroCopy, size) && Honest(c, ZeroCopy, Some(id), scene, animated, o, size)
    ensures var (d, ok) := ZeroCopyTick(c, id, scene, o);
            Valid(d, ZeroCopy, size) && (ok ==> d.buffers[id] == scene)
  {
    var (d, ok) := ZeroCopyTick(c, id, scene, o);
    if o.binds {
      if ok {
        PartialIsFull(c.history, RenderAge(c, ZeroCopy, Some(id), animated), c.buffers[id], scene, o.drawn);
      }
      forall i | 0 <= i < |d.buffers| && d.lastRender[i] != 0 && Age(d, i) <= |d.history|
        ensures d.buffers[i] == d.history[|d.history| - Age(d, i)]
      {
        assert i != id ==> Age(d, i) == Age(c, i) + 1;
      }
    }
  }

  /** The offscreen render: the target becomes the composite, or a whole redraw becomes due. */
  lemma {:induction false} OffscreenKeeps(c: Capture, scene: Picture, animated: bool, o: Outcome, size: nat)
    requires Valid(c, Readback, size) && Honest(c, Readback, None, scene, animated, o, size)
    ensures var d := OffscreenTick(c, scene, o);
            Valid(d, Readback, size) && (o.renders && o.fence ==> d.target == scene && !d.needsFull && d.history != [])
  {
    var d := OffscreenTick(c, scene, o);
    if o.renders && o.fence {
      var age := RenderAge(c, Readback, None, animated);
      PartialIsFull(c.history, age, c.target, scene, o.drawn);
      if o.drawn == {} {
        assert !Whole(o.drawn, size) by {
          assert 0 !in o.drawn;
        }
        assert d.target == c.target;
      }
    }
  }

  /**
   A readback that goes unnoticed: the plain read reports no error to the caller, so the buffer
   is marked current though it still shows something else.
   */
  ghost predicate Spoils(c: Capture, mode: Mode, id: Option<nat>, scene: Picture, o: Outcome)
    requires Sized(c, |scene|) && (id.Some? ==> id.value < |c.buffers|)
  {
    && mode.Readback? && o.binds && o.renders && o.fence && id.Some? && !o.copies
    && (o.shot ==> o.asyncShot)
    && c.contentGen[id.value] != Some(OffscreenTick(c, scene, o).generation)
    && c.buffers[id.value] != scene
  }

  /** A readback tick publishes the composite exactly where its read is not lost. */
  lemma {:induction false} ReadbackKeeps(c: Capture, id: Option<nat>, scene: Picture, animated: bool, o: Outcome, size: nat)
    requires Valid(c, Readback, size) && Honest(c, Readback, id, scene, animated, o, size)
    ensures var (d, ok) := ReadbackTick(c, id, scene, o);
            && Sized(d, size)
            && (!Spoils(c, Readback, id, scene, o) ==> Valid(d, Readback, size))
            && (ok && id.Some? ==> (d.buffers[id.value] == scene <==> !Spoils(c, Readback, id, scene, o)))
            && (Spoils(c, Readback, id, scene, o) ==> ok)
  {
    OffscreenKeeps(c, scene, animated, o, size);
  }

  /**
   A capture's life: ticks, moves and resizes that ask for a whole redraw, a tracker rebuilt for
   a new size, and the pool rebuilt after its encode thread died or was given up: on buffers of
   its own, in the same mode, except that a zero-copy session gives way to a readback path.
   */
  datatype Event =
    | Tick(id: Option<nat>, scene: Picture, animated: bool, held: bool, o: Outcome)
    | Disturbed
    | TrackerRebuilt
    | PoolRebuilt(buffers: seq<Picture>, target: Picture)

  /** `shown` pairs each published buffer with the composite of its tick; `spoiled` marks a lost read. */
  datatype Life = Life(capture: Capture, mode: Mode, shown: seq<(Picture, Picture)>, spoiled: bool)

  /** A new capture, or a rebuilt pool: nothing is known of any buffer, and a whole redraw is due. */
  function Bootstrapped(history: seq<Picture>, buffers: seq<Picture>, target: Picture): Capture {
    Capture(true, 0, seq(|buffers|, _ => 0), 0, seq(|buffers|, _ => None), history, buffers, target)
  }

  /** A held frame is not published; off the zero-copy path it has no pool buffer either. */
  ghost predicate Enabled(l: Life, e: Event, size: nat) {
    match e
    case Tick(id, scene, animated, held, o) =>
      && Honest(l.capture, l.mode, id, scene, animated, o, size)
      && (held && !l.mode.ZeroCopy? ==> id.None?)
    case PoolRebuilt(buffers, target) => |target| == size && forall b :: b in buffers ==> |b| == size
    case _ => true
  }

  ghost function Step(l: Life, e: Event, size: nat): Life {
    if !Enabled(l, e, size) then l
    else
      match e
      case Tick(id, scene, animated, held, o) =>
        var (capture, ok) := Ticked(l.capture, l.mode, id, scene, o);
        Life(capture, l.mode,
             if ok && id.Some? && !held && id.value < |capture.buffers|
             then l.shown + [(capture.buffers[id.value], scene)] else l.shown,
             l.spoiled || Spoils(l.capture, l.mode, id, scene, o))
      case Disturbed => l.(capture := l.capture.(needsFull := true))
      case TrackerRebuilt => l.(capture := l.capture.(history := []))
      case PoolRebuilt(buffers, target) =>
        l.(mode := if l.mode.ZeroCopy? then Readback else l.mode, capture := Bootstrapped(l.capture.history, buffers, target))
  }

  ghost function After(start: Life, events: seq<Event>, size: nat): Life {
    if events == [] then start
    else Step(After(start, events[..|events| - 1], size), events[|events| - 1], size)
  }

  ghost predicate IsStart(l: Life, size: nat) {
    && l.shown == [] && !l.spoiled
    && l.capture == Bootstrapped(l.capture.history, l.capture.buffers, l.capture.target)
    && Sized(l.capture, size)
  }

  ghost predicate AllCurrent(shown: seq<(Picture, Picture)>) {
    forall p :: p in shown ==> p.0 == p.1
  }

  lemma BootstrappedIsValid(history: seq<Picture>, buffers: seq<Picture>, target: Picture, mode: Mode, size: nat)
    requires |target| == size && forall b :: b in buffers ==> |b| == size
    requires forall h :: h in history ==> |h| == size
    ensures Valid(Bootstrapped(history, buffers, target), mode, size)
  {
  }

  lemma TickKeeps(l: Life, e: Event, size: nat)
    requires e.Tick? && Enabled(l, e, size) && Valid(l.capture, l.mode, size)
    ensures var (d, ok) := Ticked(l.capture, l.mode, e.id, e.scene, e.o);
            var spoils := Spoils(l.capture, l.mode, e.id, e.scene, e.o);
            && Sized(d, size)
            && (!spoils ==> Valid(d, l.mode, size))
            && (ok && e.id.Some? ==> (d.buffers[e.id.value] == e.scene <==> !spoils))
            && (spoils ==> ok && e.id.Some? && !e.held)
  {
    match l.mode
    case Pixman => PixmanKeeps(l.capture, e.id, e.scene, e.animated, e.o, size);
    case ZeroCopy => ZeroCopyKeeps(l.capture, e.id.value, e.scene, e.animated, e.o, size);
    case Readback => ReadbackKeeps(l.capture, e.id, e.scene, e.animated, e.o, size);
  }

  /**
   Partial redraw refines full redraw: in every run, every published buffer shows the composite
   of its tick, if and only if no readback was lost on a buffer that showed something else.
   */
  lemma {:induction false} PublishedIsCurrent(start: Life, events: seq<Event>, size: nat)
    requires IsStart(start, size)
    ensures var l := After(start, events, size);
            && (AllCurrent(l.shown) <==> !l.spoiled)
            && (!l.spoiled ==> Valid(l.capture, l.mode, size))
  {
    if events == [] {
      BootstrappedIsValid(start.capture.history, start.capture.buffers, start.capture.target, start.mode, size);
    } else {
      var l, e := After(start, events[..|events| - 1], size), events[|events| - 1];
      PublishedIsCurrent(start, events[..|events| - 1], size);
      var m := Step(l, e, size);
      if Enabled(l, e, size) {
        if l.spoiled {
          var p :| p in l.shown && p.0 != p.1;
          assert p in m.shown;
        } else if e.Tick? {
          TickKeeps(l, e, size);
          if l.spoiled != m.spoiled {
            assert m.shown[|l.shown|] in m.shown;
          }
        } else if e.PoolRebuilt? {
          BootstrappedIsValid(l.capture.history, e.buffers, e.target, m.mode, size);
        }
      }
    }
  }

  /** So a run in which every read of the target succeeds publishes nothing but the composite. */
  lemma NoFailedReadNoStaleFrame(start: Life, events: seq<Event>, size: nat)
    requires IsStart(start, size) && forall e :: e in events && e.Tick? ==> e.o.copies
    ensures AllCurrent(After(start, events, size).shown)
  {
    PublishedIsCurrent(start, events, size);
    NoFailedReadNoLoss(start, events, size);
  }

  lemma {:induction false} NoFailedReadNoLoss(start: Life, events: seq<Event>, size: nat)
    requires !start.spoiled && forall e :: e in events && e.Tick? ==> e.o.copies
    ensures !After(start, events, size).spoiled
  {
    if events != [] {
      NoFailedReadNoLoss(start, events[..|events| - 1], size);
    }
  }

  /** The two modes that render into the pool's own buffers have nothing to lose. */
  lemma {:induction false} OwnBuffersNeverSpoil(start: Life, events: seq<Event>, size: nat)
    requires IsStart(start, size) && !After(start, events, size).mode.Readback?
    ensures AllCurrent(After(start, events, size).shown)
  {
    PublishedIsCurrent(start, events, size);
    NoReadbackNoLoss(start, events, size);
  }

  lemma {:induction false} NoReadbackNoLoss(start: Life, events: seq<Event>, size: nat)
    requires !start.spoiled && !After(start, events, size).mode.Readback?
    ensures !After(start, events, size).spoiled
  {
    if events != [] {
      var l, e := After(start, events[..|events| - 1], size), events[|events| - 1];
      assert Step(l, e, size).mode == l.mode || Step(l, e, size).mode.Readback?;
      NoReadbackNoLoss(start, events[..|events| - 1], size);
    }
  }

  /** A run in which a read is lost: a new readback capture publishes a buffer it never filled. */
  lemma LostReadPublishesStale() returns (start: Life, events: seq<Event>)
    ensures IsStart(start, 1)
    ensures After(start, events, 1).shown == [([0], [1])]
  {
    start := Life(Bootstrapped([], [[0]], [0]), Readback, [], false);
    var o := Outcome(true, true, true, {0}, [0], false, false, false);
    events := [Event.Tick(Some(0), [1], false, false, o)];
    var c := OffscreenTick(start.capture, [1], o);
    assert c.target == [1] && c.generation == 1;
    assert events[..0] == [];
    assert After(start, events[..0], 1) == start;
    assert Enabled(start, events[0], 1);
  }

  // ----- how little is redrawn, read and asked for, off the events alone

  /** The tick's render is counted in its buffer. */
  predicate Took(mode: Mode, o: Outcome) {
    o.binds && o.renders && (mode.Pixman? || o.fence)
  }

  /**
   The renders since pool buffer `id` last took one, None where it has none to its credit: it never
   took one since the pool was made, or a zero-copy one into it was lost since.
   */
  ghost function SinceTook(start: Life, events: seq<Event>, size: nat, id: nat): Option<nat> {
    if events == [] then None
    else
      var l, e := After(start, events[..|events| - 1], size), events[|events| - 1];
      var before := SinceTook(start, events[..|events| - 1], size, id);
      if Enabled(l, e, size) then SinceAfter(l.mode, e, id, before) else before
  }

  function SinceAfter(mode: Mode, e: Event, id: nat, before: Option<nat>): Option<nat> {
    match e
    case Tick(into, _, _, _, o) =>
      if !o.binds || mode.Readback? then before
      else if into == Some(id) && Took(mode, o) then Some(0)
      else if into == Some(id) && mode.ZeroCopy? then None
      else if before.Some? then Some(before.value + 1)
      else None
    case PoolRebuilt(_, _) => None
    case _ => before
  }

  lemma TickStaysSized(c: Capture, mode: Mode, id: Option<nat>, scene: Picture, o: Outcome, size: nat)
    requires Sized(c, size) && |scene| == size && |o.leftover| == size
    requires (id.Some? ==> id.value < |c.buffers|) && (mode.ZeroCopy? ==> id.Some?)
    ensures Sized(Ticked(c, mode, id, scene, o).0, size)
  {
  }

  lemma {:induction false} StaysSized(start: Life, events: seq<Event>, size: nat)
    requires IsStart(start, size)
    ensures Sized(After(start, events, size).capture, size)
  {
    if events != [] {
      var l, e := After(start, events[..|events| - 1], size), events[|events| - 1];
      StaysSized(start, events[..|events| - 1], size);
      if Enabled(l, e, size) && e.Tick? {
        TickStaysSized(l.capture, l.mode, e.id, e.scene, e.o, size);
      }
    }
  }

  /** Buffer `id` carries `since` renders since it last took one. */
  predicate Counts(c: Capture, id: nat, since: Option<nat>)
    requires id < |c.lastRender|
  {
    match since
    case None => c.lastRender[id] == 0
    case Some(n) => c.lastRender[id] > 0 && c.renderSeq == c.lastRender[id] + n
  }

  lemma TickKeepsLength(l: Life, e: Event, size: nat)
    requires e.Tick? && Enabled(l, e, size)
    ensures |Ticked(l.capture, l.mode, e.id, e.scene, e.o).0.lastRender| == |l.capture.lastRender|
  {
  }

  lemma TickCounts(l: Life, e: Event, size: nat, id: nat, since: Option<nat>)
    requires e.Tick? && Enabled(l, e, size) && id < |l.capture.lastRender| && Counts(l.capture, id, since)
    ensures var c := Ticked(l.capture, l.mode, e.id, e.scene, e.o).0;
            id < |c.lastRender| && Counts(c, id, SinceAfter(l.mode, e, id, since))
  {
  }

  /** The sequence numbers count what the events say. */
  lemma {:induction false} AgesCount(start: Life, events: seq<Event>, size: nat, id: nat)
    requires IsStart(start, size)
    ensures var c := After(start, events, size).capture;
            id < |c.lastRender| ==> Counts(c, id, SinceTook(start, events, size, id))
  {
    if events != [] {
      var front, e := events[..|events| - 1], events[|events| - 1];
      var l, since := After(start, front, size), SinceTook(start, front, size, id);
      AgesCount(start, front, size, id);
      if Enabled(l, e, size) && e.Tick? {
        TickKeepsLength(l, e, size);
        if id < |l.capture.lastRender| {
          TickCounts(l, e, size, id, since);
        }
      }
    }
  }

  /** The tick asks for a whole redraw after it: a missed fence, or a checked read that failed. */
  predicate Loses(mode: Mode, id: Option<nat>, o: Outcome) {
    && o.binds && o.renders && !mode.Pixman?
    && (!o.fence || (mode.Readback? && id.Some? && o.shot && !o.asyncShot && !o.copies))
  }

  /** `e` makes a whole redraw due. */
  ghost predicate MakesDue(l: Life, e: Event, size: nat) {
    && Enabled(l, e, size)
    && (e.Disturbed? || e.PoolRebuilt? || (e.Tick? && Loses(l.mode, e.id, e.o)))
  }

  /** `e` is a render that succeeds. */
  ghost predicate Settles(l: Life, e: Event, size: nat) {
    Enabled(l, e, size) && e.Tick? && Took(l.mode, e.o) && !Loses(l.mode, e.id, e.o)
  }

  ghost predicate SettlesAt(start: Life, events: seq<Event>, size: nat, k: nat) {
    k < |events| && Settles(After(start, events[..k], size), events[k], size)
  }

  ghost predicate MakesDueAt(start: Life, events: seq<Event>, size: nat, k: nat) {
    k < |events| && MakesDue(After(start, events[..k], size), events[k], size)
  }

  /** Some render succeeded, and nothing since has made a whole redraw due. */
  ghost predicate SettledSince(start: Life, events: seq<Event>, size: nat, k: nat) {
    SettlesAt(start, events, size, k) && forall m: nat :: m > k ==> !MakesDueAt(start, events, size, m)
  }

  lemma PrefixAt(start: Life, events: seq<Event>, size: nat, k: nat)
    requires k < |events| - 1
    ensures SettlesAt(start, events, size, k) <==> SettlesAt(start, events[..|events| - 1], size, k)
    ensures MakesDueAt(start, events, size, k) <==> MakesDueAt(start, events[..|events| - 1], size, k)
  {
    assert events[..|events| - 1][..k] == events[..k];
  }

  /** What one event does to the flag. */
  lemma FlagAfter(l: Life, e: Event, size: nat)
    ensures Step(l, e, size).capture.needsFull ==
      if MakesDue(l, e, size) then true else if Settles(l, e, size) then false else l.capture.needsFull
  {
  }

  /** A partial redraw is allowed exactly where a render succeeded and nothing since has disturbed or lost one. */
  lemma {:induction false} WholeRedrawDueExactly(start: Life, events: seq<Event>, size: nat)
    requires IsStart(start, size)
    ensures !After(start, events, size).capture.needsFull <==> exists k: nat :: SettledSince(start, events, size, k)
  {
    if events != [] {
      var n := |events| - 1;
      var front, l, e := events[..n], After(start, events[..n], size), events[n];
      WholeRedrawDueExactly(start, front, size);
      FlagAfter(l, e, size);
      assert MakesDueAt(start, events, size, n) <==> MakesDue(l, e, size);
      assert SettlesAt(start, events, size, n) <==> Settles(l, e, size);
      if SettledSince(start, events, size, n) {
      } else if !MakesDue(l, e, size) {
        assert events == front + [e];
        SettledOneMore(start, front, e, size);
      }
    }
  }

  lemma SettledOneMore(start: Life, front: seq<Event>, e: Event, size: nat)
    requires !MakesDueAt(start, front + [e], size, |front|) && !SettlesAt(start, front + [e], size, |front|)
    ensures (exists k: nat :: SettledSince(start, front + [e], size, k)) <==>
            exists k: nat :: SettledSince(start, front, size, k)
  {
    var events, n := front + [e], |front|;
    assert events[..|events| - 1] == front;
    forall k: nat | k < n
      ensures SettlesAt(start, events, size, k) <==> SettlesAt(start, front, size, k)
      ensures MakesDueAt(start, events, size, k) <==> MakesDueAt(start, front, size, k)
    {
      PrefixAt(start, events, size, k);
    }
    if k: nat :| SettledSince(start, events, size, k) {
      assert SettledSince(start, front, size, k);
    }
    if k: nat :| SettledSince(start, front, size, k) {
      assert SettledSince(start, events, size, k);
    }
  }

  /**
   The age a tick renders at: 0, which redraws everything, exactly where the scene is animated, a
   whole redraw is due or the buffer has nothing to build on; else one more than the renders since
   its buffer last took one, and always 1 where there is one target for all.
   */
  lemma {:induction false} RenderedAtItsAge(start: Life, events: seq<Event>, size: nat, id: nat, animated: bool)
    requires IsStart(start, size) && id < |After(start, events, size).capture.lastRender|
    ensures var l := After(start, events, size);
            && l.capture.lastRender[id] <= l.capture.renderSeq
            && RenderAge(l.capture, l.mode, Some(id), animated) ==
                 if animated || !(exists k: nat :: SettledSince(start, events, size, k)) then 0
                 else if l.mode.Readback? then 1
                 else match SinceTook(start, events, size, id) case None => 0 case Some(n) => n + 1
  {
    StaysSized(start, events, size);
    AgesCount(start, events, size, id);
    WholeRedrawDueExactly(start, events, size);
  }

  /** A tick publishes exactly where it has a buffer, is not held back, and neither its render nor its checked read fails. */
  lemma {:induction false} PublishedExactly(l: Life, e: Event, size: nat)
    requires Enabled(l, e, size) && e.Tick?
    ensures Step(l, e, size).shown == l.shown || |Step(l, e, size).shown| == |l.shown| + 1
    ensures Step(l, e, size).shown != l.shown <==>
      e.id.Some? && !e.held && Took(l.mode, e.o) && !Loses(l.mode, e.id, e.o)
    ensures Step(l, e, size).shown != l.shown ==>
      Step(l, e, size).shown == l.shown + [(Step(l, e, size).capture.buffers[e.id.value], e.scene)]
  {
  }

  /** A tick on which nothing has changed, and which nobody takes a screenshot of. */
  predicate Quiet(e: Event) {
    e.Tick? && e.o.renders && e.o.fence && e.o.drawn == {} && (e.o.shot ==> e.o.asyncShot)
  }

  /** `id` holds what the target holds, as far as the bookkeeping says. */
  predicate Current(c: Capture, id: nat) {
    id < |c.contentGen| && c.contentGen[id] == Some(c.generation)
  }

  /** A readback tick that succeeds leaves its buffer current, whatever it was. */
  lemma {:induction false} FilledIsCurrent(l: Life, e: Event, size: nat)
    requires Enabled(l, e, size) && e.Tick? && l.mode.Readback? && e.id.Some? && Took(l.mode, e.o) && !Loses(l.mode, e.id, e.o)
    ensures Current(Step(l, e, size).capture, e.id.value)
  {
  }

  /**
   A still screen is read once into each buffer: as long as nothing is drawn, a current buffer
   stays so, and a tick into it reads nothing, so that it does not matter whether a read would fail.
   */
  lemma {:induction false} StillScreenIsReadOnce(l: Life, events: seq<Event>, size: nat, id: nat)
    requires l.mode.Readback? && Sized(l.capture, size) && Current(l.capture, id) && forall e :: e in events ==> Quiet(e)
    ensures var m := After(l, events, size);
            && m.mode.Readback? && Current(m.capture, id) && id < |m.capture.buffers| == |l.capture.buffers|
            && m.capture.buffers[id] == l.capture.buffers[id]
  {
    if events != [] {
      var e := events[|events| - 1];
      assert e in events && forall f :: f in events[..|events| - 1] ==> f in events;
      StillScreenIsReadOnce(l, events[..|events| - 1], size, id);
    }
  }

  /**
   In every run: a move or resize makes a whole redraw due, a rebuilt tracker remembers nothing, and
   a rebuilt pool has nothing to build on and is never zero-copy's again; none of them publishes.
   */
  lemma {:induction false} RebuiltExactly(start: Life, events: seq<Event>, size: nat, buffers: seq<Picture>, target: Picture)
    requires |target| == size && forall b :: b in buffers ==> |b| == size
    ensures var l := After(start, events, size);
            var disturbed, forgot := After(start, events + [Disturbed], size), After(start, events + [TrackerRebuilt], size);
            var rebuilt := After(start, events + [PoolRebuilt(buffers, target)], size);
            && disturbed == l.(capture := disturbed.capture) && disturbed.capture == l.capture.(needsFull := true)
            && forgot.capture.history == [] && forgot.shown == l.shown && forgot.capture.needsFull == l.capture.needsFull
            && rebuilt.capture.needsFull && rebuilt.capture.buffers == buffers && rebuilt.shown == l.shown
            && (rebuilt.mode == l.mode || (l.mode.ZeroCopy? && rebuilt.mode.Readback?)) && !rebuilt.mode.ZeroCopy?
            && forall id :: 0 <= id < |buffers| ==> rebuilt.capture.lastRender[id] == 0 && rebuilt.capture.contentGen[id] == None
  {
    assert (events + [Disturbed])[..|events|] == events;
    assert (events + [TrackerRebuilt])[..|events|] == events;
    assert (events + [PoolRebuilt(buffers, target)])[..|events|] == events;
  }
}
