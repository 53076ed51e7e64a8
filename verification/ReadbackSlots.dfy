/**
 The persistently mapped buffers GLES screenshots are read back into. The compositor makes, reuses
 and deletes them; a screenshot's own thread copies out of one under its lock.

 `State` and the functions on it say what each operation does, the class `ScreenshotReadbacks` is
 the code. The results are about every interleaving of the compositor and any number of
 screenshots, the compositor's shutdown included.
 */
module ReadbackSlots {
  import opened Options

  const READBACK_SLOTS_MAX: nat := 4
  /** Seconds. */
  const READBACK_SLOT_IDLE: nat := 10

  /**
   A mapped buffer, shared by reference count: `holders` counts the screenshots that have it
   besides the compositor, `copying` is whether one of them is inside the copy, lock held, and
   `wanted` how many bytes the last of them was given it for. `live` is whether the GL buffer and
   its context still exist, so whether the mapping may be read at all.
   */
  datatype Slot = Slot(size: nat, mapped: bool, live: bool, holders: nat, copying: bool, wanted: nat)
  {
    predicate InUse() { holders > 0 }
  }

  /** The compositor's list, each slot with its last use, and every slot ever made by its number. */
  datatype State = State(slots: seq<(nat, nat)>, all: map<nat, Slot>)

  predicate Known(slots: seq<(nat, nat)>, all: map<nat, Slot>) {
    forall e :: e in slots ==> e.0 in all
  }

  /** The first free slot of exactly `len` bytes, or of any size where `len` is None; `|slots|` where there is none. */
  function FirstFree(slots: seq<(nat, nat)>, all: map<nat, Slot>, len: Option<nat>): (i: nat)
    requires Known(slots, all)
    ensures i <= |slots|
    ensures i < |slots| ==> !all[slots[i].0].InUse() && (len.Some? ==> all[slots[i].0].size == len.value)
    ensures forall j :: 0 <= j < i ==> all[slots[j].0].InUse() || (len.Some? && all[slots[j].0].size != len.value)
  {
    if slots == [] then 0
    else if !all[slots[0].0].InUse() && (len.Some? ==> all[slots[0].0].size == len.value) then 0
    else 1 + FirstFree(slots[1..], all, len)
  }

  function Lent(slot: Slot, len: nat): Slot {
    slot.(holders := slot.holders + 1, wanted := len)
  }

  function Deleted(slot: Slot): Slot {
    slot.(mapped := false, live := false)
  }

  /** Removal that puts the last element in the gap. */
  function SwapRemoved(slots: seq<(nat, nat)>, i: nat): (r: seq<(nat, nat)>)
    requires i < |slots|
    ensures |r| == |slots| - 1
  {
    if i == |slots| - 1 then slots[..i] else slots[i := slots[|slots| - 1]][..|slots| - 1]
  }

  /** Adding a slot of `len` bytes numbered `made`, where GL gives one. */
  function Added(s: State, len: nat, now: nat, made: Option<nat>): (State, Option<nat>) {
    if made.None? then (s, None)
    else
      (State(s.slots + [(made.value, now)], s.all[made.value := Slot(len, true, true, 1, false, len)]), made)
  }

  /** `acquire`: a free slot of the size, else a new one, in the place of a free one at the limit. */
  function Acquired(s: State, len: nat, now: nat, made: Option<nat>): (State, Option<nat>)
    requires Known(s.slots, s.all)
  {
    var i := FirstFree(s.slots, s.all, Some(len));
    if i < |s.slots| then
      var id := s.slots[i].0;
      (State(s.slots[i := (id, now)], s.all[id := Lent(s.all[id], len)]), Some(id))
    else if |s.slots| >= READBACK_SLOTS_MAX then
      var j := FirstFree(s.slots, s.all, None);
      if j == |s.slots| then (s, None)
      else
        var id := s.slots[j].0;
        Added(State(SwapRemoved(s.slots, j), s.all[id := Deleted(s.all[id])]), len, now, made)
    else
      Added(s, len, now, made)
  }

  predicate Idle(slot: Slot, used: nat, now: nat) {
    !slot.InUse() && now - used >= READBACK_SLOT_IDLE
  }

  /** `reap_idle`, over the list from the front. */
  function Reaped(slots: seq<(nat, nat)>, all: map<nat, Slot>, now: nat): State
    requires Known(slots, all)
  {
    if slots == [] then State([], all)
    else
      var (id, used) := slots[0];
      if Idle(all[id], used, now) then Reaped(slots[1..], all[id := Deleted(all[id])], now)
      else
        var rest := Reaped(slots[1..], all, now);
        State([slots[0]] + rest.slots, rest.all)
  }

  class ScreenshotReadbacks {
    var slots: seq<(nat, nat)>
    var all: map<nat, Slot>

    function Current(): State
      reads this
    {
      State(slots, all)
    }

    method Find(len: Option<nat>) returns (i: nat)
      requires Known(slots, all)
      ensures i == FirstFree(slots, all, len)
    {
      i := 0;
      while i < |slots|
        invariant i <= |slots|
        invariant FirstFree(slots, all, len) == i + FirstFree(slots[i..], all, len)
      {
        if !all[slots[i].0].InUse() && (len.Some? ==> all[slots[i].0].size == len.value) {
          return;
        }
        assert slots[i..][1..] == slots[i + 1..];
        i := i + 1;
      }
    }

    method Create(len: nat, now: nat, made: Option<nat>) returns (id: Option<nat>)
      modifies this
      ensures (Current(), id) == Added(old(Current()), len, now, made)
    {
      if made.None? {
        return None;
      }
      slots := slots + [(made.value, now)];
      all := all[made.value := Slot(len, true, true, 1, false, len)];
      id := made;
    }

    method Acquire(len: nat, now: nat, made: Option<nat>) returns (id: Option<nat>)
      requires Known(slots, all)
      modifies this
      ensures (Current(), id) == Acquired(old(Current()), len, now, made)
    {
      var i := Find(Some(len));
      if i < |slots| {
        var found := slots[i].0;
        slots := slots[i := (found, now)];
        all := all[found := Lent(all[found], len)];
        return Some(found);
      }
      if |slots| >= READBACK_SLOTS_MAX {
        var j := Find(None);
        if j == |slots| {
          return None;
        }
        var gone := slots[j].0;
        slots := SwapRemoved(slots, j);
        all := all[gone := Deleted(all[gone])];
      }
      id := Create(len, now, made);
    }

    method ReapIdle(now: nat)
      requires Known(slots, all)
      modifies this
      ensures Current() == Reaped(old(slots), old(all), now)
    {
      var kept: seq<(nat, nat)> := [];
      var i := 0;
      while i < |slots|
        invariant i <= |slots| && slots == old(slots)
        invariant Known(slots, all)
        invariant var rest := Reaped(slots[i..], all, now);
                  State(kept + rest.slots, rest.all) == Reaped(old(slots), old(all), now)
      {
        var (id, used) := slots[i];
        assert slots[i..][1..] == slots[i + 1..];
        if Idle(all[id], used, now) {
          all := all[id := Deleted(all[id])];
        } else {
          kept := kept + [slots[i]];
        }
        i := i + 1;
      }
      slots := kept;
    }
  }

  /**
   The compositor and the screenshots. `dropping` is how far the compositor's shutdown has come:
   it unmaps the slots one by one, waiting out a copy under way, before its GL context goes.
   */
  datatype World = World(state: State, dropping: Option<nat>, gone: bool)

  /** The compositor's steps, then those of the screenshot that holds slot `id`. */
  datatype Action =
    | Acquire(len: nat, now: nat, made: Option<nat>)
    | Reap(now: nat)
    | StartDrop
    | DropNext
    | ContextGone
    | StartCopy(id: nat)
    | EndCopy(id: nat)
    | Release(id: nat)

  /**
   The compositor runs no other step once it shuts down. A copy is the holder's, and starts and
   ends with the slot's lock, which unmapping needs too; a holder lets go after its copy.
   */
  predicate Enabled(w: World, a: Action) {
    var s := w.state;
    match a
    case Acquire(_, _, made) => w.dropping.None? && Known(s.slots, s.all) && (made.Some? ==> made.value !in s.all)
    case Reap(_) => w.dropping.None? && Known(s.slots, s.all)
    case StartDrop => w.dropping.None?
    case DropNext =>
      w.dropping.Some? && w.dropping.value < |s.slots| &&
      s.slots[w.dropping.value].0 in s.all && !s.all[s.slots[w.dropping.value].0].copying
    case ContextGone => w.dropping.Some? && w.dropping.value >= |s.slots| && !w.gone
    case StartCopy(id) => id in s.all && s.all[id].InUse() && !s.all[id].copying
    case EndCopy(id) => id in s.all && s.all[id].copying
    case Release(id) => id in s.all && s.all[id].InUse() && !s.all[id].copying
  }

  function Put(w: World, id: nat, slot: Slot): World {
    w.(state := w.state.(all := w.state.all[id := slot]))
  }

  function Step(w: World, a: Action): World {
    if !Enabled(w, a) then w
    else
      var s := w.state;
      match a
      case Acquire(len, now, made) => w.(state := Acquired(s, len, now, made).0)
      case Reap(now) => w.(state := Reaped(s.slots, s.all, now))
      case StartDrop => w.(dropping := Some(0))
      case DropNext =>
        var id := s.slots[w.dropping.value].0;
        Put(w, id, s.all[id].(mapped := false)).(dropping := Some(w.dropping.value + 1))
      case ContextGone =>
        w.(gone := true, state := s.(all := map id | id in s.all :: s.all[id].(live := false)))
      case StartCopy(id) => if s.all[id].mapped then Put(w, id, s.all[id].(copying := true)) else w
      case EndCopy(id) => Put(w, id, s.all[id].(copying := false))
      case Release(id) => Put(w, id, s.all[id].(holders := s.all[id].holders - 1))
  }

  const Start := World(State([], map[]), None, false)

  function After(actions: seq<Action>): World {
    if actions == [] then Start
    else Step(After(actions[..|actions| - 1]), actions[|actions| - 1])
  }

  ghost predicate Listed(s: State, id: nat) {
    exists i :: 0 <= i < |s.slots| && s.slots[i].0 == id
  }

  /** What holds of one slot whatever happens. */
  predicate SlotValid(slot: Slot) {
    && slot.holders <= 1
    && (slot.copying ==> slot.mapped && slot.InUse())
    && (slot.mapped ==> slot.live)
    && (slot.InUse() ==> slot.wanted == slot.size)
  }

  ghost predicate ListValid(s: State) {
    && |s.slots| <= READBACK_SLOTS_MAX
    && Known(s.slots, s.all)
    && (forall i, j :: 0 <= i < j < |s.slots| ==> s.slots[i].0 != s.slots[j].0)
    && (forall id :: id in s.all ==> SlotValid(s.all[id]))
    && (forall id :: id in s.all && (s.all[id].InUse() || s.all[id].mapped) ==> Listed(s, id))
  }

  /** What every step keeps: until the shutdown reaches it, every listed slot is mapped. */
  ghost predicate Valid(w: World) {
    && ListValid(w.state)
    && (w.gone ==> w.dropping.Some? && w.dropping.value >= |w.state.slots|)
    && (forall i :: (if w.dropping.Some? then w.dropping.value else 0) <= i < |w.state.slots| ==>
          w.state.all[w.state.slots[i].0].mapped)
    && (w.dropping.Some? ==>
          forall i :: 0 <= i < w.dropping.value && i < |w.state.slots| ==> !w.state.all[w.state.slots[i].0].mapped)
  }

  /** Every listed slot is mapped: so it is until the shutdown. */
  ghost predicate AllMapped(s: State)
    requires Known(s.slots, s.all)
  {
    forall i :: 0 <= i < |s.slots| ==> s.all[s.slots[i].0].mapped
  }

  lemma LendKeeps(s: State, i: nat, len: nat, now: nat)
    requires ListValid(s) && AllMapped(s) && i < |s.slots|
    requires !s.all[s.slots[i].0].InUse() && s.all[s.slots[i].0].size == len
    ensures var id := s.slots[i].0;
            var t := State(s.slots[i := (id, now)], s.all[id := Lent(s.all[id], len)]);
            ListValid(t) && AllMapped(t)
  {
    var id := s.slots[i].0;
    var t := State(s.slots[i := (id, now)], s.all[id := Lent(s.all[id], len)]);
    assert forall j :: 0 <= j < |s.slots| ==> t.slots[j].0 == s.slots[j].0;
    forall x | x in t.all && (t.all[x].InUse() || t.all[x].mapped) ensures Listed(t, x) {
      if x != id {
        assert Listed(s, x);
        var j :| 0 <= j < |s.slots| && s.slots[j].0 == x;
        assert t.slots[j].0 == x;
      } else {
        assert t.slots[i].0 == id;
      }
    }
  }

  lemma EvictKeeps(s: State, j: nat)
    requires ListValid(s) && AllMapped(s) && j < |s.slots| && !s.all[s.slots[j].0].InUse()
    ensures var id := s.slots[j].0;
            var t := State(SwapRemoved(s.slots, j), s.all[id := Deleted(s.all[id])]);
            ListValid(t) && AllMapped(t)
  {
    var id := s.slots[j].0;
    var t := State(SwapRemoved(s.slots, j), s.all[id := Deleted(s.all[id])]);
    var last := |s.slots| - 1;
    assert forall i :: 0 <= i < |t.slots| ==> t.slots[i] == s.slots[if i == j then last else i];
    forall x | x in t.all && (t.all[x].InUse() || t.all[x].mapped) ensures Listed(t, x) {
      assert x != id && Listed(s, x);
      var i :| 0 <= i < |s.slots| && s.slots[i].0 == x;
      assert t.slots[if i == last then j else i].0 == x;
    }
  }

  lemma AddKeeps(s: State, len: nat, now: nat, made: Option<nat>)
    requires ListValid(s) && AllMapped(s) && |s.slots| < READBACK_SLOTS_MAX
    requires made.Some? ==> made.value !in s.all
    ensures var t := Added(s, len, now, made).0;
            ListValid(t) && AllMapped(t)
  {
    var t := Added(s, len, now, made).0;
    if made.Some? {
      assert t.slots[|s.slots|].0 == made.value;
      forall x | x in t.all && (t.all[x].InUse() || t.all[x].mapped) ensures Listed(t, x) {
        if x != made.value {
          assert Listed(s, x);
          var i :| 0 <= i < |s.slots| && s.slots[i].0 == x;
          assert t.slots[i].0 == x;
        }
      }
    }
  }

  lemma AcquireKeeps(s: State, len: nat, now: nat, made: Option<nat>)
    requires ListValid(s) && AllMapped(s) && (made.Some? ==> made.value !in s.all)
    ensures var t := Acquired(s, len, now, made).0;
            ListValid(t) && AllMapped(t)
  {
    var i := FirstFree(s.slots, s.all, Some(len));
    var j := FirstFree(s.slots, s.all, None);
    if i < |s.slots| {
      LendKeeps(s, i, len, now);
    } else if |s.slots| < READBACK_SLOTS_MAX {
      AddKeeps(s, len, now, made);
    } else if j < |s.slots| {
      EvictKeeps(s, j);
      var id := s.slots[j].0;
      AddKeeps(State(SwapRemoved(s.slots, j), s.all[id := Deleted(s.all[id])]), len, now, made);
    }
  }

  /** Reaping from the front: only idle slots change, and they leave the list. */
  lemma {:induction false} ReapEffect(slots: seq<(nat, nat)>, all: map<nat, Slot>, now: nat)
    requires Known(slots, all)
    requires forall i, j :: 0 <= i < j < |slots| ==> slots[i].0 != slots[j].0
    ensures var t := Reaped(slots, all, now);
            && t.all.Keys == all.Keys && |t.slots| <= |slots|
            && (forall e :: e in t.slots ==> e in slots && t.all[e.0] == all[e.0] && !Idle(all[e.0], e.1, now))
            && (forall e :: e in slots && e !in t.slots ==> Idle(all[e.0], e.1, now) && t.all[e.0] == Deleted(all[e.0]))
            && (forall id :: id in all && (forall e :: e in slots ==> e.0 != id) ==> t.all[id] == all[id])
            && (forall i, j :: 0 <= i < j < |t.slots| ==> t.slots[i].0 != t.slots[j].0)
  {
    if slots != [] {
      var (id, used) := slots[0];
      var rest := slots[1..];
      assert slots == [slots[0]] + rest;
      assert forall e :: e in rest ==> e.0 != id by {
        forall e | e in rest ensures e.0 != id {
          var k :| 0 <= k < |rest| && rest[k] == e;
          assert slots[k + 1] == e;
        }
      }
      ReapEffect(rest, if Idle(all[id], used, now) then all[id := Deleted(all[id])] else all, now);
    }
  }

  lemma ReapKeepsSlots(s: State, now: nat)
    requires ListValid(s)
    ensures var t := Reaped(s.slots, s.all, now); forall x :: x in t.all ==> SlotValid(t.all[x])
  {
    var t := Reaped(s.slots, s.all, now);
    ReapEffect(s.slots, s.all, now);
    forall x | x in t.all ensures SlotValid(t.all[x]) {
      if e :| e in s.slots && e.0 == x {
        assert e in t.slots || t.all[x] == Deleted(s.all[x]);
      }
    }
  }

  lemma ReapKeepsListed(s: State, now: nat, x: nat)
    requires ListValid(s)
    requires var t := Reaped(s.slots, s.all, now); x in t.all && (t.all[x].InUse() || t.all[x].mapped)
    ensures Listed(Reaped(s.slots, s.all, now), x)
  {
    var t := Reaped(s.slots, s.all, now);
    ReapEffect(s.slots, s.all, now);
    if Listed(s, x) {
      var i :| 0 <= i < |s.slots| && s.slots[i].0 == x;
      assert s.slots[i] in s.slots && s.slots[i] in t.slots;
      var k :| 0 <= k < |t.slots| && t.slots[k] == s.slots[i];
      assert t.slots[k].0 == x;
    }
  }

  lemma ReapKeepsMapped(s: State, now: nat)
    requires ListValid(s) && AllMapped(s)
    ensures var t := Reaped(s.slots, s.all, now); Known(t.slots, t.all) && AllMapped(t)
  {
    var t := Reaped(s.slots, s.all, now);
    ReapEffect(s.slots, s.all, now);
    forall i | 0 <= i < |t.slots| ensures t.slots[i].0 in t.all && t.all[t.slots[i].0].mapped {
      assert t.slots[i] in t.slots;
      assert t.slots[i] in s.slots;
    }
  }

  lemma ReapKeeps(s: State, now: nat)
    requires ListValid(s) && AllMapped(s)
    ensures var t := Reaped(s.slots, s.all, now);
            ListValid(t) && AllMapped(t)
  {
    var t := Reaped(s.slots, s.all, now);
    ReapEffect(s.slots, s.all, now);
    ReapKeepsSlots(s, now);
    ReapKeepsMapped(s, now);
    forall x | x in t.all && (t.all[x].InUse() || t.all[x].mapped) ensures Listed(t, x) {
      ReapKeepsListed(s, now, x);
    }
  }

  /** A step on one slot that leaves the list alone and the slot in order. */
  lemma PutKeeps(s: State, id: nat, slot: Slot)
    requires ListValid(s) && id in s.all && SlotValid(slot)
    requires slot.InUse() || slot.mapped ==> s.all[id].InUse() || s.all[id].mapped
    ensures ListValid(s.(all := s.all[id := slot]))
  {
    var t := s.(all := s.all[id := slot]);
    forall x | x in t.all && (t.all[x].InUse() || t.all[x].mapped) ensures Listed(t, x) {
      assert Listed(s, x);
      var i :| 0 <= i < |s.slots| && s.slots[i].0 == x;
      assert t.slots[i].0 == x;
    }
  }

  lemma DropKeeps(w: World)
    requires Valid(w) && Enabled(w, DropNext)
    ensures Valid(Step(w, DropNext))
  {
    var s, k := w.state, w.dropping.value;
    var id := s.slots[k].0;
    PutKeeps(s, id, s.all[id].(mapped := false));
  }

  lemma ContextGoneKeeps(w: World)
    requires Valid(w) && Enabled(w, ContextGone)
    ensures Valid(Step(w, ContextGone))
  {
    var s, t := w.state, Step(w, ContextGone).state;
    forall x | x in t.all ensures SlotValid(t.all[x]) && (t.all[x].InUse() ==> Listed(t, x)) {
      assert Listed(s, x) ==> !s.all[x].mapped;
      if s.all[x].InUse() {
        assert Listed(s, x);
        var i :| 0 <= i < |s.slots| && s.slots[i].0 == x;
        assert t.slots[i].0 == x;
      }
    }
    assert forall i :: 0 <= i < |t.slots| ==> t.all[t.slots[i].0].mapped == s.all[s.slots[i].0].mapped;
  }

  lemma HolderKeeps(w: World, a: Action)
    requires Valid(w) && Enabled(w, a) && (a.StartCopy? || a.EndCopy? || a.Release?)
    ensures Valid(Step(w, a))
  {
    var s := w.state;
    PutKeeps(s, a.id, Step(w, a).state.all[a.id]);
    assert Step(w, a).state == s.(all := s.all[a.id := Step(w, a).state.all[a.id]]);
  }

  lemma StepKeeps(w: World, a: Action)
    requires Valid(w)
    ensures Valid(Step(w, a))
  {
    if Enabled(w, a) {
      match a
      case Acquire(len, now, made) => AcquireKeeps(w.state, len, now, made);
      case Reap(now) => ReapKeeps(w.state, now);
      case StartDrop =>
      case DropNext => DropKeeps(w);
      case ContextGone => ContextGoneKeeps(w);
      case _ => HolderKeeps(w, a);
    }
  }

  lemma {:induction false} RunsAreValid(actions: seq<Action>)
    ensures Valid(After(actions))
  {
    if actions != [] {
      RunsAreValid(actions[..|actions| - 1]);
      StepKeeps(After(actions[..|actions| - 1]), actions[|actions| - 1]);
    }
  }

  /**
   In every interleaving: whenever a copy is under way its slot is mapped, its buffer and the GL
   context exist, and the copy stays inside the mapping; no slot is shared by two screenshots; and
   there are never more than the bound.
   */
  lemma CopiesReadLiveMappings(actions: seq<Action>, id: nat)
    requires id in After(actions).state.all
    ensures |After(actions).state.slots| <= READBACK_SLOTS_MAX
    ensures var slot := After(actions).state.all[id];
            && slot.holders <= 1
            && (slot.copying ==> slot.mapped && slot.live && slot.wanted <= slot.size)
  {
    RunsAreValid(actions);
  }

  lemma AcquireLeavesHeld(s: State, len: nat, now: nat, made: Option<nat>, id: nat)
    requires ListValid(s) && id in s.all && s.all[id].InUse() && (made.Some? ==> made.value !in s.all)
    ensures var (t, got) := Acquired(s, len, now, made);
            t.all.Keys >= s.all.Keys && t.all[id] == s.all[id] && got != Some(id)
  {
  }

  lemma ReapLeavesHeld(s: State, now: nat, id: nat)
    requires ListValid(s) && id in s.all && s.all[id].InUse()
    ensures var t := Reaped(s.slots, s.all, now);
            t.all.Keys == s.all.Keys && t.all[id] == s.all[id]
  {
    ReapEffect(s.slots, s.all, now);
    var t := Reaped(s.slots, s.all, now);
    if e :| e in s.slots && e.0 == id {
      assert e in t.slots;
    }
  }

  /**
   A slot a screenshot holds is the compositor's to leave alone: whatever it acquires or reaps, the
   slot is neither handed out again, nor evicted, nor deleted.
   */
  lemma HeldSlotsAreLeftAlone(actions: seq<Action>, a: Action, id: nat)
    requires id in After(actions).state.all && After(actions).state.all[id].InUse()
    requires a.Acquire? || a.Reap?
    ensures id in Step(After(actions), a).state.all
    ensures Step(After(actions), a).state.all[id] == After(actions).state.all[id]
    ensures Listed(Step(After(actions), a).state, id)
  {
    RunsAreValid(actions);
    var w := After(actions);
    StepKeeps(w, a);
    if Enabled(w, a) {
      match a
      case Acquire(len, now, made) => AcquireLeavesHeld(w.state, len, now, made, id);
      case Reap(now) => ReapLeavesHeld(w.state, now, id);
    }
  }

  // ----- what the compositor's operations do

  /** A slot nobody holds, of the size. */
  predicate FreeOf(s: State, e: (nat, nat), len: nat)
    requires e.0 in s.all
  {
    s.all[e.0].holders == 0 && s.all[e.0].size == len
  }

  /**
   A request for `len` bytes gets a listed slot of that size nobody holds, if there is one; else a
   new one, at the bound in the place of one nobody holds; and nothing where neither can be. The
   slot it gets is held from then on, and last used now.
   */
  lemma {:induction false} AcquireExactly(s: State, len: nat, now: nat, made: Option<nat>)
    requires ListValid(s) && (made.Some? ==> made.value !in s.all)
    ensures var (t, got) := Acquired(s, len, now, made);
            var reuse := exists e :: e in s.slots && FreeOf(s, e, len);
            var room := |s.slots| < 4 || exists e :: e in s.slots && s.all[e.0].holders == 0;
            && (got.Some? <==> reuse || (room && made.Some?))
            && (reuse ==> got.Some? && got.value in s.all && s.all[got.value].size == len && s.all[got.value].holders == 0)
            && (reuse ==> t.all.Keys == s.all.Keys && |t.slots| == |s.slots|)
            && (!reuse && got.Some? ==> got == made)
            && (got.Some? ==> got.value in t.all && t.all[got.value].holders == 1 && t.all[got.value].size == len)
            && (got.Some? ==> t.all[got.value].wanted == len && (got.value, now) in t.slots)
            && (!reuse && got.Some? ==> t.all[got.value] == Slot(len, true, true, 1, false, len))
  {
    var i := FirstFree(s.slots, s.all, Some(len));
    if i < |s.slots| {
      assert s.slots[i] in s.slots && FreeOf(s, s.slots[i], len);
      assert SlotValid(s.all[s.slots[i].0]);
      assert s.slots[i := (s.slots[i].0, now)][i] == (s.slots[i].0, now);
    } else {
      var j := FirstFree(s.slots, s.all, None);
      assert j < |s.slots| ==> s.slots[j] in s.slots;
      AddedIsLast(s, len, now, made, j);
    }
  }

  lemma AddedIsLast(s: State, len: nat, now: nat, made: Option<nat>, j: nat)
    requires Known(s.slots, s.all)
    ensures made.Some? ==> (made.value, now) in Added(s, len, now, made).0.slots
    ensures made.Some? && j < |s.slots| ==>
      (made.value, now) in Added(State(SwapRemoved(s.slots, j), s.all[s.slots[j].0 := Deleted(s.all[s.slots[j].0])]), len, now, made).0.slots
  {
    if made.Some? {
      assert (s.slots + [(made.value, now)])[|s.slots|] == (made.value, now);
      if j < |s.slots| {
        var rest := SwapRemoved(s.slots, j);
        assert (rest + [(made.value, now)])[|rest|] == (made.value, now);
      }
    }
  }

  /** A reap deletes exactly the listed slots nobody holds and nobody used for ten seconds. */
  lemma {:induction false} ReapExactly(s: State, now: nat, e: (nat, nat))
    requires ListValid(s) && e in s.slots
    ensures var t := Reaped(s.slots, s.all, now);
            && e.0 in t.all
            && (e in t.slots <==> s.all[e.0].holders > 0 || now - e.1 < 10)
            && (e in t.slots ==> t.all[e.0] == s.all[e.0])
            && (e !in t.slots ==> !t.all[e.0].mapped && !t.all[e.0].live)
  {
    ReapEffect(s.slots, s.all, now);
  }

  /** Slot `id` gave way to another: nobody held it, and it is deleted. */
  ghost predicate GaveWay(s: State, t: State, id: nat) {
    && id in s.all && id in t.all && s.all[id].holders == 0
    && !Listed(t, id) && !t.all[id].mapped && !t.all[id].live
  }

  lemma {:induction false} SwapRemovedHas(slots: seq<(nat, nat)>, j: nat, e: (nat, nat))
    requires j < |slots| && e in slots && e != slots[j]
    ensures e in SwapRemoved(slots, j)
  {
    var i :| 0 <= i < |slots| && slots[i] == e;
    var at := if i == |slots| - 1 then j else i;
    assert SwapRemoved(slots, j)[at] == e;
  }

  lemma {:induction false} SwapRemovedLacks(slots: seq<(nat, nat)>, j: nat, e: (nat, nat))
    requires j < |slots| && e in SwapRemoved(slots, j)
    requires forall i, k :: 0 <= i < k < |slots| ==> slots[i].0 != slots[k].0
    ensures e in slots && e.0 != slots[j].0
  {
    var i :| 0 <= i < |slots| - 1 && SwapRemoved(slots, j)[i] == e;
    assert e == slots[if i == j then |slots| - 1 else i];
  }

  /** A request leaves every other slot as it is, but for the one that gives way at the bound of four. */
  lemma {:induction false} AcquireTouchesOne(s: State, len: nat, now: nat, made: Option<nat>, e: (nat, nat))
    requires ListValid(s) && e in s.slots && (made.Some? ==> made.value !in s.all)
    ensures var (t, got) := Acquired(s, len, now, made);
            && (Some(e.0) != got ==>
                  || (e in t.slots && e.0 in t.all && t.all[e.0] == s.all[e.0])
                  || (|s.slots| >= 4 && (got.None? || got == made) && GaveWay(s, t, e.0)))
            && |t.slots| <= 4 && |t.slots| >= if got.Some? then |s.slots| else |s.slots| - 1
  {
    var i, j := FirstFree(s.slots, s.all, Some(len)), FirstFree(s.slots, s.all, None);
    if i < |s.slots| {
      var k :| 0 <= k < |s.slots| && s.slots[k] == e;
      assert k != i ==> s.slots[i := (s.slots[i].0, now)][k] == e;
    } else if |s.slots| >= READBACK_SLOTS_MAX {
      if j < |s.slots| {
        EvictTouchesOne(s, len, now, made, j, e);
      }
    }
  }

  lemma EvictTouchesOne(s: State, len: nat, now: nat, made: Option<nat>, j: nat, e: (nat, nat))
    requires ListValid(s) && j < |s.slots| && e in s.slots && (made.Some? ==> made.value !in s.all)
    requires s.all[s.slots[j].0].holders == 0
    ensures var id := s.slots[j].0;
            var t := Added(State(SwapRemoved(s.slots, j), s.all[id := Deleted(s.all[id])]), len, now, made).0;
            if e.0 == id then GaveWay(s, t, id) else e in t.slots && e.0 in t.all && t.all[e.0] == s.all[e.0]
  {
    var id, rest := s.slots[j].0, SwapRemoved(s.slots, j);
    var t := Added(State(rest, s.all[id := Deleted(s.all[id])]), len, now, made).0;
    if e.0 == id {
      forall k | 0 <= k < |t.slots| ensures t.slots[k].0 != id {
        if k < |rest| {
          assert rest[k] in rest;
          SwapRemovedLacks(s.slots, j, rest[k]);
        }
      }
    } else {
      SwapRemovedHas(s.slots, j, e);
    }
  }

  // ----- what the steps of holders and shutdown do

  lemma OneMore(actions: seq<Action>, a: Action)
    ensures After(actions + [a]) == Step(After(actions), a)
  {
    assert (actions + [a])[..|actions|] == actions;
  }

  /**
   In every run: a holder's copy starts where the slot is still mapped, and its end and its release
   change nothing else of the slot; none of them touches another slot or the list.
   */
  lemma {:induction false} HolderStepsExactly(actions: seq<Action>, id: nat, other: nat)
    requires var w := After(actions); id in w.state.all && w.state.all[id].holders > 0
    ensures var s := After(actions).state;
            var slot := s.all[id];
            var started, ended, freed :=
              After(actions + [StartCopy(id)]).state, After(actions + [EndCopy(id)]).state, After(actions + [Release(id)]).state;
            && id in started.all && id in ended.all && id in freed.all
            && (started.all[id].copying <==> slot.copying || slot.mapped)
            && !ended.all[id].copying && ended.all[id] == slot.(copying := false)
            && freed.all[id].holders == (if slot.copying then slot.holders else slot.holders - 1)
            && started.all[id].holders == slot.holders && started.all[id].mapped == slot.mapped
            && freed.all[id].mapped == slot.mapped
            && started.slots == ended.slots == freed.slots == s.slots
            && (other != id && other in s.all ==>
                  && other in started.all && other in ended.all && other in freed.all
                  && started.all[other] == ended.all[other] == freed.all[other] == s.all[other])
  {
    OneMore(actions, StartCopy(id));
    OneMore(actions, EndCopy(id));
    OneMore(actions, Release(id));
  }

  /**
   The shutdown begins once, unmaps slot after slot, each once its copy is done, and lets the
   context go after the last: then no slot is live.
   */
  lemma {:induction false} ShutdownExactly(actions: seq<Action>)
    ensures var w := After(actions);
            var begun, next, gone := After(actions + [StartDrop]), After(actions + [DropNext]), After(actions + [ContextGone]);
            && (w.dropping.None? ==> begun == World(w.state, Some(0), w.gone) && next == w && gone == w)
            && (w.dropping.Some? ==> begun == w)
            && (w.dropping.Some? && w.dropping.value < |w.state.slots| ==>
                  var id := w.state.slots[w.dropping.value].0;
                  && gone == w && id in w.state.all && id in next.state.all
                  && (w.state.all[id].copying ==> next == w)
                  && (!w.state.all[id].copying ==> next.dropping == Some(w.dropping.value + 1) && !next.state.all[id].mapped))
            && (w.dropping.Some? && w.dropping.value >= |w.state.slots| ==>
                  next == w && gone.gone && forall id :: id in gone.state.all ==> !gone.state.all[id].live || w.gone)
  {
    RunsAreValid(actions);
    OneMore(actions, StartDrop);
    OneMore(actions, DropNext);
    OneMore(actions, ContextGone);
  }

  /** A world with the one slot `id`, held or not. */
  function OneSlot(id: nat, used: nat, slot: Slot): World {
    World(State([(id, used)], map[id := slot]), None, false)
  }

  lemma Reused(id: nat, first: nat, second: nat, slot: Slot)
    requires slot.holders == 0
    ensures Step(OneSlot(id, first, slot), Acquire(slot.size, second, None)) ==
            OneSlot(id, second, slot.(holders := 1, wanted := slot.size))
  {
    assert [(id, first)][0 := (id, second)] == [(id, second)];
    assert map[id := slot][id := Lent(slot, slot.size)] == map[id := Lent(slot, slot.size)];
  }

  lemma HeldSlot(id: nat, used: nat, slot: Slot)
    requires slot.holders == 1 && slot.mapped && !slot.copying
    ensures var copying := OneSlot(id, used, slot.(copying := true));
            && Step(OneSlot(id, used, slot), StartCopy(id)) == copying
            && Step(copying, EndCopy(id)) == OneSlot(id, used, slot)
            && Step(OneSlot(id, used, slot), Release(id)) == OneSlot(id, used, slot.(holders := 0))
  {
    assert forall s, t: Slot :: map[id := s][id := t] == map[id := t];
  }

  lemma ReapedSlot(id: nat, used: nat, slot: Slot, now: nat)
    requires slot.holders == 0 && now >= used + 10
    ensures Step(OneSlot(id, used, slot), Reap(now)).state == State([], map[id := Deleted(slot)])
  {
    var s := OneSlot(id, used, slot).state;
    var gone := s.all[id := Deleted(slot)];
    assert s.slots[0] == (id, used) && s.slots[1..] == [] && Idle(slot, used, now);
    assert Enabled(OneSlot(id, used, slot), Reap(now));
    assert Reaped(s.slots, s.all, now) == Reaped(s.slots[1..], gone, now) == State([], gone);
    assert map[id := slot][id := Deleted(slot)] == map[id := Deleted(slot)];
  }

  lemma MadeSlot(len: nat, now: nat, id: nat)
    ensures Step(Start, Acquire(len, now, Some(id))) == OneSlot(id, now, Slot(len, true, true, 1, false, len))
  {
    assert [] + [(id, now)] == [(id, now)];
  }

  lemma FirstHolding(actions: seq<Action>, len: nat, id: nat, first: nat)
    requires |actions| >= 4 && actions[0] == Acquire(len, first, Some(id))
    requires actions[1] == StartCopy(id) && actions[2] == EndCopy(id) && actions[3] == Release(id)
    ensures After(actions[..2]) == OneSlot(id, first, Slot(len, true, true, 1, true, len))
    ensures After(actions[..4]) == OneSlot(id, first, Slot(len, true, true, 0, false, len))
  {
    MadeSlot(len, first, id);
    HeldSlot(id, first, Slot(len, true, true, 1, false, len));
    assert actions[..0] == [];
    Prefix(actions, 0);
    Prefix(actions, 1);
    Prefix(actions, 2);
    Prefix(actions, 3);
  }

  /** A slot goes round: made, copied from, let go, and lent again at its size. */
  lemma {:induction false} SlotGoesRound(len: nat, id: nat, first: nat, second: nat)
    ensures var actions := [Acquire(len, first, Some(id)), StartCopy(id), EndCopy(id), Release(id), Acquire(len, second, None)];
            && After(actions[..2]) == OneSlot(id, first, Slot(len, true, true, 1, true, len))
            && After(actions[..4]) == OneSlot(id, first, Slot(len, true, true, 0, false, len))
            && After(actions) == OneSlot(id, second, Slot(len, true, true, 1, false, len))
  {
    var actions := [Acquire(len, first, Some(id)), StartCopy(id), EndCopy(id), Release(id), Acquire(len, second, None)];
    FirstHolding(actions, len, id, first);
    Reused(id, first, second, Slot(len, true, true, 0, false, len));
    Prefix(actions, 4);
    assert actions[..5] == actions;
  }

  /** And one let go is deleted once it is idle for ten seconds. */
  lemma {:induction false} IdleSlotGoes(len: nat, id: nat, first: nat, now: nat)
    requires now >= first + 10
    ensures After([Acquire(len, first, Some(id)), Release(id), Reap(now)]).state ==
            State([], map[id := Slot(len, false, false, 0, false, len)])
  {
    var actions := [Acquire(len, first, Some(id)), Release(id), Reap(now)];
    var held := Slot(len, true, true, 1, false, len);
    MadeSlot(len, first, id);
    HeldSlot(id, first, held);
    ReapedSlot(id, first, held.(holders := 0), now);
    assert actions[..0] == [] && actions[..3] == actions;
    Prefix(actions, 0);
    Prefix(actions, 1);
    Prefix(actions, 2);
  }

  lemma Prefix(actions: seq<Action>, k: nat)
    requires k < |actions|
    ensures After(actions[..k + 1]) == Step(After(actions[..k]), actions[k])
  {
    assert actions[..k + 1][..k] == actions[..k];
  }
}
