/**
 The registry of outputs and views: screens laid out in one plane, and views cut out of them.

 The functions below the rectangles say when a request is accepted and what the node list is
 after it; `AppState` holds the list and answers requests as the code does, searching and editing
 it in place. The theorems at the end are about every sequence of requests.
 */
module Layout {
  import opened Options

  // ----- 32-bit coordinates

  const I32_MIN: int := -0x8000_0000
  const I32_MAX: int := 0x7FFF_FFFF

  type I32 = n: int | I32_MIN <= n <= I32_MAX

  predicate InRange(n: int) {
    I32_MIN <= n <= I32_MAX
  }

  /** The sum as a release build forms it. */
  function Add(a: I32, b: I32): I32 {
    if a + b > I32_MAX then a + b - 0x1_0000_0000
    else if a + b < I32_MIN then a + b + 0x1_0000_0000
    else a + b
  }

  function Sub(a: I32, b: I32): I32 {
    if a - b > I32_MAX then a - b - 0x1_0000_0000
    else if a - b < I32_MIN then a - b + 0x1_0000_0000
    else a - b
  }

  // ----- rectangles, their arithmetic widened in the code

  datatype Rect = Rect(x: int, y: int, w: int, h: int)

  predicate Holds(r: Rect, px: int, py: int) {
    r.x <= px < r.x + r.w && r.y <= py < r.y + r.h
  }

  predicate RectsOverlap(a: Rect, b: Rect) {
    && a.w > 0 && a.h > 0 && b.w > 0 && b.h > 0
    && a.x < b.x + b.w && b.x < a.x + a.w
    && a.y < b.y + b.h && b.y < a.y + a.h
  }

  function Max(a: int, b: int): int {
    if a < b then b else a
  }

  /** Overlapping is sharing an integer point; touching edges and empty rectangles share none. */
  lemma OverlapIsASharedPoint(a: Rect, b: Rect)
    ensures RectsOverlap(a, b) <==> exists px, py :: Holds(a, px, py) && Holds(b, px, py)
  {
    if RectsOverlap(a, b) {
      assert Holds(a, Max(a.x, b.x), Max(a.y, b.y));
      assert Holds(b, Max(a.x, b.x), Max(a.y, b.y));
    }
  }

  // ----- nodes

  type Scale = s: real | s > 0.0 witness 1.0

  datatype Size = Size(w: I32, h: I32)

  /**
   A screen (no owner) or a view of `owner`. A view shares its screen's output, so `mode` and
   `scale` are the screen's on both. `redraw` is the live capture's request to draw in full.
   */
  datatype OutputNode = OutputNode(
    id: nat, owner: Option<nat>, x: I32, y: I32, mode: Size, scale: Scale,
    viewSize: Size, capture: Option<Size>, redraw: bool)

  /** Half away from zero. */
  function Rounded(r: real): int {
    if r >= 0.0 then (r + 0.5).Floor else -((0.5 - r).Floor)
  }

  /** A conversion to the coordinates' type, which stops at its ends. */
  function Saturated(n: int): I32 {
    if n > I32_MAX then I32_MAX else if n < I32_MIN then I32_MIN else n
  }

  function Scaled(s: Size, scale: Scale): Size {
    Size(Saturated(Rounded(s.w as real / scale)), Saturated(Rounded(s.h as real / scale)))
  }

  /** The pixels of `m` logical units. */
  function Units(k: Scale, m: real): real {
    k * m
  }

  /** `u` pixels are as near to `n` as half a unit, the half counted on the outer side. */
  predicate Near(n: real, k: Scale, u: real) {
    if n >= 0.0 then 0.0 - k <= 2.0 * (n - u) < k else 0.0 - k < 2.0 * (n - u) <= k
  }

  /**
   The logical side of `n` pixels at scale `k`: the nearest whole number of units of `k` pixels,
   halves away from zero, as far as a coordinate goes.
   */
  predicate IsLogicalSide(n: I32, k: Scale, m: I32) {
    var whole := k * (2.0 * I32_MAX as real + 1.0);
    if 2.0 * n as real >= whole then m == I32_MAX
    else if 2.0 * n as real <= -whole - 2.0 * k then m == I32_MIN
    else Near(n as real, k, Units(k, m as real))
  }

  predicate IsLogicalSize(mode: Size, k: Scale, s: Size) {
    IsLogicalSide(mode.w, k, s.w) && IsLogicalSide(mode.h, k, s.h)
  }

  /** What a view shows: what it captures, else what it was made with. */
  function Extent(n: OutputNode): Size {
    match n.capture
    case Some(size) => size
    case None => n.viewSize
  }

  function At(x: int, y: int, s: Size): Rect {
    Rect(x, y, s.w, s.h)
  }

  function Logical(n: OutputNode): Rect {
    At(n.x, n.y, Scaled(if n.owner.Some? then Extent(n) else n.mode, n.scale))
  }

  function Physical(n: OutputNode): Rect {
    At(n.x, n.y, n.mode)
  }

  /** The first node with the id. */
  function Find(nodes: seq<OutputNode>, id: nat): (i: Option<nat>)
    ensures i.Some? ==> i.value < |nodes| && nodes[i.value].id == id
    ensures i.None? ==> forall k :: 0 <= k < |nodes| ==> nodes[k].id != id
  {
    if nodes == [] then None
    else if nodes[0].id == id then Some(0)
    else
      match Find(nodes[1..], id)
      case None => assert forall k :: 0 < k < |nodes| ==> nodes[k] == nodes[1..][k - 1]; None
      case Some(i) => Some(i + 1)
  }

  /** Both rectangles are clear of every screen but `skip`. */
  predicate Clear(nodes: seq<OutputNode>, skip: Option<nat>, logical: Rect, physical: Rect) {
    forall i :: 0 <= i < |nodes| && nodes[i].owner.None? && Some(nodes[i].id) != skip ==>
      !RectsOverlap(logical, Logical(nodes[i])) && !RectsOverlap(physical, Physical(nodes[i]))
  }

  /** The rectangle lies on the screen's mode, `x` and `y` being relative to the screen. */
  predicate OnScreen(x: int, y: int, size: Size, mode: Size) {
    0 <= x && 0 <= y && x + size.w <= mode.w && y + size.h <= mode.h
  }

  /**
   The far corner as the code checks it: for a view at `(x, y)` of a screen at `(left, top)`, its
   offset and size added up in 32 bits.
   */
  predicate FarFits(x: I32, y: I32, left: I32, top: I32, size: Size, mode: Size) {
    Add(Sub(x, left), size.w) <= mode.w && Add(Sub(y, top), size.h) <= mode.h
  }

  // ----- requests

  /**
   A request with what it meets: `capacity` is how many outputs a captured host has, `backed`
   whether the GPU target could be had (or is not needed), `retargeted` whether a view's target
   was resized for its capture.
   */
  datatype Request =
    | CreateOutput(id: nat, w: I32, h: I32, x: I32, y: I32, scale: real, capacity: Option<nat>, backed: bool)
    | CreateView(id: nat, owner: nat, x: I32, y: I32, w: I32, h: I32, backed: bool)
    | Reposition(id: nat, x: I32, y: I32)
    | Destroy(id: nat)
    | Resize(id: nat, w: I32, h: I32, scale: real, backed: bool)
    | CaptureView(id: nat, size: Size, retargeted: bool)
    | StopCapture(id: nat)

  predicate Accepts(nodes: seq<OutputNode>, r: Request) {
    match r
    case CreateOutput(id, w, h, x, y, scale, capacity, backed) =>
      && Find(nodes, id).None? && w > 0 && h > 0 && scale > 0.0
      && (capacity.Some? ==> |nodes| < capacity.value)
      && Clear(nodes, None, At(x, y, Scaled(Size(w, h), scale)), Rect(x, y, w, h))
      && backed
    case CreateView(id, owner, x, y, w, h, backed) =>
      var o := Find(nodes, owner);
      && Find(nodes, id).None? && w > 0 && h > 0 && x >= 0 && y >= 0
      && o.Some? && nodes[o.value].owner.None?
      && Add(x, w) <= nodes[o.value].mode.w && Add(y, h) <= nodes[o.value].mode.h
      && backed
    case Reposition(id, x, y) => var i := Find(nodes, id); i.Some? && MayMove(nodes, i.value, x, y)
    case Destroy(id) => id != 0 && Find(nodes, id).Some?
    case Resize(id, w, h, scale, backed) =>
      var i := Find(nodes, id);
      && w > 0 && h > 0 && scale > 0.0 && i.Some? && nodes[i.value].owner.None?
      && (forall k :: 0 <= k < |nodes| && nodes[k].owner == Some(id) && nodes[k].capture.Some? ==>
            Fits(nodes[k], nodes[i.value], Size(w, h)))
      && (SameMode(nodes[i.value], w, h, scale) || backed)
    case CaptureView(id, size, retargeted) =>
      var i := Find(nodes, id);
      i.Some? && nodes[i.value].owner.Some?
    case StopCapture(id) => Find(nodes, id).Some?
  }

  /** A view may move on its screen, a screen to where it is clear of the others. */
  predicate MayMove(nodes: seq<OutputNode>, i: nat, x: I32, y: I32)
    requires i < |nodes|
  {
    var n := nodes[i];
    || (n.x, n.y) == (x, y)
    || (n.owner.Some? && MayMoveView(Base(nodes, n), n, x, y))
    || (n.owner.None? && Clear(nodes, Some(n.id), At(x, y, Scaled(n.mode, n.scale)), At(x, y, n.mode)))
  }

  predicate MayMoveView(base: (I32, I32), view: OutputNode, x: I32, y: I32) {
    base.0 <= x && base.1 <= y && FarFits(x, y, base.0, base.1, Extent(view), view.mode)
  }

  /** Where the screen a view is cut from stands. */
  function Base(nodes: seq<OutputNode>, view: OutputNode): (I32, I32) {
    if view.owner.None? then (0, 0)
    else
      match Find(nodes, view.owner.value)
      case None => (0, 0)
      case Some(o) => (nodes[o].x, nodes[o].y)
  }

  /** The far corner alone: what a resize looks at. */
  predicate Fits(view: OutputNode, screen: OutputNode, size: Size) {
    FarFits(view.x, view.y, screen.x, screen.y, Extent(view), size)
  }

  predicate SameMode(n: OutputNode, w: I32, h: I32, scale: real) {
    n.mode == Size(w, h) && -0.001 <= n.scale - scale <= 0.001
  }

  function Marked(n: OutputNode): OutputNode {
    n.(redraw := n.redraw || n.capture.Some?)
  }

  /** A node after `screen` moved to `(x, y)`: its views are carried along, in 32 bits too. */
  function Carried(n: OutputNode, screen: OutputNode, x: I32, y: I32): OutputNode {
    if n.id == screen.id then Marked(n.(x := x, y := y))
    else if n.owner == Some(screen.id) then
      Marked(n.(x := Sub(Add(n.x, x), screen.x), y := Sub(Add(n.y, y), screen.y)))
    else n
  }

  /** A node after the screen `id` took a new mode. */
  function Remoded(n: OutputNode, id: nat, size: Size, scale: Scale): OutputNode {
    if n.id == id then Marked(n.(mode := size, scale := scale, viewSize := size))
    else if n.owner == Some(id) then Marked(n.(mode := size, scale := scale))
    else n
  }

  function MoveAll(nodes: seq<OutputNode>, screen: OutputNode, x: I32, y: I32): (r: seq<OutputNode>)
    ensures |r| == |nodes|
  {
    seq(|nodes|, i requires 0 <= i < |nodes| => Carried(nodes[i], screen, x, y))
  }

  /** Node `i` moved to `(x, y)`: a view alone, a screen with its views. */
  function Moved(nodes: seq<OutputNode>, i: nat, x: I32, y: I32): (r: seq<OutputNode>)
    requires i < |nodes|
    ensures |r| == |nodes|
  {
    var n := nodes[i];
    if (n.x, n.y) == (x, y) then nodes
    else if n.owner.Some? then nodes[i := Marked(n.(x := x, y := y))]
    else MoveAll(nodes, n, x, y)
  }

  function RemodeAll(nodes: seq<OutputNode>, id: nat, size: Size, scale: Scale): (r: seq<OutputNode>)
    ensures |r| == |nodes|
  {
    seq(|nodes|, i requires 0 <= i < |nodes| => Remoded(nodes[i], id, size, scale))
  }

  /** Without `id` and its views. */
  function Without(nodes: seq<OutputNode>, id: nat): (r: seq<OutputNode>)
    ensures forall n :: n in r <==> n in nodes && n.id != id && n.owner != Some(id)
  {
    if nodes == [] then []
    else
      var last := nodes[|nodes| - 1];
      var front := Without(nodes[..|nodes| - 1], id);
      assert forall n :: n in nodes <==> n in nodes[..|nodes| - 1] || n == last;
      if last.id == id || last.owner == Some(id) then front else front + [last]
  }

  /** The node list after a request, refused ones changing nothing. */
  function After(nodes: seq<OutputNode>, r: Request): seq<OutputNode> {
    if !Accepts(nodes, r) then nodes
    else
      match r
      case CreateOutput(id, w, h, x, y, scale, _, _) =>
        nodes + [OutputNode(id, None, x, y, Size(w, h), scale, Size(w, h), None, false)]
      case CreateView(id, owner, x, y, w, h, _) =>
        var o := nodes[Find(nodes, owner).value];
        nodes + [OutputNode(id, Some(owner), Add(o.x, x), Add(o.y, y), o.mode, o.scale, Size(w, h), None, false)]
      case Reposition(id, x, y) => Moved(nodes, Find(nodes, id).value, x, y)
      case Destroy(id) => Without(nodes, id)
      case Resize(id, w, h, scale, _) =>
        if SameMode(nodes[Find(nodes, id).value], w, h, scale) then nodes
        else RemodeAll(nodes, id, Size(w, h), scale)
      case CaptureView(id, size, retargeted) =>
        var i := Find(nodes, id).value;
        nodes[i := nodes[i].(capture := Some(size), redraw := true,
                             viewSize := if retargeted then size else nodes[i].viewSize)]
      case StopCapture(id) =>
        var i := Find(nodes, id).value;
        nodes[i := nodes[i].(capture := None)]
  }

  // ----- what holds of the registry

  predicate Unique(nodes: seq<OutputNode>) {
    forall i, j :: 0 <= i < j < |nodes| ==> nodes[i].id != nodes[j].id
  }

  /** The view's screen is registered, is a screen, and lends the view its output. */
  predicate Owned(nodes: seq<OutputNode>, view: OutputNode)
    requires view.owner.Some?
  {
    var o := Find(nodes, view.owner.value);
    && o.Some? && nodes[o.value].owner.None?
    && view.mode == nodes[o.value].mode && view.scale == nodes[o.value].scale
  }

  predicate Registered(nodes: seq<OutputNode>) {
    && Unique(nodes)
    && Find(nodes, 0).Some? && nodes[Find(nodes, 0).value].owner.None?
    && forall n {:trigger Owned(nodes, n)} :: n in nodes && n.owner.Some? ==> Owned(nodes, n)
  }

  lemma FindUnique(nodes: seq<OutputNode>, i: nat)
    requires Unique(nodes) && i < |nodes|
    ensures Find(nodes, nodes[i].id) == Some(i)
  {
  }

  // ----- the code

  function ViewIds(nodes: seq<OutputNode>, id: nat): (ids: seq<nat>)
    ensures forall v :: v in ids <==> exists n :: n in nodes && n.owner == Some(id) && n.id == v
  {
    if nodes == [] then []
    else
      var last := nodes[|nodes| - 1];
      var front := ViewIds(nodes[..|nodes| - 1], id);
      assert forall n :: n in nodes <==> n in nodes[..|nodes| - 1] || n == last;
      if last.owner == Some(id) then front + [last.id] else front
  }

  /** Without the nodes of the ids. */
  function Drop(nodes: seq<OutputNode>, ids: set<nat>): (r: seq<OutputNode>)
    ensures forall n :: n in r <==> n in nodes && n.id !in ids
  {
    if nodes == [] then []
    else
      var last := nodes[|nodes| - 1];
      var front := Drop(nodes[..|nodes| - 1], ids);
      assert forall n :: n in nodes <==> n in nodes[..|nodes| - 1] || n == last;
      if last.id in ids then front else front + [last]
  }

  /** Without the first node of the id. */
  function Remove(nodes: seq<OutputNode>, id: nat): seq<OutputNode> {
    match Find(nodes, id)
    case None => nodes
    case Some(i) => nodes[..i] + nodes[i + 1..]
  }

  function Ids(views: seq<nat>): set<nat> {
    set v | v in views
  }

  datatype Flavor = LogicalRect | PhysicalRect

  datatype Overlap = Overlap(id: nat, flavor: Flavor, other: Rect)

  /** Node `i` is a screen the placement overlaps as `hit` says, and those before it are clear of it. */
  predicate FirstHit(nodes: seq<OutputNode>, i: int, skip: Option<nat>, logical: Rect, physical: Rect, hit: Overlap) {
    && 0 <= i < |nodes| && Clear(nodes[..i], skip, logical, physical)
    && nodes[i].owner.None? && nodes[i].id == hit.id && Some(hit.id) != skip
    && hit.other == (if hit.flavor.LogicalRect? then Logical(nodes[i]) else Physical(nodes[i]))
    && RectsOverlap(if hit.flavor.LogicalRect? then logical else physical, hit.other)
  }

  class AppState {
    var outputNodes: seq<OutputNode>

    constructor (width: I32, height: I32, backed: bool)
      ensures outputNodes == Initial(width, height, backed)
    {
      outputNodes := [OutputNode(0, None, 0, 0, Size(width, height), 1.0, Size(width, height), None, false)];
      new;
      var _ := CreateViewOn(DEFAULT_VIEW_ID, 0, 0, 0, width, height, backed);
    }

    /** The first screen but `skip` that a candidate placement overlaps. */
    method FindOutputOverlap(skip: Option<nat>, logical: Rect, physical: Rect) returns (hit: Option<Overlap>)
      ensures hit.None? <==> Clear(outputNodes, skip, logical, physical)
      ensures hit.Some? ==> exists i :: FirstHit(outputNodes, i, skip, logical, physical, hit.value)
    {
      for i := 0 to |outputNodes|
        invariant Clear(outputNodes[..i], skip, logical, physical)
      {
        var n := outputNodes[i];
        assert outputNodes[..i + 1][..i] == outputNodes[..i];
        if Some(n.id) == skip || n.owner.Some? {
          continue;
        }
        if RectsOverlap(logical, Logical(n)) {
          assert FirstHit(outputNodes, i, skip, logical, physical, Overlap(n.id, LogicalRect, Logical(n)));
          return Some(Overlap(n.id, LogicalRect, Logical(n)));
        }
        if RectsOverlap(physical, Physical(n)) {
          assert FirstHit(outputNodes, i, skip, logical, physical, Overlap(n.id, PhysicalRect, Physical(n)));
          return Some(Overlap(n.id, PhysicalRect, Physical(n)));
        }
      }
      assert outputNodes[..|outputNodes|] == outputNodes;
      return None;
    }

    method CreateOutputOn(id: nat, w: I32, h: I32, x: I32, y: I32, scale: real, capacity: Option<nat>, backed: bool) returns (ok: bool)
      modifies this
      ensures ok == Accepts(old(outputNodes), CreateOutput(id, w, h, x, y, scale, capacity, backed))
      ensures outputNodes == After(old(outputNodes), CreateOutput(id, w, h, x, y, scale, capacity, backed))
    {
      if Find(outputNodes, id).Some? || w <= 0 || h <= 0 || scale <= 0.0 {
        return false;
      }
      if capacity.Some? && |outputNodes| >= capacity.value {
        return false;
      }
      var hit := FindOutputOverlap(None, At(x, y, Scaled(Size(w, h), scale)), Rect(x, y, w, h));
      if hit.Some? || !backed {
        return false;
      }
      outputNodes := outputNodes + [OutputNode(id, None, x, y, Size(w, h), scale, Size(w, h), None, false)];
      ok := true;
    }

    method CreateViewOn(id: nat, owner: nat, x: I32, y: I32, w: I32, h: I32, backed: bool) returns (ok: bool)
      modifies this
      ensures ok == Accepts(old(outputNodes), CreateView(id, owner, x, y, w, h, backed))
      ensures outputNodes == After(old(outputNodes), CreateView(id, owner, x, y, w, h, backed))
    {
      if Find(outputNodes, id).Some? || w <= 0 || h <= 0 || x < 0 || y < 0 {
        return false;
      }
      var oidx := Find(outputNodes, owner);
      if oidx.None? || outputNodes[oidx.value].owner.Some? {
        return false;
      }
      var o := outputNodes[oidx.value];
      if Add(x, w) > o.mode.w || Add(y, h) > o.mode.h || !backed {
        return false;
      }
      outputNodes := outputNodes + [OutputNode(id, Some(owner), Add(o.x, x), Add(o.y, y), o.mode, o.scale, Size(w, h), None, false)];
      ok := true;
    }

    method RepositionOutputOn(id: nat, x: I32, y: I32) returns (ok: bool)
      requires Registered(outputNodes)
      modifies this
      ensures ok == Accepts(old(outputNodes), Reposition(id, x, y))
      ensures outputNodes == After(old(outputNodes), Reposition(id, x, y))
    {
      var found := Find(outputNodes, id);
      if found.None? {
        return false;
      }
      var idx := found.value;
      var n := outputNodes[idx];
      if (n.x, n.y) == (x, y) {
        return true;
      }
      if n.owner.Some? {
        var base := Base(outputNodes, n);
        var size := Extent(n);
        if x < base.0 || y < base.1 || Add(Sub(x, base.0), size.w) > n.mode.w || Add(Sub(y, base.1), size.h) > n.mode.h {
          return false;
        }
        outputNodes := outputNodes[idx := Marked(n.(x := x, y := y))];
        return true;
      }
      var hit := FindOutputOverlap(Some(id), At(x, y, Scaled(n.mode, n.scale)), At(x, y, n.mode));
      if hit.Some? {
        return false;
      }
      outputNodes := outputNodes[idx := n.(x := x, y := y)];
      ghost var placed := outputNodes;
      for i := 0 to |outputNodes|
        invariant |outputNodes| == |placed|
        invariant forall k :: 0 <= k < i ==>
          outputNodes[k] == if placed[k].owner == Some(id) then Carried(placed[k], n, x, y) else placed[k]
        invariant forall k :: i <= k < |placed| ==> outputNodes[k] == placed[k]
      {
        var v := outputNodes[i];
        if v.owner == Some(id) {
          outputNodes := outputNodes[i := Marked(v.(x := Sub(Add(v.x, x), n.x), y := Sub(Add(v.y, y), n.y)))];
        }
      }
      outputNodes := outputNodes[idx := Marked(outputNodes[idx])];
      ok := true;
    }

    method DestroyOutputOn(id: nat) returns (ok: bool)
      requires Registered(outputNodes)
      modifies this
      ensures ok == Accepts(old(outputNodes), Destroy(id))
      ensures outputNodes == After(old(outputNodes), Destroy(id))
    {
      if id == 0 || Find(outputNodes, id).None? {
        return false;
      }
      DestroyIsDrop(outputNodes, id);
      RemoveNodes(ViewIds(outputNodes, id));
      outputNodes := Remove(outputNodes, id);
      ok := true;
    }

    /** The views of a destroyed screen, one at a time. */
    method RemoveNodes(ids: seq<nat>)
      requires Unique(outputNodes)
      modifies this
      ensures outputNodes == Drop(old(outputNodes), Ids(ids))
    {
      ghost var was := outputNodes;
      DropNothing(was);
      assert Ids(ids[..0]) == {};
      for i := 0 to |ids|
        invariant outputNodes == Drop(was, Ids(ids[..i]))
      {
        DropMore(was, Ids(ids[..i]), ids[i]);
        assert Ids(ids[..i + 1]) == Ids(ids[..i]) + {ids[i]};
        outputNodes := Remove(outputNodes, ids[i]);
      }
      assert ids[..|ids|] == ids;
    }

    method ResizeOutputOn(id: nat, w: I32, h: I32, scale: real, backed: bool) returns (ok: bool)
      requires Registered(outputNodes)
      modifies this
      ensures ok == Accepts(old(outputNodes), Resize(id, w, h, scale, backed))
      ensures outputNodes == After(old(outputNodes), Resize(id, w, h, scale, backed))
    {
      if w <= 0 || h <= 0 || scale <= 0.0 {
        return false;
      }
      var found := Find(outputNodes, id);
      if found.None? || outputNodes[found.value].owner.Some? {
        return false;
      }
      var screen := outputNodes[found.value];
      for i := 0 to |outputNodes|
        invariant forall k :: 0 <= k < i && outputNodes[k].owner == Some(id) && outputNodes[k].capture.Some? ==>
          Fits(outputNodes[k], screen, Size(w, h))
      {
        var view := outputNodes[i];
        if view.owner == Some(id) && view.capture.Some? {
          if Add(Sub(view.x, screen.x), view.capture.value.w) > w || Add(Sub(view.y, screen.y), view.capture.value.h) > h {
            assert !Fits(outputNodes[i], screen, Size(w, h));
            return false;
          }
        }
      }
      if screen.mode == Size(w, h) && -0.001 <= screen.scale - scale <= 0.001 {
        return true;
      }
      if !backed {
        return false;
      }
      ghost var was := outputNodes;
      outputNodes := outputNodes[found.value := screen.(viewSize := Size(w, h))];
      ghost var placed := outputNodes;
      for i := 0 to |outputNodes|
        invariant |outputNodes| == |placed|
        invariant forall k :: 0 <= k < i ==> outputNodes[k] == Remoded(placed[k], id, Size(w, h), scale)
        invariant forall k :: i <= k < |placed| ==> outputNodes[k] == placed[k]
      {
        var n := outputNodes[i];
        if n.id == id || n.owner == Some(id) {
          outputNodes := outputNodes[i := Marked(n.(mode := Size(w, h), scale := scale))];
        }
      }
      ok := true;
    }
  }

  /** The view every desk starts with, covering its screen. */
  const DEFAULT_VIEW_ID: nat := 1

  function Initial(width: I32, height: I32, backed: bool): seq<OutputNode> {
    After([OutputNode(0, None, 0, 0, Size(width, height), 1.0, Size(width, height), None, false)],
          CreateView(DEFAULT_VIEW_ID, 0, 0, 0, width, height, backed))
  }

  lemma {:induction false} DropNothing(nodes: seq<OutputNode>)
    ensures Drop(nodes, {}) == nodes
  {
    if nodes != [] {
      DropNothing(nodes[..|nodes| - 1]);
    }
  }

  lemma {:induction false} RemoveLast(nodes: seq<OutputNode>, last: OutputNode, id: nat)
    ensures Remove(nodes + [last], id) ==
      if Find(nodes, id).Some? then Remove(nodes, id) + [last]
      else if last.id == id then nodes
      else nodes + [last]
  {
    FindLast(nodes, last, id);
    var found := Find(nodes, id);
    if found.Some? {
      assert (nodes + [last])[..found.value] == nodes[..found.value];
      assert (nodes + [last])[found.value + 1..] == nodes[found.value + 1..] + [last];
    } else if last.id == id {
      assert (nodes + [last])[..|nodes|] == nodes;
    }
  }

  /** Removing the node of an id from a filtered list filters it too. */
  lemma {:induction false} DropMore(nodes: seq<OutputNode>, ids: set<nat>, id: nat)
    requires Unique(nodes)
    ensures Drop(nodes, ids + {id}) == Remove(Drop(nodes, ids), id)
  {
    if nodes != [] {
      var front, last := nodes[..|nodes| - 1], nodes[|nodes| - 1];
      DropMore(front, ids, id);
      if last.id !in ids {
        RemoveLast(Drop(front, ids), last, id);
        if last.id == id {
          NotInFront(nodes, ids);
        }
      }
    }
  }

  lemma NotInFront(nodes: seq<OutputNode>, ids: set<nat>)
    requires Unique(nodes) && nodes != []
    ensures Find(Drop(nodes[..|nodes| - 1], ids), nodes[|nodes| - 1].id).None?
  {
    var front, last := nodes[..|nodes| - 1], nodes[|nodes| - 1];
    assert forall n :: n in Drop(front, ids) ==> n in front && n.id != last.id;
  }

  lemma {:induction false} FindLast(nodes: seq<OutputNode>, last: OutputNode, id: nat)
    ensures Find(nodes + [last], id) ==
      if Find(nodes, id).Some? then Find(nodes, id) else if last.id == id then Some(|nodes|) else None
  {
    if nodes != [] {
      assert (nodes + [last])[1..] == nodes[1..] + [last];
      FindLast(nodes[1..], last, id);
    }
  }

  lemma {:induction false} DropIsWithout(nodes: seq<OutputNode>, id: nat, ids: set<nat>)
    requires forall n :: n in nodes ==> (n.id in ids <==> n.id == id || n.owner == Some(id))
    ensures Drop(nodes, ids) == Without(nodes, id)
  {
    if nodes != [] {
      DropIsWithout(nodes[..|nodes| - 1], id, ids);
    }
  }

  /** What the code does step by step: the views are removed, and then their screen. */
  lemma DestroyIsDrop(nodes: seq<OutputNode>, id: nat)
    requires Registered(nodes) && id != 0 && Find(nodes, id).Some?
    ensures Accepts(nodes, Destroy(id))
    ensures After(nodes, Destroy(id)) == Remove(Drop(nodes, Ids(ViewIds(nodes, id))), id)
  {
    var views := ViewIds(nodes, id);
    DropMore(nodes, Ids(views), id);
    forall n | n in nodes ensures n.id in Ids(views) + {id} <==> n.id == id || n.owner == Some(id) {
      ViewOrNot(nodes, n, id);
    }
    DropIsWithout(nodes, id, Ids(views) + {id});
  }

  lemma ViewOrNot(nodes: seq<OutputNode>, n: OutputNode, id: nat)
    requires Unique(nodes) && n in nodes
    ensures n.id in ViewIds(nodes, id) <==> n.owner == Some(id)
  {
    if n.id in ViewIds(nodes, id) {
      var v :| v in nodes && v.owner == Some(id) && v.id == n.id;
      FindMember(nodes, v);
      FindMember(nodes, n);
    }
  }

  // ----- every sequence of requests

  function Run(nodes: seq<OutputNode>, requests: seq<Request>): seq<OutputNode> {
    if requests == [] then nodes
    else After(Run(nodes, requests[..|requests| - 1]), requests[|requests| - 1])
  }

  /** A node keeps its place in the search of a list that only grows at the end. */
  lemma FindInLonger(nodes: seq<OutputNode>, last: OutputNode)
    requires Registered(nodes) && Find(nodes, last.id).None?
    requires last.owner.Some? ==> Owned(nodes, last)
    ensures Registered(nodes + [last])
  {
    FindLast(nodes, last, 0);
    forall n | n in nodes + [last] && n.owner.Some? ensures Owned(nodes + [last], n) {
      FindLast(nodes, last, n.owner.value);
      assert Owned(nodes, n);
    }
  }

  /** Lists whose nodes differ in no id find the same places. */
  lemma {:induction false} FindAlike(a: seq<OutputNode>, b: seq<OutputNode>, id: nat)
    requires |a| == |b| && forall i :: 0 <= i < |a| ==> a[i].id == b[i].id
    ensures Find(a, id) == Find(b, id)
  {
    if a != [] {
      FindAlike(a[1..], b[1..], id);
    }
  }

  predicate SameOutput(a: OutputNode, b: OutputNode) {
    a.id == b.id && a.owner == b.owner && a.mode == b.mode && a.scale == b.scale
  }

  lemma SameOutputs(a: seq<OutputNode>, b: seq<OutputNode>)
    requires Registered(a)
    requires |a| == |b| && forall i :: 0 <= i < |a| ==> SameOutput(a[i], b[i])
    ensures Registered(b)
  {
    FindAlike(a, b, 0);
    forall n | n in b && n.owner.Some? ensures Owned(b, n) {
      var i :| 0 <= i < |b| && b[i] == n;
      assert Owned(a, a[i]);
      FindAlike(a, b, n.owner.value);
    }
  }

  lemma RemodedRegistered(nodes: seq<OutputNode>, id: nat, size: Size, scale: Scale)
    requires Registered(nodes) && Find(nodes, id).Some? && nodes[Find(nodes, id).value].owner.None?
    ensures Registered(RemodeAll(nodes, id, size, scale))
  {
    var b := RemodeAll(nodes, id, size, scale);
    FindAlike(nodes, b, 0);
    forall n | n in b && n.owner.Some? ensures Owned(b, n) {
      var i :| 0 <= i < |b| && b[i] == n;
      FindUnique(nodes, i);
      assert Owned(nodes, nodes[i]);
      FindAlike(nodes, b, n.owner.value);
      var o := Find(nodes, n.owner.value).value;
      assert b[o] == Remoded(nodes[o], id, size, scale) && n == Remoded(nodes[i], id, size, scale);
    }
  }

  lemma {:induction false} WithoutUnique(nodes: seq<OutputNode>, id: nat)
    requires Unique(nodes)
    ensures Unique(Without(nodes, id))
  {
    if nodes != [] {
      WithoutUnique(nodes[..|nodes| - 1], id);
    }
  }

  lemma FindMember(nodes: seq<OutputNode>, n: OutputNode)
    requires Unique(nodes) && n in nodes
    ensures Find(nodes, n.id).Some? && nodes[Find(nodes, n.id).value] == n
  {
    var i :| 0 <= i < |nodes| && nodes[i] == n;
    FindUnique(nodes, i);
  }

  lemma DestroyKeeps(nodes: seq<OutputNode>, id: nat)
    requires Registered(nodes) && id != 0
    ensures Registered(Without(nodes, id))
  {
    var left := Without(nodes, id);
    WithoutUnique(nodes, id);
    FindMember(left, nodes[Find(nodes, 0).value]);
    forall n | n in left && n.owner.Some? ensures Owned(left, n) {
      assert Owned(nodes, n);
      FindMember(left, nodes[Find(nodes, n.owner.value).value]);
    }
  }

  lemma AddKeeps(nodes: seq<OutputNode>, r: Request)
    requires Registered(nodes) && (r.CreateOutput? || r.CreateView?) && Accepts(nodes, r)
    ensures Registered(After(nodes, r))
  {
    FindInLonger(nodes, After(nodes, r)[|nodes|]);
  }

  lemma UpdateKeeps(nodes: seq<OutputNode>, i: nat, n: OutputNode)
    requires Registered(nodes) && i < |nodes| && SameOutput(nodes[i], n)
    ensures Registered(nodes[i := n])
  {
    SameOutputs(nodes, nodes[i := n]);
  }

  /** (a) to (c): ids stay unique, display 0 stays, and every view stays on a registered screen. */
  lemma StepKeepsRegistry(nodes: seq<OutputNode>, r: Request)
    requires Registered(nodes)
    ensures Registered(After(nodes, r))
  {
    if Accepts(nodes, r) {
      match r
      case CreateOutput(_, _, _, _, _, _, _, _) => AddKeeps(nodes, r);
      case CreateView(_, _, _, _, _, _, _) => AddKeeps(nodes, r);
      case Destroy(id) => DestroyKeeps(nodes, id);
      case Resize(id, w, h, scale, _) => RemodedRegistered(nodes, id, Size(w, h), scale);
      case Reposition(id, x, y) => SameOutputs(nodes, Moved(nodes, Find(nodes, id).value, x, y));
      case CaptureView(id, _, _) => UpdateKeeps(nodes, Find(nodes, id).value, After(nodes, r)[Find(nodes, id).value]);
      case StopCapture(id) => UpdateKeeps(nodes, Find(nodes, id).value, After(nodes, r)[Find(nodes, id).value]);
    }
  }

  /** Display 0 is the first node and a screen, with at most its view beside it. */
  lemma InitialRegistered(width: I32, height: I32, backed: bool)
    ensures Registered(Initial(width, height, backed))
  {
    StepKeepsRegistry([OutputNode(0, None, 0, 0, Size(width, height), 1.0, Size(width, height), None, false)],
                      CreateView(DEFAULT_VIEW_ID, 0, 0, 0, width, height, backed));
  }

  lemma {:induction false} RunsKeepRegistry(width: I32, height: I32, backed: bool, requests: seq<Request>)
    ensures Registered(Run(Initial(width, height, backed), requests))
  {
    if requests == [] {
      InitialRegistered(width, height, backed);
    } else {
      RunsKeepRegistry(width, height, backed, requests[..|requests| - 1]);
      StepKeepsRegistry(Run(Initial(width, height, backed), requests[..|requests| - 1]), requests[|requests| - 1]);
    }
  }

  // ----- logical sizes

  /** Where `q` units of `k` are `n`, the nearest whole number of them is near. */
  lemma NearestUnit(n: real, k: Scale, q: real, m: int)
    requires n == q * k && m as real <= q + 0.5 < m as real + 1.0
    ensures 0.0 - k <= 2.0 * (n - Units(k, m as real)) < k
  {
    ScaleUp(m as real - 0.5, q, k);
    ScaleUpLess(q, m as real + 0.5, k);
    assert (m as real - 0.5) * k == Units(k, m as real) - 0.5 * k;
    assert (m as real + 0.5) * k == Units(k, m as real) + 0.5 * k;
  }

  lemma ScaleUp(a: real, b: real, k: Scale)
    requires a <= b
    ensures a * k <= b * k
  {
  }

  lemma ScaleUpLess(a: real, b: real, k: Scale)
    requires a < b
    ensures a * k < b * k
  {
  }

  /** The logical side of a non-negative one, by its quotient. */
  lemma ScaledSide(n: I32, k: Scale)
    requires n >= 0
    ensures IsLogicalSide(n, k, Saturated(Rounded(n as real / k)))
  {
    var q := n as real / k;
    assert n as real == q * k;
    QuotientSign(n as real, q, k);
    var m := Rounded(q);
    assert m == (q + 0.5).Floor;
    NearestUnit(n as real, k, q, m);
    Beyond(n as real, q, k, I32_MAX as real + 0.5);
    TopOfRange(k);
  }

  lemma QuotientSign(n: real, q: real, k: Scale)
    requires n == q * k
    ensures n >= 0.0 <==> q >= 0.0
  {
    if q < 0.0 {
      ScaleUpLess(q, 0.0, k);
    } else {
      ScaleUp(0.0, q, k);
    }
  }

  /** Where a quotient lies beyond `top`, told by its product. */
  lemma Beyond(n: real, q: real, k: Scale, top: real)
    requires n == q * k
    ensures q >= top <==> n >= Units(k, top)
  {
    if q >= top {
      ScaleUp(top, q, k);
    } else {
      ScaleUpLess(q, top, k);
    }
  }

  lemma TopOfRange(k: Scale)
    ensures 2.0 * Units(k, I32_MAX as real + 0.5) == k * (2.0 * I32_MAX as real + 1.0)
    ensures 2.0 * Units(k, I32_MAX as real + 1.5) == k * (2.0 * I32_MAX as real + 1.0) + 2.0 * k
  {
  }

  /** A negative side is the opposite of its opposite's, but for the end of the coordinates. */
  lemma ScaledSideBelow(n: I32, k: Scale)
    requires n < 0
    ensures IsLogicalSide(n, k, Saturated(Rounded(n as real / k)))
  {
    var q := n as real / k;
    var p := 0.0 - q;
    assert n as real == q * k;
    QuotientSign(n as real, q, k);
    var m := (p + 0.5).Floor;
    assert Rounded(q) == -m && m >= 0;
    assert 0.0 - n as real == p * k;
    NearestUnit(0.0 - n as real, k, p, m);
    assert Units(k, (-m) as real) == 0.0 - Units(k, m as real);
    Beyond(0.0 - n as real, p, k, I32_MAX as real + 1.5);
    TopOfRange(k);
  }

  lemma UnitsApart(a: real, b: real, k: Scale)
    requires a + 1.0 <= b
    ensures Units(k, a) + k <= Units(k, b)
  {
    ScaleUp(a + 1.0, b, k);
  }

  /** Two multiples a unit apart are not both near the same number of pixels. */
  lemma OneIsNear(n: real, k: Scale, u: real, v: real)
    requires u + k <= v
    ensures !(Near(n, k, u) && Near(n, k, v))
  {
  }

  lemma OneMultiple(n: real, k: Scale, a: real, b: real)
    requires a + 1.0 <= b
    ensures !(Near(n, k, Units(k, a)) && Near(n, k, Units(k, b)))
  {
    UnitsApart(a, b, k);
    OneIsNear(n, k, Units(k, a), Units(k, b));
  }

  /** There is only one logical side. */
  lemma OneLogicalSide(n: I32, k: Scale, a: I32, b: I32)
    requires IsLogicalSide(n, k, a) && IsLogicalSide(n, k, b)
    ensures a == b
  {
    if a < b {
      OneMultiple(n as real, k, a as real, b as real);
    } else if b < a {
      OneMultiple(n as real, k, b as real, a as real);
    }
  }

  /** The size a mode has at a scale, exactly. */
  lemma LogicalSizeExactly(mode: Size, k: Scale, s: Size)
    ensures s == Scaled(mode, k) <==> IsLogicalSize(mode, k, s)
  {
    SideScaled(mode.w, k);
    SideScaled(mode.h, k);
    if IsLogicalSize(mode, k, s) {
      OneLogicalSide(mode.w, k, s.w, Scaled(mode, k).w);
      OneLogicalSide(mode.h, k, s.h, Scaled(mode, k).h);
    }
  }

  lemma SideScaled(n: I32, k: Scale)
    ensures IsLogicalSide(n, k, Saturated(Rounded(n as real / k)))
  {
    if n >= 0 {
      ScaledSide(n, k);
    } else {
      ScaledSideBelow(n, k);
    }
  }

  // ----- (d): screens share no point

  predicate Clashes(a: OutputNode, b: OutputNode) {
    RectsOverlap(Logical(a), Logical(b)) || RectsOverlap(Physical(a), Physical(b))
  }

  /** No two screens overlap, logically or physically. */
  predicate Apart(nodes: seq<OutputNode>) {
    forall i, j {:trigger Clashes(nodes[i], nodes[j])} ::
      0 <= i < |nodes| && 0 <= j < |nodes| && i != j && nodes[i].owner.None? && nodes[j].owner.None? ==> !Clashes(nodes[i], nodes[j])
  }

  lemma OverlapIsSymmetric(a: Rect, b: Rect)
    ensures RectsOverlap(a, b) == RectsOverlap(b, a)
  {
  }

  /** Replacing one screen keeps the screens apart exactly when its new rectangles are clear of the others. */
  lemma ReplacedApart(nodes: seq<OutputNode>, after: seq<OutputNode>, k: nat)
    requires Apart(nodes) && |after| == |nodes| && k < |nodes| && after[k].owner.None?
    requires forall i :: 0 <= i < |nodes| && i != k ==> nodes[i].id != nodes[k].id && after[i].owner == nodes[i].owner
    requires forall i :: 0 <= i < |nodes| && i != k && nodes[i].owner.None? ==> after[i] == nodes[i]
    ensures Apart(after) <==> Clear(nodes, Some(nodes[k].id), Logical(after[k]), Physical(after[k]))
  {
    forall i | 0 <= i < |nodes| && i != k && nodes[i].owner.None?
      ensures Clashes(after[i], after[k]) == Clashes(after[k], after[i]) == Clashes(after[k], nodes[i])
    {
      OverlapIsSymmetric(Logical(after[i]), Logical(after[k]));
      OverlapIsSymmetric(Physical(after[i]), Physical(after[k]));
    }
    assert Clear(nodes, Some(nodes[k].id), Logical(after[k]), Physical(after[k])) <==>
      forall i :: 0 <= i < |nodes| && i != k && nodes[i].owner.None? ==> !Clashes(after[k], nodes[i]);
  }

  /** A screen's move leaves the screens apart if and only if its new rectangles are clear, which is its check. */
  lemma MovedApart(nodes: seq<OutputNode>, k: nat, x: I32, y: I32)
    requires Unique(nodes) && Apart(nodes) && k < |nodes| && nodes[k].owner.None?
    ensures var n := nodes[k];
      Apart(MoveAll(nodes, n, x, y)) <==>
      Clear(nodes, Some(n.id), At(x, y, Scaled(n.mode, n.scale)), At(x, y, n.mode))
  {
    var moved := MoveAll(nodes, nodes[k], x, y);
    forall i | 0 <= i < |nodes| && i != k
      ensures nodes[i].id != nodes[k].id && moved[i].owner == nodes[i].owner
      ensures nodes[i].owner.None? ==> moved[i] == nodes[i]
    {
    }
    assert moved[k] == Marked(nodes[k].(x := x, y := y));
    ReplacedApart(nodes, moved, k);
  }

  lemma ViewMoveKeepsApart(nodes: seq<OutputNode>, k: nat, x: I32, y: I32)
    requires Apart(nodes) && k < |nodes| && nodes[k].owner.Some?
    ensures Apart(nodes[k := Marked(nodes[k].(x := x, y := y))])
  {
    SameScreensApart(nodes, nodes[k := Marked(nodes[k].(x := x, y := y))]);
  }

  lemma {:induction false} WithoutKeepsApart(nodes: seq<OutputNode>, id: nat)
    requires Apart(nodes)
    ensures Apart(Without(nodes, id))
  {
    if nodes != [] {
      var front, last := nodes[..|nodes| - 1], nodes[|nodes| - 1];
      WithoutKeepsApart(front, id);
      forall n | n in Without(front, id) && n.owner.None? && last.owner.None? ensures !Clashes(n, last) && !Clashes(last, n) {
        var i :| 0 <= i < |front| && front[i] == n;
        assert nodes[i] == n;
      }
    }
  }

  /** Views and what they capture have no part in it. */
  lemma SameScreensApart(a: seq<OutputNode>, b: seq<OutputNode>)
    requires Apart(a) && |a| == |b|
    requires forall i :: 0 <= i < |a| ==> a[i].owner == b[i].owner
    requires forall i :: 0 <= i < |a| && a[i].owner.None? ==> Logical(a[i]) == Logical(b[i]) && Physical(a[i]) == Physical(b[i])
    ensures Apart(b)
  {
    forall i, j | 0 <= i < |b| && 0 <= j < |b| && i != j && b[i].owner.None? && b[j].owner.None? ensures !Clashes(b[i], b[j]) {
      assert !Clashes(a[i], a[j]);
    }
  }

  lemma StepKeepsApart(nodes: seq<OutputNode>, r: Request)
    requires Registered(nodes) && Apart(nodes) && !r.Resize?
    ensures Apart(After(nodes, r))
  {
    if Accepts(nodes, r) {
      match r
      case CreateOutput(_, _, _, _, _, _, _, _) => CreateKeepsApart(nodes, r);
      case CreateView(_, _, _, _, _, _, _) =>
      case Destroy(id) => WithoutKeepsApart(nodes, id);
      case Reposition(id, x, y) =>
        RepositionKeepsApart(nodes, Find(nodes, id).value, x, y);
      case CaptureView(_, _, _) => SameScreensApart(nodes, After(nodes, r));
      case StopCapture(_) => SameScreensApart(nodes, After(nodes, r));
    }
  }

  lemma RepositionKeepsApart(nodes: seq<OutputNode>, k: nat, x: I32, y: I32)
    requires Unique(nodes) && Apart(nodes) && k < |nodes| && MayMove(nodes, k, x, y)
    ensures Apart(Moved(nodes, k, x, y))
  {
    var n := nodes[k];
    if (n.x, n.y) == (x, y) {
    } else if n.owner.None? {
      MovedApart(nodes, k, x, y);
    } else {
      ViewMoveKeepsApart(nodes, k, x, y);
    }
  }

  lemma CreateKeepsApart(nodes: seq<OutputNode>, r: Request)
    requires Apart(nodes) && r.CreateOutput? && Accepts(nodes, r)
    ensures Apart(After(nodes, r))
  {
    var made := After(nodes, r);
    var k := |nodes|;
    assert Logical(made[k]) == At(r.x, r.y, Scaled(Size(r.w, r.h), r.scale)) && Physical(made[k]) == Rect(r.x, r.y, r.w, r.h);
  }

  lemma {:induction false} RunsKeepApart(width: I32, height: I32, backed: bool, requests: seq<Request>)
    requires forall r :: r in requests ==> !r.Resize?
    ensures Apart(Run(Initial(width, height, backed), requests))
  {
    if requests != [] {
      var front := requests[..|requests| - 1];
      RunsKeepRegistry(width, height, backed, front);
      RunsKeepApart(width, height, backed, front);
      StepKeepsApart(Run(Initial(width, height, backed), front), requests[|requests| - 1]);
    }
  }

  lemma ApartShareNoPoint(nodes: seq<OutputNode>, i: nat, j: nat, px: int, py: int)
    requires Apart(nodes) && i < |nodes| && j < |nodes| && nodes[i].owner.None? && nodes[j].owner.None?
    ensures Holds(Logical(nodes[i]), px, py) && Holds(Logical(nodes[j]), px, py) ==> i == j
    ensures Holds(Physical(nodes[i]), px, py) && Holds(Physical(nodes[j]), px, py) ==> i == j
  {
    if i != j {
      assert !Clashes(nodes[i], nodes[j]);
      OverlapIsASharedPoint(Logical(nodes[i]), Logical(nodes[j]));
      OverlapIsASharedPoint(Physical(nodes[i]), Physical(nodes[j]));
    }
  }

  /**
   After any create, create-view, move and destroy requests no layout point lies in two screens:
   neither in the rectangles of `a` and `b`, what the screens' modes are at their scales, nor in
   those of the modes themselves.
   */
  lemma NoPointInTwoScreens(width: I32, height: I32, backed: bool, requests: seq<Request>, i: nat, j: nat, a: Size, b: Size, px: int, py: int)
    requires forall r :: r in requests ==> !r.Resize?
    requires var nodes := Run(Initial(width, height, backed), requests);
      && i < |nodes| && j < |nodes| && i != j && nodes[i].owner.None? && nodes[j].owner.None?
      && IsLogicalSize(nodes[i].mode, nodes[i].scale, a) && IsLogicalSize(nodes[j].mode, nodes[j].scale, b)
    ensures var n, m := Run(Initial(width, height, backed), requests)[i], Run(Initial(width, height, backed), requests)[j];
      && !(Holds(Rect(n.x, n.y, a.w, a.h), px, py) && Holds(Rect(m.x, m.y, b.w, b.h), px, py))
      && !(Holds(Rect(n.x, n.y, n.mode.w, n.mode.h), px, py) && Holds(Rect(m.x, m.y, m.mode.w, m.mode.h), px, py))
  {
    var nodes := Run(Initial(width, height, backed), requests);
    RunsKeepApart(width, height, backed, requests);
    ApartShareNoPoint(nodes, i, j, px, py);
    LogicalSizeExactly(nodes[i].mode, nodes[i].scale, a);
    LogicalSizeExactly(nodes[j].mode, nodes[j].scale, b);
  }

  /** The screen covers a point of one of the rectangles: of `logical` at its scale, or of `physical`. */
  ghost predicate Covers(n: OutputNode, logical: Rect, physical: Rect) {
    || (exists s: Size, px, py :: IsLogicalSize(n.mode, n.scale, s) && Holds(Rect(n.x, n.y, s.w, s.h), px, py) && Holds(logical, px, py))
    || (exists px, py :: Holds(Rect(n.x, n.y, n.mode.w, n.mode.h), px, py) && Holds(physical, px, py))
  }

  lemma CoversIsOverlap(n: OutputNode, logical: Rect, physical: Rect)
    requires n.owner.None?
    ensures Covers(n, logical, physical) <==> RectsOverlap(logical, Logical(n)) || RectsOverlap(physical, Physical(n))
  {
    var s := Scaled(n.mode, n.scale);
    LogicalSizeExactly(n.mode, n.scale, s);
    assert Logical(n) == Rect(n.x, n.y, s.w, s.h);
    OverlapIsASharedPoint(logical, Logical(n));
    OverlapIsASharedPoint(physical, Physical(n));
    if t: Size, px, py :| IsLogicalSize(n.mode, n.scale, t) && Holds(Rect(n.x, n.y, t.w, t.h), px, py) && Holds(logical, px, py) {
      LogicalSizeExactly(n.mode, n.scale, t);
      assert Holds(Logical(n), px, py);
    }
  }

  lemma ClearExactly(nodes: seq<OutputNode>, skip: Option<nat>, logical: Rect, physical: Rect)
    ensures Clear(nodes, skip, logical, physical) <==>
      forall n :: n in nodes && n.owner.None? && Some(n.id) != skip ==> !Covers(n, logical, physical)
  {
    forall n | n in nodes && n.owner.None?
      ensures Covers(n, logical, physical) <==> RectsOverlap(logical, Logical(n)) || RectsOverlap(physical, Physical(n))
    {
      CoversIsOverlap(n, logical, physical);
    }
    assert forall i :: 0 <= i < |nodes| ==> nodes[i] in nodes;
  }

  /**
   A screen is created exactly where its id is new, its geometry is positive, the host has room, its
   target is had, and no screen covers a point of what its mode is at its scale, or of its mode.
   */
  lemma CreateAcceptedExactly(nodes: seq<OutputNode>, r: Request, size: Size)
    requires r.CreateOutput? && r.scale > 0.0 && IsLogicalSize(Size(r.w, r.h), r.scale, size)
    ensures Accepts(nodes, r) <==>
      && (forall n :: n in nodes ==> n.id != r.id) && r.w > 0 && r.h > 0
      && (r.capacity.Some? ==> |nodes| < r.capacity.value) && r.backed
      && forall n :: n in nodes && n.owner.None? ==> !Covers(n, Rect(r.x, r.y, size.w, size.h), Rect(r.x, r.y, r.w, r.h))
  {
    LogicalSizeExactly(Size(r.w, r.h), r.scale, size);
    ClearExactly(nodes, None, Rect(r.x, r.y, size.w, size.h), Rect(r.x, r.y, r.w, r.h));
    assert forall i :: 0 <= i < |nodes| ==> nodes[i] in nodes;
  }

  /** And moved exactly to where no other screen does. */
  lemma MoveAcceptedExactly(nodes: seq<OutputNode>, k: nat, x: I32, y: I32, size: Size)
    requires Registered(nodes) && k < |nodes| && nodes[k].owner.None? && (nodes[k].x, nodes[k].y) != (x, y)
    requires IsLogicalSize(nodes[k].mode, nodes[k].scale, size)
    ensures var n := nodes[k];
      Accepts(nodes, Reposition(n.id, x, y)) <==>
      forall m :: m in nodes && m.owner.None? && m.id != n.id ==> !Covers(m, Rect(x, y, size.w, size.h), Rect(x, y, n.mode.w, n.mode.h))
  {
    var n := nodes[k];
    FindUnique(nodes, k);
    LogicalSizeExactly(n.mode, n.scale, size);
    ClearExactly(nodes, Some(n.id), Rect(x, y, size.w, size.h), Rect(x, y, n.mode.w, n.mode.h));
  }

  /** The screen `o` is the view's, and takes in all of it. */
  predicate TakesIn(o: OutputNode, r: Request)
    requires r.CreateView?
  {
    o.id == r.owner && o.owner.None? && 0 <= r.x && 0 <= r.y && r.x + r.w <= o.mode.w && r.y + r.h <= o.mode.h
  }

  /** Where its sums do not wrap, a view is created exactly with a new id, some size, and all of it on a registered screen. */
  lemma ViewAcceptedExactly(nodes: seq<OutputNode>, r: Request)
    requires Unique(nodes) && r.CreateView? && InRange(r.x + r.w) && InRange(r.y + r.h)
    ensures Accepts(nodes, r) <==>
      && (forall n :: n in nodes ==> n.id != r.id) && r.w > 0 && r.h > 0 && r.backed
      && exists o :: o in nodes && TakesIn(o, r)
  {
    assert forall i :: 0 <= i < |nodes| ==> nodes[i] in nodes;
    var found := Find(nodes, r.owner);
    if found.Some? {
      assert nodes[found.value] in nodes;
    }
    if o :| o in nodes && TakesIn(o, r) {
      FindMember(nodes, o);
    }
  }

  /** Display 0 alone is never destroyed; and a capture is told of exactly the nodes there are, a view's of views. */
  lemma OthersAcceptedExactly(nodes: seq<OutputNode>, id: nat, size: Size, retargeted: bool)
    requires Unique(nodes)
    ensures Accepts(nodes, Destroy(id)) <==> id != 0 && exists n :: n in nodes && n.id == id
    ensures Accepts(nodes, StopCapture(id)) <==> exists n :: n in nodes && n.id == id
    ensures Accepts(nodes, CaptureView(id, size, retargeted)) <==> exists n :: n in nodes && n.id == id && n.owner.Some?
  {
    var found := Find(nodes, id);
    if found.Some? {
      assert nodes[found.value] in nodes;
    }
    if n :| n in nodes && n.id == id {
      FindMember(nodes, n);
    }
    if n :| n in nodes && n.id == id && n.owner.Some? {
      FindMember(nodes, n);
    }
  }

  // ----- what a request changes

  /** The same node but for what a move or a new mode changes. */
  predicate SameIdentity(a: OutputNode, b: OutputNode) {
    a.id == b.id && a.owner == b.owner && a.capture == b.capture
  }

  /** A request adds the node it asks for and changes no other. */
  lemma {:induction false} CreateChanges(nodes: seq<OutputNode>, r: Request)
    requires (r.CreateOutput? || r.CreateView?) && Accepts(nodes, r)
    ensures var after := After(nodes, r);
      && |after| == |nodes| + 1 && after[..|nodes|] == nodes
      && var n := after[|nodes|];
         && n.id == r.id && n.capture.None? && n.viewSize == Size(r.w, r.h)
         && (r.CreateOutput? ==> n.owner.None? && (n.x, n.y) == (r.x, r.y) && n.mode == Size(r.w, r.h) && n.scale == r.scale)
         && (r.CreateView? ==>
               n.owner == Some(r.owner) &&
               forall o :: o in nodes && o.id == r.owner && Unique(nodes) ==>
                 && n.mode == o.mode && n.scale == o.scale
                 && (InRange(o.x + r.x) && InRange(o.y + r.y) ==> (n.x, n.y) == (o.x + r.x, o.y + r.y)))
  {
    if Unique(nodes) {
      forall o | o in nodes && r.CreateView? && o.id == r.owner ensures o == nodes[Find(nodes, r.owner).value] {
        FindMember(nodes, o);
      }
    }
  }

  /**
   An accepted move puts its node at `(x, y)`, and touches only it and the views of the screen it is.
   Whatever capture it moves is drawn in full.
   */
  lemma {:induction false} MoveChanges(nodes: seq<OutputNode>, r: Request, k: nat, i: nat)
    requires Registered(nodes) && r.Reposition? && Accepts(nodes, r) && k < |nodes| && nodes[k].id == r.id && i < |nodes|
    ensures var after := After(nodes, r);
      && |after| == |nodes| && SameIdentity(after[i], nodes[i])
      && after[i].mode == nodes[i].mode && after[i].scale == nodes[i].scale && after[i].viewSize == nodes[i].viewSize
      && (i == k ==> (after[i].x, after[i].y) == (r.x, r.y))
      && (i != k && (nodes[k].owner.Some? || nodes[i].owner != Some(r.id)) ==> after[i] == nodes[i])
      && (after[i].capture.Some? && (after[i].x, after[i].y) != (nodes[i].x, nodes[i].y) ==> after[i].redraw)
      && (nodes[i].redraw ==> after[i].redraw)
  {
    FindUnique(nodes, k);
    FindUnique(nodes, i);
    assert Moved(nodes, k, r.x, r.y) == After(nodes, r);
  }

  /** An accepted resize gives its mode and scale to the screen and its views, within a thousandth, and touches nothing else. */
  lemma {:induction false} ResizeChanges(nodes: seq<OutputNode>, r: Request, i: nat)
    requires Registered(nodes) && r.Resize? && Accepts(nodes, r) && i < |nodes|
    ensures var after := After(nodes, r);
      && |after| == |nodes| && SameIdentity(after[i], nodes[i]) && (after[i].x, after[i].y) == (nodes[i].x, nodes[i].y)
      && (nodes[i].id == r.id ==> after[i].mode == Size(r.w, r.h) && -0.001 <= after[i].scale - r.scale <= 0.001)
      && (nodes[i].id != r.id && nodes[i].owner != Some(r.id) ==> after[i] == nodes[i])
      && (after[i].capture.Some? && after[i].mode != nodes[i].mode ==> after[i].redraw)
      && (nodes[i].redraw ==> after[i].redraw)
  {
    FindUnique(nodes, i);
  }

  /** A destroyed node goes with its views, and no other. */
  lemma {:induction false} DestroyChanges(nodes: seq<OutputNode>, id: nat, n: OutputNode)
    requires Accepts(nodes, Destroy(id))
    ensures n in After(nodes, Destroy(id)) <==> n in nodes && n.id != id && n.owner != Some(id)
  {
  }

  /** A resize is accepted exactly where it is of a screen, its geometry is positive, every captured view's far corner fits, and its target is had if it needs one. */
  lemma {:induction false} ResizeAcceptedExactly(nodes: seq<OutputNode>, r: Request, k: nat)
    requires Registered(nodes) && ViewsInside(nodes, true) && r.Resize? && k < |nodes| && nodes[k].id == r.id
    ensures var n := nodes[k];
      Accepts(nodes, r) <==>
      && r.w > 0 && r.h > 0 && r.scale > 0.0 && n.owner.None?
      && (forall v :: v in nodes && v.owner == Some(r.id) && v.capture.Some? ==>
            v.x - n.x + v.capture.value.w <= r.w && v.y - n.y + v.capture.value.h <= r.h)
      && (r.backed || (n.mode == Size(r.w, r.h) && -0.001 <= n.scale - r.scale <= 0.001))
  {
    var n := nodes[k];
    FindUnique(nodes, k);
    forall v | v in nodes && v.owner == Some(r.id) && v.capture.Some?
      ensures Fits(v, n, Size(r.w, r.h)) <==> v.x - n.x + v.capture.value.w <= r.w && v.y - n.y + v.capture.value.h <= r.h
    {
      assert Owned(nodes, v) && Inside(nodes, v);
    }
    assert forall i :: 0 <= i < |nodes| ==> nodes[i] in nodes;
  }

  /**
   A resize is not checked against the other screens. One that changes the mode leaves the screens
   apart exactly when its new rectangles are clear of them.
   */
  lemma ResizeApart(nodes: seq<OutputNode>, r: Request)
    requires Registered(nodes) && Apart(nodes) && r.Resize? && Accepts(nodes, r)
    requires !SameMode(nodes[Find(nodes, r.id).value], r.w, r.h, r.scale)
    ensures var n := nodes[Find(nodes, r.id).value];
      Apart(After(nodes, r)) <==>
      Clear(nodes, Some(r.id), At(n.x, n.y, Scaled(Size(r.w, r.h), r.scale)), At(n.x, n.y, Size(r.w, r.h)))
  {
    var k := Find(nodes, r.id).value;
    var n := nodes[k];
    var after := RemodeAll(nodes, r.id, Size(r.w, r.h), r.scale);
    assert after == After(nodes, r);
    assert after[k] == Remoded(n, r.id, Size(r.w, r.h), r.scale);
    ReplacedApart(nodes, after, k);
  }

  // ----- views and their screens

  /** The view lies on its screen. */
  predicate Inside(nodes: seq<OutputNode>, view: OutputNode)
    requires view.owner.Some?
  {
    OnScreen(view.x - Base(nodes, view).0, view.y - Base(nodes, view).1, Extent(view), view.mode)
  }

  /** A view; or a captured one. */
  predicate Watched(n: OutputNode, capturedOnly: bool) {
    n.owner.Some? && (capturedOnly ==> n.capture.Some?)
  }

  /** Every view lies on its screen; or every one that is captured. */
  predicate ViewsInside(nodes: seq<OutputNode>, capturedOnly: bool) {
    forall n {:trigger Inside(nodes, n)} :: n in nodes && Watched(n, capturedOnly) ==> Inside(nodes, n)
  }

  /** The far corner of a view moved to `(x, y)`, relative to its screen, is a 32-bit number. */
  predicate FarCornerInRange(base: (I32, I32), x: I32, y: I32, size: Size) {
    InRange(x - base.0 + size.w) && InRange(y - base.1 + size.h)
  }

  /** The place a view is carried to by its screen's move is one. */
  predicate CarriedInRange(view: OutputNode, screen: OutputNode, x: I32, y: I32) {
    InRange(view.x + x - screen.x) && InRange(view.y + y - screen.y)
  }

  predicate MoveSumsFit(nodes: seq<OutputNode>, i: nat, x: I32, y: I32, capturedOnly: bool)
    requires i < |nodes|
  {
    var n := nodes[i];
    if (n.x, n.y) == (x, y) then true
    else if n.owner.Some? then Watched(n, capturedOnly) ==> FarCornerInRange(Base(nodes, n), x, y, Extent(n))
    else forall v :: v in nodes && v.owner == Some(n.id) && Watched(v, capturedOnly) ==> CarriedInRange(v, n, x, y)
  }

  /**
   The sums the code forms for a request it accepts do not wrap; and a capture is started on a
   rectangle of its view's screen, which the code leaves to whoever starts it.
   */
  predicate SumsFit(nodes: seq<OutputNode>, r: Request, capturedOnly: bool) {
    Accepts(nodes, r) ==>
      match r
      case CreateView(_, owner, x, y, w, h, _) =>
        var o := nodes[Find(nodes, owner).value];
        capturedOnly || (InRange(x + w) && InRange(y + h) && InRange(o.x + x) && InRange(o.y + y))
      case Reposition(id, x, y) => MoveSumsFit(nodes, Find(nodes, id).value, x, y, capturedOnly)
      case CaptureView(id, size, _) =>
        var n := nodes[Find(nodes, id).value];
        OnScreen(n.x - Base(nodes, n).0, n.y - Base(nodes, n).1, size, n.mode)
      case _ => true
  }

  /**
   A view's move is accepted and its sums do not wrap if and only if it is to a place on its
   screen. So only a wrapped sum is accepted wrongly, and nothing is refused wrongly.
   */
  lemma MoveAcceptedIffOnScreen(base: (I32, I32), view: OutputNode, x: I32, y: I32)
    ensures OnScreen(x - base.0, y - base.1, Extent(view), view.mode) <==>
      MayMoveView(base, view, x, y) && FarCornerInRange(base, x, y, Extent(view))
  {
  }

  /** The same of a view's creation, whose place in the layout is a sum as well. */
  lemma CreateAcceptedIffOnScreen(nodes: seq<OutputNode>, r: Request)
    requires r.CreateView? && Find(nodes, r.id).None? && r.w > 0 && r.h > 0 && r.backed
    requires Find(nodes, r.owner).Some? && nodes[Find(nodes, r.owner).value].owner.None?
    ensures OnScreen(r.x, r.y, Size(r.w, r.h), nodes[Find(nodes, r.owner).value].mode) <==>
      Accepts(nodes, r) && InRange(r.x + r.w) && InRange(r.y + r.h)
  {
  }

  lemma CreatedInside(nodes: seq<OutputNode>, r: Request)
    requires r.CreateView? && Accepts(nodes, r)
    ensures Inside(nodes, After(nodes, r)[|nodes|]) <==> SumsFit(nodes, r, false)
  {
    var o := nodes[Find(nodes, r.owner).value];
    assert Base(nodes, After(nodes, r)[|nodes|]) == (o.x, o.y);
  }

  /** View `i` has the size it had and is where it was on its screen. */
  predicate StaysOnScreen(nodes: seq<OutputNode>, after: seq<OutputNode>, i: nat)
    requires i < |nodes| == |after|
  {
    && after[i].owner == nodes[i].owner && Extent(after[i]) == Extent(nodes[i]) && after[i].mode == nodes[i].mode
    && after[i].x - Base(after, after[i]).0 == nodes[i].x - Base(nodes, nodes[i]).0
    && after[i].y - Base(after, after[i]).1 == nodes[i].y - Base(nodes, nodes[i]).1
  }

  lemma CarriedIffInRange(a: I32, x: I32, b: I32)
    ensures Sub(Add(a, x), b) - x == a - b <==> InRange(a + x - b)
    ensures !InRange(a + x - b) ==> Sub(Add(a, x), b) - x in {a - b - 0x1_0000_0000, a - b + 0x1_0000_0000}
  {
  }

  /**
   A move of a screen leaves every view where it was on its screen, and its size, if and only if
   the view's new place is a 32-bit number.
   */
  lemma MovingCarriesViews(nodes: seq<OutputNode>, k: nat, x: I32, y: I32, i: nat)
    requires Registered(nodes) && k < |nodes| && nodes[k].owner.None? && i < |nodes| && nodes[i].owner.Some?
    ensures nodes[i].owner == Some(nodes[k].id) ==>
      (StaysOnScreen(nodes, MoveAll(nodes, nodes[k], x, y), i) <==> CarriedInRange(nodes[i], nodes[k], x, y))
    ensures nodes[i].owner != Some(nodes[k].id) ==> StaysOnScreen(nodes, MoveAll(nodes, nodes[k], x, y), i)
  {
    var after := MoveAll(nodes, nodes[k], x, y);
    CarriedBase(nodes, k, x, y, i);
    CarriedIffInRange(nodes[i].x, x, nodes[k].x);
    CarriedIffInRange(nodes[i].y, y, nodes[k].y);
  }

  /** What a screen's move makes of view `i` and of its screen. */
  lemma CarriedBase(nodes: seq<OutputNode>, k: nat, x: I32, y: I32, i: nat)
    requires Registered(nodes) && k < |nodes| && nodes[k].owner.None? && i < |nodes| && nodes[i].owner.Some?
    ensures var after, n, v := MoveAll(nodes, nodes[k], x, y), nodes[k], nodes[i];
      && after[i].owner == v.owner && Extent(after[i]) == Extent(v) && after[i].mode == v.mode && after[i].capture == v.capture
      && if v.owner == Some(n.id) then
           && Base(nodes, v) == (n.x, n.y) && Base(after, after[i]) == (x, y)
           && (after[i].x, after[i].y) == (Sub(Add(v.x, x), n.x), Sub(Add(v.y, y), n.y))
         else
           Base(after, after[i]) == Base(nodes, v) && (after[i].x, after[i].y) == (v.x, v.y)
  {
    var after := MoveAll(nodes, nodes[k], x, y);
    assert Owned(nodes, nodes[i]);
    FindAlike(nodes, after, nodes[i].owner.value);
    FindUnique(nodes, i);
    FindUnique(nodes, k);
    var o := Find(nodes, nodes[i].owner.value).value;
    assert after[o] == Carried(nodes[o], nodes[k], x, y) && after[i] == Carried(nodes[i], nodes[k], x, y);
  }

  /** And one that was inside still is exactly then: a wrapped place is off any screen. */
  lemma CarriedInside(nodes: seq<OutputNode>, k: nat, x: I32, y: I32, i: nat)
    requires Registered(nodes) && k < |nodes| && nodes[k].owner.None? && i < |nodes| && nodes[i].owner.Some?
    requires Inside(nodes, nodes[i])
    ensures var after := MoveAll(nodes, nodes[k], x, y);
      && after[i].owner.Some? && after[i].capture == nodes[i].capture
      && (Inside(after, after[i]) <==> (nodes[i].owner == Some(nodes[k].id) ==> CarriedInRange(nodes[i], nodes[k], x, y)))
  {
    CarriedBase(nodes, k, x, y, i);
    CarriedIffInRange(nodes[i].x, x, nodes[k].x);
    CarriedIffInRange(nodes[i].y, y, nodes[k].y);
  }

  /** The same screens at the same places: a view unchanged among them is inside as before. */
  lemma InsideAlike(a: seq<OutputNode>, b: seq<OutputNode>, view: OutputNode)
    requires view.owner.Some? && Base(a, view) == Base(b, view)
    ensures Inside(a, view) <==> Inside(b, view)
  {
  }

  lemma AppendedInside(nodes: seq<OutputNode>, last: OutputNode, capturedOnly: bool)
    requires Registered(nodes) && ViewsInside(nodes, capturedOnly) && Find(nodes, last.id).None?
    requires last.owner.Some? ==> Owned(nodes, last)
    ensures ViewsInside(nodes + [last], capturedOnly) <==> (Watched(last, capturedOnly) ==> Inside(nodes, last))
  {
    var all := nodes + [last];
    forall n | n in all && n.owner.Some? ensures Inside(all, n) <==> Inside(nodes, n) {
      FindLast(nodes, last, n.owner.value);
      assert Owned(nodes, n);
      InsideAlike(nodes, all, n);
    }
    assert forall n :: n in all <==> n in nodes || n == last;
  }

  lemma DestroyKeepsInside(nodes: seq<OutputNode>, id: nat, capturedOnly: bool)
    requires Registered(nodes) && id != 0 && ViewsInside(nodes, capturedOnly)
    ensures ViewsInside(Without(nodes, id), capturedOnly)
  {
    var left := Without(nodes, id);
    WithoutUnique(nodes, id);
    forall n | n in left && Watched(n, capturedOnly) ensures Inside(left, n) {
      assert Owned(nodes, n);
      FindMember(left, nodes[Find(nodes, n.owner.value).value]);
      InsideAlike(nodes, left, n);
    }
  }

  /** A view changed, its output aside, is inside or not; the others stay. */
  lemma UpdatedInside(nodes: seq<OutputNode>, i: nat, n: OutputNode, capturedOnly: bool)
    requires Registered(nodes) && ViewsInside(nodes, capturedOnly) && i < |nodes| && SameOutput(nodes[i], n)
    requires n.owner.None? ==> n.x == nodes[i].x && n.y == nodes[i].y
    ensures ViewsInside(nodes[i := n], capturedOnly) <==> (Watched(n, capturedOnly) ==> Inside(nodes, n))
  {
    var after := nodes[i := n];
    assert after[i] in after;
    forall v | v in after && v.owner.Some? ensures (Inside(after, v) <==> Inside(nodes, v)) && (v == n || v in nodes) {
      var j :| 0 <= j < |after| && after[j] == v;
      assert Owned(nodes, nodes[j]);
      FindAlike(nodes, after, v.owner.value);
      InsideAlike(nodes, after, v);
      assert v == n || v == nodes[j];
    }
  }

  lemma MovedInside(nodes: seq<OutputNode>, k: nat, x: I32, y: I32, capturedOnly: bool)
    requires Registered(nodes) && ViewsInside(nodes, capturedOnly) && k < |nodes| && nodes[k].owner.None?
    ensures ViewsInside(MoveAll(nodes, nodes[k], x, y), capturedOnly) <==>
      forall v :: v in nodes && v.owner == Some(nodes[k].id) && Watched(v, capturedOnly) ==> CarriedInRange(v, nodes[k], x, y)
  {
    var after := MoveAll(nodes, nodes[k], x, y);
    forall j | 0 <= j < |nodes|
      ensures Watched(after[j], capturedOnly) <==> Watched(nodes[j], capturedOnly)
      ensures Watched(nodes[j], capturedOnly) ==>
        (Inside(after, after[j]) <==> (nodes[j].owner == Some(nodes[k].id) ==> CarriedInRange(nodes[j], nodes[k], x, y)))
    {
      if Watched(nodes[j], capturedOnly) {
        assert Inside(nodes, nodes[j]);
        CarriedInside(nodes, k, x, y, j);
      }
    }
    assert forall j :: 0 <= j < |nodes| ==> after[j] in after && nodes[j] in nodes;
  }

  /** The new mode holds every captured view: the near edges were inside already, the far ones are checked. */
  lemma ResizeKeepsInside(nodes: seq<OutputNode>, r: Request)
    requires Registered(nodes) && ViewsInside(nodes, true) && r.Resize? && Accepts(nodes, r)
    ensures ViewsInside(RemodeAll(nodes, r.id, Size(r.w, r.h), r.scale), true)
  {
    var after := RemodeAll(nodes, r.id, Size(r.w, r.h), r.scale);
    forall v | v in after && Watched(v, true) ensures Inside(after, v) {
      var j :| 0 <= j < |after| && after[j] == v;
      FindAlike(nodes, after, v.owner.value);
      FindUnique(nodes, j);
      assert Owned(nodes, nodes[j]) && Inside(nodes, nodes[j]);
      ResizedView(nodes, r, j);
    }
  }

  lemma ResizedView(nodes: seq<OutputNode>, r: Request, j: nat)
    requires Registered(nodes) && r.Resize? && Accepts(nodes, r) && j < |nodes| && Watched(nodes[j], true)
    requires nodes[j].id != r.id && Inside(nodes, nodes[j]) && Owned(nodes, nodes[j])
    ensures var v := Remoded(nodes[j], r.id, Size(r.w, r.h), r.scale);
      OnScreen(v.x - Base(nodes, nodes[j]).0, v.y - Base(nodes, nodes[j]).1, Extent(v), v.mode)
  {
    if nodes[j].owner == Some(r.id) {
      assert Fits(nodes[j], nodes[Find(nodes, r.id).value], Size(r.w, r.h));
    }
  }

  lemma RepositionedInside(nodes: seq<OutputNode>, after: seq<OutputNode>, i: nat, x: I32, y: I32, capturedOnly: bool)
    requires Registered(nodes) && ViewsInside(nodes, capturedOnly) && i < |nodes| && MayMove(nodes, i, x, y)
    requires after == Moved(nodes, i, x, y)
    ensures ViewsInside(after, capturedOnly) <==> MoveSumsFit(nodes, i, x, y, capturedOnly)
  {
    var n := nodes[i];
    if (n.x, n.y) == (x, y) {
      assert after == nodes;
    } else if n.owner.Some? {
      var moved := Marked(n.(x := x, y := y));
      MoveAcceptedIffOnScreen(Base(nodes, n), n, x, y);
      assert Base(nodes, moved) == Base(nodes, n);
      UpdatedInside(nodes, i, moved, capturedOnly);
    } else {
      MovedInside(nodes, i, x, y, capturedOnly);
    }
  }

  /**
   Views stay on their screens exactly where the sums fit: the captured ones through every
   request, and all of them where no screen is resized and no capture stopped.
   */
  lemma StepInsideExactly(nodes: seq<OutputNode>, r: Request, capturedOnly: bool)
    requires Registered(nodes) && ViewsInside(nodes, capturedOnly)
    requires !capturedOnly ==> !r.Resize? && !r.StopCapture?
    ensures ViewsInside(After(nodes, r), capturedOnly) <==> SumsFit(nodes, r, capturedOnly)
  {
    if Accepts(nodes, r) {
      match r
      case CreateOutput(_, _, _, _, _, _, _, _) => AppendedInside(nodes, After(nodes, r)[|nodes|], capturedOnly);
      case CreateView(_, _, _, _, _, _, _) => CreatedInside(nodes, r); AppendedInside(nodes, After(nodes, r)[|nodes|], capturedOnly);
      case Reposition(id, x, y) => RepositionedInside(nodes, After(nodes, r), Find(nodes, id).value, x, y, capturedOnly);
      case Destroy(id) => DestroyKeepsInside(nodes, id, capturedOnly);
      case Resize(_, _, _, _, _) => ResizeKeepsInside(nodes, r);
      case CaptureView(_, _, _) => UpdatedInside(nodes, Find(nodes, r.id).value, After(nodes, r)[Find(nodes, r.id).value], capturedOnly);
      case StopCapture(id) => UpdatedInside(nodes, Find(nodes, id).value, After(nodes, r)[Find(nodes, id).value], capturedOnly);
    }
  }

  /** The sums of every request fit, where it comes. */
  predicate AllSumsFit(nodes: seq<OutputNode>, requests: seq<Request>, capturedOnly: bool) {
    requests == [] ||
    var front := requests[..|requests| - 1];
    AllSumsFit(nodes, front, capturedOnly) && SumsFit(Run(nodes, front), requests[|requests| - 1], capturedOnly)
  }

  /** The views are inside after every one of the requests. */
  predicate InsideThroughout(nodes: seq<OutputNode>, requests: seq<Request>, capturedOnly: bool) {
    && ViewsInside(Run(nodes, requests), capturedOnly)
    && (requests == [] || InsideThroughout(nodes, requests[..|requests| - 1], capturedOnly))
  }

  /** In every run: the views lie on their screens throughout if and only if every request's sums fit. */
  lemma {:induction false} RunsInsideExactly(width: I32, height: I32, backed: bool, requests: seq<Request>, capturedOnly: bool)
    requires !capturedOnly ==> forall r :: r in requests ==> !r.Resize? && !r.StopCapture?
    ensures var start := Initial(width, height, backed);
      InsideThroughout(start, requests, capturedOnly) <==> AllSumsFit(start, requests, capturedOnly)
  {
    var start := Initial(width, height, backed);
    if requests == [] {
      InitialInside(width, height, backed, capturedOnly);
    } else {
      var front, last := requests[..|requests| - 1], requests[|requests| - 1];
      RunsInsideExactly(width, height, backed, front, capturedOnly);
      if InsideThroughout(start, front, capturedOnly) {
        RunsKeepRegistry(width, height, backed, front);
        StepInsideExactly(Run(start, front), last, capturedOnly);
      }
    }
  }

  lemma InitialInside(width: I32, height: I32, backed: bool, capturedOnly: bool)
    ensures ViewsInside(Initial(width, height, backed), capturedOnly)
  {
  }

  /** The screen of a desk of 1920 by 1080, and its default view at `x`. */
  const DESK := OutputNode(0, None, 0, 0, Size(1920, 1080), 1.0, Size(1920, 1080), None, false)

  function DefaultView(x: I32, capture: Option<Size>, redraw: bool): OutputNode {
    OutputNode(DEFAULT_VIEW_ID, Some(0), x, 0, Size(1920, 1080), 1.0, Size(1920, 1080), capture, redraw)
  }

  lemma FindInPair(a: OutputNode, b: OutputNode, id: nat)
    ensures Find([a], id) == if a.id == id then Some(0) else None
    ensures Find([a, b], id) == if a.id == id then Some(0) else if b.id == id then Some(1) else None
  {
    FindLast([], a, id);
    assert [] + [a] == [a];
    FindLast([a], b, id);
    assert [a] + [b] == [a, b];
  }

  lemma DefaultDesk()
    ensures Initial(1920, 1080, true) == [DESK, DefaultView(0, None, false)]
  {
    FindInPair(DESK, DESK, 0);
    FindInPair(DESK, DESK, DEFAULT_VIEW_ID);
    var create := CreateView(DEFAULT_VIEW_ID, 0, 0, 0, 1920, 1080, true);
    assert Accepts([DESK], create);
    assert After([DESK], create) == [DESK] + [DefaultView(0, None, false)];
  }

  lemma RunOne(nodes: seq<OutputNode>, r: Request)
    ensures Run(nodes, [r]) == After(nodes, r)
  {
    assert [r][..0] == [];
    assert Run(nodes, []) == nodes;
  }

  lemma CaptureDefault()
    ensures After([DESK, DefaultView(0, None, false)], CaptureView(DEFAULT_VIEW_ID, Size(1920, 1080), false)) ==
      [DESK, DefaultView(0, Some(Size(1920, 1080)), true)]
  {
    FindInPair(DESK, DefaultView(0, None, false), DEFAULT_VIEW_ID);
    assert [DESK, DefaultView(0, None, false)][1 := DefaultView(0, Some(Size(1920, 1080)), true)] ==
      [DESK, DefaultView(0, Some(Size(1920, 1080)), true)];
  }

  lemma DefaultCaptured()
    ensures Run(Initial(1920, 1080, true), [CaptureView(DEFAULT_VIEW_ID, Size(1920, 1080), false)]) ==
      [DESK, DefaultView(0, Some(Size(1920, 1080)), true)]
  {
    DefaultDesk();
    CaptureDefault();
    RunOne(Initial(1920, 1080, true), CaptureView(DEFAULT_VIEW_ID, Size(1920, 1080), false));
  }

  /**
   A move whose sum wraps: the default view, captured, is taken to the end of the coordinates. It
   is accepted, and then lies off its screen.
   */
  lemma FarMoveIsAccepted()
    ensures var desk := Run(Initial(1920, 1080, true), [CaptureView(DEFAULT_VIEW_ID, Size(1920, 1080), false)]);
      Accepts(desk, Reposition(DEFAULT_VIEW_ID, 2147483647, 0)) &&
      !ViewsInside(After(desk, Reposition(DEFAULT_VIEW_ID, 2147483647, 0)), true)
  {
    DefaultCaptured();
    var view := DefaultView(0, Some(Size(1920, 1080)), true);
    var far := DefaultView(2147483647, Some(Size(1920, 1080)), true);
    var desk := [DESK, view];
    FindInPair(DESK, view, DEFAULT_VIEW_ID);
    FindInPair(DESK, view, 0);
    assert MayMoveView((0, 0), view, 2147483647, 0);
    assert MayMove(desk, 1, 2147483647, 0);
    assert Moved(desk, 1, 2147483647, 0) == desk[1 := far] == [DESK, far];
    OffScreen(far);
  }

  lemma OffScreen(view: OutputNode)
    requires view.owner == Some(0) && view.capture.Some? && view.x - 0 + Extent(view).w > view.mode.w && view.id != 0
    ensures !ViewsInside([DESK, view], true)
  {
    FindInPair(DESK, view, 0);
    var nodes := [DESK, view];
    assert nodes[1] in nodes && Watched(view, true) && !Inside(nodes, view);
  }

  // ----- a resize that makes screens overlap

  function Screen(id: nat, x: I32, w: I32): OutputNode {
    OutputNode(id, None, x, 0, Size(w, 100), 1.0, Size(w, 100), None, false)
  }

  lemma ScreenRects(id: nat, x: I32, w: I32)
    requires w >= 0
    ensures Scaled(Size(w, 100), 1.0) == Size(w, 100)
    ensures Logical(Screen(id, x, w)) == Rect(x, 0, w, 100) == Physical(Screen(id, x, w))
  {
    assert w as real / 1.0 == w as real && 100 as real / 1.0 == 100.0;
    assert (w as real + 0.5).Floor == w;
  }

  /** Two screens of 100 by 100 side by side, as created. */
  lemma SideBySide()
    ensures Run(Initial(100, 100, false), [CreateOutput(2, 100, 100, 100, 0, 1.0, None, true)]) == [Screen(0, 0, 100), Screen(2, 100, 100)]
  {
    var first, create := Screen(0, 0, 100), CreateOutput(2, 100, 100, 100, 0, 1.0, None, true);
    FindInPair(first, first, DEFAULT_VIEW_ID);
    assert Initial(100, 100, false) == [first];
    FindInPair(first, first, 2);
    ScreenRects(0, 0, 100);
    assert Accepts([first], create);
    assert After([first], create) == [first] + [Screen(2, 100, 100)];
    RunOne([first], create);
  }

  /** Widening the first over the second is accepted, and they overlap. */
  lemma ResizeCanOverlap()
    ensures var nodes := Run(Initial(100, 100, false), [CreateOutput(2, 100, 100, 100, 0, 1.0, None, true)]);
      Apart(nodes) && Accepts(nodes, Resize(0, 200, 100, 1.0, true)) && !Apart(After(nodes, Resize(0, 200, 100, 1.0, true)))
  {
    SideBySide();
    RunsKeepApart(100, 100, false, [CreateOutput(2, 100, 100, 100, 0, 1.0, None, true)]);
    RunsKeepRegistry(100, 100, false, [CreateOutput(2, 100, 100, 100, 0, 1.0, None, true)]);
    var a, b, resize := Screen(0, 0, 100), Screen(2, 100, 100), Resize(0, 200, 100, 1.0, true);
    FindInPair(a, b, 0);
    ScreenRects(2, 100, 100);
    ResizeAccepted(a, b, resize);
    ResizeApart([a, b], resize);
    assert [a, b][1].id == 2 && RectsOverlap(Rect(0, 0, 200, 100), Physical([a, b][1]));
  }

  lemma ResizeAccepted(a: OutputNode, b: OutputNode, r: Request)
    requires r.Resize? && r.w > 0 && r.h > 0 && r.scale > 0.0 && r.backed && a.id == r.id && a.owner.None? && b.owner.None?
    ensures Accepts([a, b], r)
  {
    FindInPair(a, b, r.id);
  }

  /** A capture started or stopped touches its node alone, and of it the capture, drawn in full at first. */
  lemma {:induction false} CaptureChanges(nodes: seq<OutputNode>, r: Request, i: nat)
    requires Unique(nodes) && (r.CaptureView? || r.StopCapture?) && Accepts(nodes, r) && i < |nodes|
    ensures var after := After(nodes, r);
      && |after| == |nodes|
      && (nodes[i].id != r.id ==> after[i] == nodes[i])
      && (nodes[i].id == r.id ==>
            && after[i].id == r.id && after[i].owner == nodes[i].owner && (after[i].x, after[i].y) == (nodes[i].x, nodes[i].y)
            && after[i].mode == nodes[i].mode && after[i].scale == nodes[i].scale
            && (r.StopCapture? ==> after[i].capture == None && after[i].viewSize == nodes[i].viewSize)
            && (r.CaptureView? ==> after[i].capture == Some(r.size) && after[i].redraw)
            && (r.CaptureView? ==> after[i].viewSize == if r.retargeted then r.size else nodes[i].viewSize))
  {
    FindUnique(nodes, i);
  }
}
