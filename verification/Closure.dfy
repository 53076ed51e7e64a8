/**
 The packages a build links: a worklist over the resolved dependency graph that follows only edges
 with a normal dependency kind, against reachability by paths.
 */
module Closure {
  import opened Options

  type PackageId = string

  /** A dependency edge; a kind is None for a normal dependency, else "build" or "dev". */
  datatype Dep = Dep(pkg: PackageId, kinds: seq<Option<string>>)

  /** What cargo resolved: the packages it knows, the edges of each node, and the root. */
  datatype Meta = Meta(packages: set<PackageId>, nodes: map<PackageId, seq<Dep>>, root: Option<PackageId>)

  /** `Failed` where the source exits or raises: no root, or an id that no node or no package has. */
  datatype Outcome = Failed | Packages(ids: set<PackageId>)

  predicate Normal(d: Dep) {
    exists k :: k in d.kinds && k == None
  }

  /** A normal edge from `a` to `b`. */
  ghost predicate Edge(m: Meta, a: PackageId, b: PackageId) {
    a in m.nodes && exists d :: d in m.nodes[a] && d.pkg == b && None in d.kinds
  }

  ghost predicate IsPath(m: Meta, path: seq<PackageId>) {
    path != [] && forall i :: 0 < i < |path| ==> Edge(m, path[i - 1], path[i])
  }

  ghost predicate Reaches(m: Meta, a: PackageId, b: PackageId) {
    exists path :: IsPath(m, path) && path[0] == a && path[|path| - 1] == b
  }

  lemma ReachesSelf(m: Meta, a: PackageId)
    ensures Reaches(m, a, a)
  {
    assert IsPath(m, [a]);
  }

  lemma ReachesStep(m: Meta, a: PackageId, b: PackageId, c: PackageId)
    requires Reaches(m, a, b) && Edge(m, b, c)
    ensures Reaches(m, a, c)
  {
    var path :| IsPath(m, path) && path[0] == a && path[|path| - 1] == b;
    var longer := path + [c];
    assert IsPath(m, longer);
    assert longer[0] == a && longer[|longer| - 1] == c;
  }

  /** A set that holds the start of a path and every edge out of it holds the path. */
  lemma {:induction false} ClosedHoldsPath(m: Meta, closed: set<PackageId>, path: seq<PackageId>)
    requires IsPath(m, path) && path[0] in closed
    requires forall a, b :: a in closed && Edge(m, a, b) ==> b in closed
    ensures path[|path| - 1] in closed
  {
    if |path| > 1 {
      var front := path[..|path| - 1];
      assert IsPath(m, front) by {
        forall i | 0 < i < |front| ensures Edge(m, front[i - 1], front[i]) {
          assert Edge(m, path[i - 1], path[i]);
        }
      }
      ClosedHoldsPath(m, closed, front);
      assert Edge(m, path[|path| - 2], path[|path| - 1]);
    }
  }

  /** Every id the graph mentions. */
  ghost function Mentioned(m: Meta, root: PackageId): set<PackageId> {
    {root} + set a, i | a in m.nodes && 0 <= i < |m.nodes[a]| :: m.nodes[a][i].pkg
  }

  ghost predicate Distinct(s: seq<PackageId>) {
    forall i, j :: 0 <= i < j < |s| ==> s[i] != s[j]
  }

  ghost predicate Leads(deps: seq<Dep>, x: PackageId) {
    exists d :: d in deps && d.pkg == x && Normal(d)
  }

  lemma LeadsSnoc(deps: seq<Dep>, d: Dep, x: PackageId)
    ensures Leads(deps + [d], x) <==> Leads(deps, x) || (d.pkg == x && Normal(d))
  {
    assert d in deps + [d];
    assert forall e :: e in deps + [d] <==> e in deps || e == d;
  }

  /** The body of the worklist loop: what normal edges lead to is seen, and stacked if it was not. */
  method Visit(deps: seq<Dep>, seen: set<PackageId>, stack: seq<PackageId>)
    returns (seenAfter: set<PackageId>, stackAfter: seq<PackageId>)
    requires Distinct(stack) && forall x :: x in stack ==> x in seen
    ensures forall x :: x in seenAfter <==> x in seen || Leads(deps, x)
    ensures forall x :: x in stackAfter <==> x in stack || (x in seenAfter && x !in seen)
    ensures Distinct(stackAfter)
    ensures seenAfter == seen ==> stackAfter == stack
  {
    seenAfter, stackAfter := seen, stack;
    for i := 0 to |deps|
      invariant seen <= seenAfter
      invariant forall x :: x in seenAfter <==> x in seen || Leads(deps[..i], x)
      invariant forall x :: x in stackAfter <==> x in stack || (x in seenAfter && x !in seen)
      invariant Distinct(stackAfter)
      invariant seenAfter == seen ==> stackAfter == stack
    {
      var dep := deps[i];
      assert deps[..i + 1] == deps[..i] + [dep];
      forall x {
        LeadsSnoc(deps[..i], dep, x);
      }
      if Normal(dep) && dep.pkg !in seenAfter {
        seenAfter := seenAfter + {dep.pkg};
        stackAfter := stackAfter + [dep.pkg];
      }
    }
    assert deps[..|deps|] == deps;
  }

  /** What the worklist loop keeps: ids seen are reachable, and those off the stack are done. */
  ghost predicate Progress(m: Meta, root: PackageId, seen: set<PackageId>, stack: seq<PackageId>) {
    && root in seen && seen <= Mentioned(m, root)
    && Distinct(stack)
    && (forall x :: x in stack ==> x in seen)
    && (forall x :: x in seen ==> Reaches(m, root, x))
    && (forall a :: a in seen && a !in stack ==> a in m.nodes)
    && (forall a, b :: a in seen && a !in stack && Edge(m, a, b) ==> b in seen)
  }

  lemma VisitProgresses(m: Meta, root: PackageId, seen: set<PackageId>, stack: seq<PackageId>,
                        seenAfter: set<PackageId>, stackAfter: seq<PackageId>)
    requires Progress(m, root, seen, stack) && stack != []
    requires stack[|stack| - 1] in m.nodes
    requires var deps := m.nodes[stack[|stack| - 1]];
             && (forall x :: x in seenAfter <==> x in seen || Leads(deps, x))
             && (forall x :: x in stackAfter <==> x in stack[..|stack| - 1] || (x in seenAfter && x !in seen))
    requires Distinct(stackAfter)
    ensures Progress(m, root, seenAfter, stackAfter)
  {
    var id := stack[|stack| - 1];
    var deps := m.nodes[id];
    forall x ensures Leads(deps, x) <==> Edge(m, id, x) {
    }
    forall x | x in seenAfter ensures Reaches(m, root, x) && x in Mentioned(m, root) {
      if x !in seen {
        ReachesStep(m, root, id, x);
        var d :| d in deps && d.pkg == x && Normal(d);
        var i :| 0 <= i < |deps| && deps[i] == d;
        assert m.nodes[id][i].pkg == x;
      }
    }
    forall a | a in seenAfter && a !in stackAfter
      ensures a == id || (a in seen && a !in stack)
    {
      assert a in stack ==> a == id;
    }
  }

  /** Once nothing is stacked, what is seen is what is reachable. */
  lemma DoneIsReachable(m: Meta, root: PackageId, seen: set<PackageId>, x: PackageId)
    requires Progress(m, root, seen, [])
    ensures x in seen <==> Reaches(m, root, x)
  {
    if Reaches(m, root, x) {
      var path :| IsPath(m, path) && path[0] == root && path[|path| - 1] == x;
      ClosedHoldsPath(m, seen, path);
    }
  }

  /**
   Exactly the packages reachable from the root over normal edges; it fails where there is no
   root, or where one of those has no node or no package.
   */
  method NormalClosure(m: Meta) returns (r: Outcome)
    ensures r.Packages? ==>
              m.root.Some? && forall x :: x in r.ids <==> Reaches(m, m.root.value, x)
    ensures r.Failed? <==>
              m.root.None? || exists x :: Reaches(m, m.root.value, x) && (x !in m.nodes || x !in m.packages)
  {
    if m.root.None? {
      return Failed;
    }
    var root := m.root.value;
    ReachesSelf(m, root);
    var seen, stack := {root}, [root];
    while stack != []
      invariant Progress(m, root, seen, stack)
      decreases |Mentioned(m, root) - seen|, |stack|
    {
      var id := stack[|stack| - 1];
      if id !in m.nodes {
        return Failed;
      }
      ghost var seenBefore, stackBefore := seen, stack;
      stack := stack[..|stack| - 1];
      seen, stack := Visit(m.nodes[id], seen, stack);
      VisitProgresses(m, root, seenBefore, stackBefore, seen, stack);
      if seen != seenBefore {
        Shrinks(Mentioned(m, root), seenBefore, seen);
      }
    }
    forall x {
      DoneIsReachable(m, root, seen, x);
    }
    if seen <= m.packages {
      r := Packages(seen);
    } else {
      r := Failed;
    }
  }

  lemma Shrinks(all: set<PackageId>, before: set<PackageId>, after: set<PackageId>)
    requires before < after <= all
    ensures |all - after| < |all - before|
  {
    assert all - before == (all - after) + (after - before);
    assert after - before != {};
  }

  /** A package is reached exactly where it is the root, or one that is reached has a normal edge to it. */
  lemma {:induction false} OnlyNormalEdgesReach(m: Meta, root: PackageId, b: PackageId)
    ensures Reaches(m, root, b) <==>
      b == root ||
      exists a, d :: a in m.nodes && d in m.nodes[a] && d.pkg == b && None in d.kinds && Reaches(m, root, a)
  {
    ReachesSelf(m, root);
    if a, d :| a in m.nodes && d in m.nodes[a] && d.pkg == b && None in d.kinds && Reaches(m, root, a) {
      ReachesStep(m, root, a, b);
    }
    if Reaches(m, root, b) && b != root {
      var path :| IsPath(m, path) && path[0] == root && path[|path| - 1] == b;
      var front := path[..|path| - 1];
      assert IsPath(m, front) && front[0] == root;
      assert Edge(m, path[|path| - 2], path[|path| - 1]);
    }
  }
}
