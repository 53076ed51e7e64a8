/**
 Cutting a text into the runs a `type` request binds and types at a time: consecutive, with a bound
 on the distinct keysyms of each, and as few as any cutting allows.
 */
module DistinctRuns {

  type Sym = nat

  const TYPE_RUN_KEYSYMS: nat := 8

  function Distinct(s: seq<Sym>): set<Sym> {
    set x | x in s
  }

  function Joined(runs: seq<seq<Sym>>): seq<Sym> {
    if runs == [] then [] else Joined(runs[..|runs| - 1]) + runs[|runs| - 1]
  }

  /** Runs within the bound that follow each other at the start of `syms`. */
  ghost predicate Cuts(runs: seq<seq<Sym>>, syms: seq<Sym>, max: nat) {
    && (forall r :: r in runs ==> |Distinct(r)| <= max)
    && Joined(runs) <= syms
  }

  /** No cutting into `n` runs gets beyond the first `reach` symbols. */
  ghost predicate Furthest(syms: seq<Sym>, max: nat, n: nat, reach: nat) {
    forall runs :: Cuts(runs, syms, max) && |runs| <= n ==> |Joined(runs)| <= reach
  }

  lemma SubsetCard(a: set<Sym>, b: set<Sym>)
    requires a <= b
    ensures |a| <= |b|
  {
    assert b == a + (b - a);
  }

  lemma JoinedSnoc(runs: seq<seq<Sym>>, run: seq<Sym>)
    ensures Joined(runs + [run]) == Joined(runs) + run
  {
    assert (runs + [run])[..|runs|] == runs;
  }

  /**
   The greedy step: where `n` runs reach `start` at most, and `syms[start..next]` with one symbol
   more is over the bound, `n + 1` runs reach `next` at most.
   */
  lemma GreedyReaches(syms: seq<Sym>, max: nat, n: nat, start: nat, next: nat)
    requires Furthest(syms, max, n, start)
    requires start <= next < |syms| && |Distinct(syms[start..next + 1])| > max
    ensures Furthest(syms, max, n + 1, next)
  {
    forall runs | Cuts(runs, syms, max) && |runs| <= n + 1
      ensures |Joined(runs)| <= next
    {
      if |runs| > 0 {
        var front, last := runs[..|runs| - 1], runs[|runs| - 1];
        assert Joined(runs) == Joined(front) + last;
        assert Cuts(front, syms, max);
        assert last in runs;
        if |Joined(runs)| > next {
          var c := |Joined(front)|;
          assert c <= start;
          assert last == syms[c..|Joined(runs)|];
          forall x | x in syms[start..next + 1] ensures x in last {
            var i :| 0 <= i < next + 1 - start && syms[start..next + 1][i] == x;
            assert last[start + i - c] == x;
          }
          SubsetCard(Distinct(syms[start..next + 1]), Distinct(last));
        }
      }
    }
  }

  /** The runs cut so far: they make up the first `start` symbols, and as many runs reach no further. */
  ghost predicate Greedy(syms: seq<Sym>, max: nat, runs: seq<seq<Sym>>, start: nat) {
    && start <= |syms| && Joined(runs) == syms[..start]
    && (max > 0 ==> && (forall r :: r in runs ==> r != [] && |Distinct(r)| <= max)
                    && Furthest(syms, max, |runs|, start))
  }

  lemma CutHere(syms: seq<Sym>, max: nat, runs: seq<seq<Sym>>, start: nat, i: nat)
    requires Greedy(syms, max, runs, start) && start <= i < |syms|
    requires max > 0 ==> start < i && |Distinct(syms[start..i])| <= max < |Distinct(syms[start..i + 1])|
    ensures Greedy(syms, max, runs + [syms[start..i]], i)
  {
    JoinedSnoc(runs, syms[start..i]);
    assert syms[..i] == syms[..start] + syms[start..i];
    if max > 0 {
      GreedyReaches(syms, max, |runs|, start, i);
    }
  }

  lemma DistinctSnoc(syms: seq<Sym>, start: nat, i: nat)
    requires start <= i < |syms|
    ensures Distinct(syms[start..i + 1]) == Distinct(syms[start..i]) + {syms[i]}
  {
    assert syms[start..i + 1] == syms[start..i] + [syms[i]];
  }

  /**
   Non-empty consecutive runs of at most `max` distinct symbols that make up the whole input, and
   no such cutting has fewer. (With `max` 0 every cut would be empty: only the joining holds.)
   */
  ghost predicate BestCut(runs: seq<seq<Sym>>, syms: seq<Sym>, max: nat) {
    && Joined(runs) == syms
    && (max > 0 ==>
          && (forall r :: r in runs ==> r != [] && |Distinct(r)| <= max)
          && (forall other :: Cuts(other, syms, max) && Joined(other) == syms ==> |other| >= |runs|))
  }

  /** The last run is whatever is left, and fewer runs would not have got there. */
  lemma LastCut(syms: seq<Sym>, max: nat, runs: seq<seq<Sym>>, start: nat)
    requires Greedy(syms, max, runs, start) && start < |syms|
    requires max > 0 ==> |Distinct(syms[start..])| <= max
    ensures BestCut(runs + [syms[start..]], syms, max)
  {
    JoinedSnoc(runs, syms[start..]);
    assert syms == syms[..start] + syms[start..];
  }

  /** What the loop keeps in front of symbol `i`. */
  ghost predicate Progress(syms: seq<Sym>, max: nat, runs: seq<seq<Sym>>, start: nat, seen: set<Sym>, i: nat) {
    && start <= i <= |syms| && (start == i ==> i == 0 && runs == [])
    && seen == Distinct(syms[start..i])
    && (max > 0 ==> |seen| <= max)
    && Greedy(syms, max, runs, start)
  }

  lemma NothingToCut(syms: seq<Sym>, max: nat)
    ensures Progress(syms, max, [], 0, {}, 0)
  {
    if max > 0 {
      forall runs | Cuts(runs, syms, max) && |runs| <= 0
        ensures |Joined(runs)| <= 0
      {
        assert runs == [];
      }
    }
  }

  lemma GrowRun(syms: seq<Sym>, max: nat, runs: seq<seq<Sym>>, start: nat, seen: set<Sym>, i: nat)
    requires Progress(syms, max, runs, start, seen, i) && i < |syms| && (syms[i] in seen || |seen| != max)
    ensures Progress(syms, max, runs, start, seen + {syms[i]}, i + 1)
  {
    DistinctSnoc(syms, start, i);
    if syms[i] in seen {
      assert seen + {syms[i]} == seen;
    }
  }

  lemma StartRun(syms: seq<Sym>, max: nat, runs: seq<seq<Sym>>, start: nat, seen: set<Sym>, i: nat)
    requires Progress(syms, max, runs, start, seen, i) && i < |syms| && syms[i] !in seen && |seen| == max
    ensures Progress(syms, max, runs + [syms[start..i]], i, {syms[i]}, i + 1)
  {
    DistinctSnoc(syms, start, i);
    CutHere(syms, max, runs, start, i);
    assert syms[i..i + 1] == [syms[i]];
  }

  lemma Finish(syms: seq<Sym>, max: nat, runs: seq<seq<Sym>>, start: nat, seen: set<Sym>)
    requires Progress(syms, max, runs, start, seen, |syms|)
    ensures BestCut(if start < |syms| then runs + [syms[start..]] else runs, syms, max)
  {
    if start < |syms| {
      assert syms[start..|syms|] == syms[start..];
      LastCut(syms, max, runs, start);
    }
  }

  method Cut(syms: seq<Sym>, max: nat) returns (runs: seq<seq<Sym>>)
    ensures BestCut(runs, syms, max)
  {
    runs := [];
    var start: nat := 0;
    var seen: set<Sym> := {};
    NothingToCut(syms, max);
    for i := 0 to |syms|
      invariant Progress(syms, max, runs, start, seen, i)
    {
      var sym := syms[i];
      if sym !in seen && |seen| == max {
        StartRun(syms, max, runs, start, seen, i);
        runs := runs + [syms[start..i]];
        start := i;
        seen := {};
        seen := seen + {sym};
      } else {
        GrowRun(syms, max, runs, start, seen, i);
        seen := seen + {sym};
      }
    }
    Finish(syms, max, runs, start, seen);
    if start < |syms| {
      runs := runs + [syms[start..]];
    }
  }
}
