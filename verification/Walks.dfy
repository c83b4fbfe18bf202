/** Dependency graphs and walks through them, shared by the two topological sorts.
    A pair (a, b) in a graph says that b depends on a. */
module Walks {
  import opened Prelude

  type Graph = set<(string, string)>

  /** A walk follows dependencies: each stage is followed by one of those it depends on. */
  ghost predicate IsWalk(g: Graph, w: seq<string>) {
    |w| > 0 && forall i :: 0 <= i < |w| - 1 ==> (w[i + 1], w[i]) in g
  }

  ghost predicate Reachable(g: Graph, roots: set<string>, s: string) {
    exists w :: IsWalk(g, w) && w[0] in roots && w[|w| - 1] == s
  }

  /** Some walk that starts at a root meets one stage twice. */
  ghost predicate CycleFrom(g: Graph, roots: set<string>) {
    exists w :: IsWalk(g, w) && w[0] in roots && !Distinct(w)
  }

  /** A closed walk, wherever it lies. */
  ghost predicate HasCycle(g: Graph) {
    exists w :: IsWalk(g, w) && |w| > 1 && w[0] == w[|w| - 1]
  }

  /** Every dependency of a listed stage is listed before it. */
  ghost predicate Topological(g: Graph, order: seq<string>) {
    forall a, j :: 0 <= j < |order| && (a, order[j]) in g ==> a in order[..j]
  }

  /** From a stage of a topological order a walk only moves to earlier positions. */
  lemma {:induction false} WalkDescends(g: Graph, order: seq<string>, w: seq<string>, k: nat)
    requires Topological(g, order) && IsWalk(g, w)
    requires k < |order| && w[0] == order[k]
    ensures forall i :: 0 < i < |w| ==> w[i] in order[..k]
    decreases |w|
  {
    if |w| > 1 {
      assert (w[0 + 1], w[0]) in g;
      var j :| 0 <= j < k && order[j] == w[1];
      forall i | 0 <= i < |w[1..]| - 1 ensures (w[1..][i + 1], w[1..][i]) in g {
        assert (w[i + 1 + 1], w[i + 1]) in g;
      }
      WalkDescends(g, order, w[1..], j);
      forall i | 0 < i < |w| ensures w[i] in order[..k] {
        assert w[i] == w[1..][i - 1];
      }
    }
  }

  lemma WalkSuffix(g: Graph, w: seq<string>, i: nat)
    requires IsWalk(g, w) && i < |w|
    ensures IsWalk(g, w[i..])
  {
    forall k | 0 <= k < |w[i..]| - 1 ensures (w[i..][k + 1], w[i..][k]) in g {
      assert (w[i + k + 1], w[i + k]) in g;
    }
  }

  lemma WalkPrefix(g: Graph, w: seq<string>, i: nat)
    requires IsWalk(g, w) && 0 < i <= |w|
    ensures IsWalk(g, w[..i])
  {
    forall k | 0 <= k < |w[..i]| - 1 ensures (w[..i][k + 1], w[..i][k]) in g {
      assert (w[k + 1], w[k]) in g;
    }
  }

  lemma WalkExtend(g: Graph, w: seq<string>, s: string)
    requires IsWalk(g, w) && (s, w[|w| - 1]) in g
    ensures IsWalk(g, w + [s])
  {
    var v := w + [s];
    forall k | 0 <= k < |v| - 1 ensures (v[k + 1], v[k]) in g {
      if k < |w| - 1 {
        assert (w[k + 1], w[k]) in g;
      }
    }
  }

  /** A topological order that lists the roots rules out every cycle that a root can reach. */
  lemma TopologicalHasNoCycle(g: Graph, order: seq<string>, roots: set<string>)
    requires Topological(g, order) && Distinct(order)
    requires forall r :: r in roots ==> r in order
    ensures !CycleFrom(g, roots)
  {
    forall w | IsWalk(g, w) && w[0] in roots ensures Distinct(w) {
      forall i, j | 0 <= i < j < |w| ensures w[i] != w[j] {
        var k := StagePosition(g, order, w, i);
        WalkSuffix(g, w, i);
        WalkDescends(g, order, w[i..], k);
        assert w[j] == w[i..][j - i];
      }
    }
  }

  /** Every stage on a walk from a listed stage is listed. */
  lemma StagePosition(g: Graph, order: seq<string>, w: seq<string>, i: nat) returns (k: nat)
    requires Topological(g, order) && IsWalk(g, w) && w[0] in order && i < |w|
    ensures k < |order| && order[k] == w[i]
  {
    k :| 0 <= k < |order| && order[k] == w[0];
    if i > 0 {
      WalkDescends(g, order, w, k);
      assert w[i] in order[..k];
      var j :| 0 <= j < k && order[j] == w[i];
      k := j;
    }
  }

  lemma {:induction false} DistinctCardinality<T>(s: seq<T>)
    requires Distinct(s)
    ensures |set x | x in s| == |s|
  {
    if s != [] {
      var front := s[..|s| - 1];
      DistinctCardinality(front);
      assert (set x | x in s) == (set x | x in front) + {s[|s| - 1]};
    }
  }

  /** More entries than possible values: something repeats. */
  lemma Pigeonhole<T>(s: seq<T>, values: set<T>)
    requires forall x :: x in s ==> x in values
    requires |s| > |values|
    ensures !Distinct(s)
  {
    if Distinct(s) {
      DistinctCardinality(s);
      SubsetSize((set x | x in s), values);
    }
  }

  /** When every edge joins roots, a cycle reachable from a root is just a cycle. */
  lemma CycleFromIsHasCycle(g: Graph, roots: set<string>)
    requires forall e :: e in g ==> e.0 in roots && e.1 in roots
    ensures CycleFrom(g, roots) <==> HasCycle(g)
  {
    if CycleFrom(g, roots) {
      var w :| IsWalk(g, w) && w[0] in roots && !Distinct(w);
      var i, j :| 0 <= i < j < |w| && w[i] == w[j];
      WalkPrefix(g, w, j + 1);
      WalkSuffix(g, w[..j + 1], i);
      var c := w[..j + 1][i..];
      assert |c| > 1 && c[0] == c[|c| - 1];
    }
    if HasCycle(g) {
      var w :| IsWalk(g, w) && |w| > 1 && w[0] == w[|w| - 1];
      assert (w[0 + 1], w[0]) in g;
      assert !Distinct(w);
    }
  }

  ghost predicate HasEdgeInto(g: Graph, among: set<string>, b: string) {
    exists a :: a in among && (a, b) in g
  }

  /** In a set whose members all depend on members, walks of any length stay inside the set. */
  lemma {:induction false} LongWalk(g: Graph, among: set<string>, start: string, n: nat) returns (w: seq<string>)
    requires start in among
    requires forall b :: b in among ==> HasEdgeInto(g, among, b)
    ensures IsWalk(g, w) && w[0] == start && |w| == n + 1
    ensures forall x :: x in w ==> x in among
  {
    if n == 0 {
      w := [start];
    } else {
      var v := LongWalk(g, among, start, n - 1);
      assert HasEdgeInto(g, among, v[|v| - 1]);
      var a :| a in among && (a, v[|v| - 1]) in g;
      WalkExtend(g, v, a);
      w := v + [a];
    }
  }

  lemma ClosedSetHasCycle(g: Graph, among: set<string>, start: string, roots: set<string>)
    requires start in among && start in roots
    requires forall b :: b in among ==> HasEdgeInto(g, among, b)
    ensures CycleFrom(g, roots)
  {
    var w := LongWalk(g, among, start, |among|);
    Pigeonhole(w, among);
  }
}
