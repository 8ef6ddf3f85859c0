/** Closed walks in finite directed graphs over names. */
module Graphs {
  import opened Order

  type Graph = map<string, set<string>>

  ghost predicate IsWalk(g: Graph, walk: seq<string>) {
    walk != [] && forall i :: 0 <= i < |walk| - 1 ==> walk[i] in g && walk[i + 1] in g[walk[i]]
  }

  /** A walk of at least one edge that returns to where it started. */
  ghost predicate IsCycle(g: Graph, walk: seq<string>) {
    |walk| >= 2 && IsWalk(g, walk) && walk[0] == walk[|walk| - 1]
  }

  ghost predicate Acyclic(g: Graph) {
    !exists walk :: IsCycle(g, walk)
  }

  /** A measure that falls along every edge between nodes of the graph. */
  ghost predicate Falls(g: Graph, rank: map<string, nat>) {
    forall a, b :: a in g && b in g[a] && b in g ==> a in rank && b in rank && rank[b] < rank[a]
  }

  lemma {:induction false} FallsAlongWalk(g: Graph, rank: map<string, nat>, walk: seq<string>)
    requires Falls(g, rank) && IsWalk(g, walk) && |walk| >= 2
    requires walk[|walk| - 1] in g
    ensures walk[0] in rank && walk[|walk| - 1] in rank && rank[walk[|walk| - 1]] < rank[walk[0]]
    decreases |walk|
  {
    if |walk| > 2 {
      var rest := walk[1..];
      forall i | 0 <= i < |rest| - 1 ensures rest[i] in g && rest[i + 1] in g[rest[i]] {
        assert rest[i] == walk[i + 1];
      }
      FallsAlongWalk(g, rank, rest);
      assert walk[1] in g;
    }
  }

  lemma FallingMeansAcyclic(g: Graph, rank: map<string, nat>)
    requires Falls(g, rank)
    ensures Acyclic(g)
  {
    forall walk | IsCycle(g, walk) ensures false {
      FallsAlongWalk(g, rank, walk);
    }
  }

  ghost predicate StaysIn(g: Graph, core: set<string>, a: string) {
    a in g && exists b :: b in g[a] && b in core
  }

  /** Every node of `core` has a successor in `core`. */
  ghost predicate NoExit(g: Graph, core: set<string>) {
    forall a {:trigger StaysIn(g, core, a)} :: a in core ==> StaysIn(g, core, a)
  }

  ghost function Successor(g: Graph, core: set<string>, a: string): (b: string)
    requires NoExit(g, core) && a in core
    ensures a in g && b in g[a] && b in core
  {
    assert StaysIn(g, core, a);
    var b :| b in g[a] && b in core; b
  }

  ghost function Stroll(g: Graph, core: set<string>, a: string, n: nat): (walk: seq<string>)
    requires NoExit(g, core) && a in core
    ensures |walk| == n + 1 && walk[0] == a
    ensures forall i :: 0 <= i < |walk| ==> walk[i] in core
    ensures IsWalk(g, walk)
    decreases n
  {
    if n == 0 then [a]
    else
      var b := Successor(g, core, a);
      var rest := Stroll(g, core, b, n - 1);
      [a] + rest
  }

  lemma {:induction false} DistinctFits(q: seq<string>, core: set<string>)
    requires Distinct(q) && forall x :: x in q ==> x in core
    ensures |q| <= |core|
    decreases |q|
  {
    if q != [] {
      var rest := q[1..];
      assert forall x :: x in rest ==> x in core - {q[0]};
      DistinctFits(rest, core - {q[0]});
    }
  }

  lemma CutCycle(g: Graph, walk: seq<string>, i: nat, j: nat)
    requires IsWalk(g, walk) && i < j < |walk| && walk[i] == walk[j]
    ensures IsCycle(g, walk[i..j + 1])
  {
    var loop := walk[i..j + 1];
    forall k | 0 <= k < |loop| - 1 ensures loop[k] in g && loop[k + 1] in g[loop[k]] {
      assert loop[k] == walk[i + k] && loop[k + 1] == walk[i + k + 1];
    }
  }

  lemma NoExitHasCycle(g: Graph, core: set<string>)
    requires core != {} && NoExit(g, core)
    ensures exists walk :: IsCycle(g, walk)
  {
    var a :| a in core;
    var walk := Stroll(g, core, a, |core|);
    if Distinct(walk) {
      DistinctFits(walk, core);
    } else {
      var i, j :| 0 <= i < j < |walk| && walk[i] == walk[j];
      CutCycle(g, walk, i, j);
    }
  }
}
