/** The layering loop that orders derivations and resources: repeatedly take, in sorted
    order, every name none of whose dependencies is still waiting. */
module Layering {
  import opened Order
  import opened Values
  import opened Graphs

  ghost predicate Closed(deps: Graph) {
    forall a, b :: a in deps && b in deps[a] ==> b in deps
  }

  function Ready(remaining: set<string>, deps: Graph): set<string>
    requires remaining <= deps.Keys
  {
    set n | n in remaining && deps[n] * remaining == {}
  }

  /** The concatenated layers, or None when a round finds nothing ready. */
  function Layers(remaining: set<string>, deps: Graph): Option<seq<string>>
    requires remaining <= deps.Keys
    decreases |remaining|
  {
    if remaining == {} then Some([])
    else
      var ready := Ready(remaining, deps);
      if ready == {} then None
      else
        assert ready <= remaining && remaining - ready < remaining;
        SubsetSmaller(remaining - ready, remaining);
        match Layers(remaining - ready, deps)
        case None => None
        case Some(rest) => Some(Sorted(ready) + rest)
  }

  /** Each dependency that is among the listed names stands strictly before its user. */
  ghost predicate Before(order: seq<string>, deps: Graph) {
    forall i, d :: 0 <= i < |order| && order[i] in deps && d in deps[order[i]] && d in order ==> d in order[..i]
  }

  lemma JoinDistinct(first: seq<string>, rest: seq<string>)
    requires Distinct(first) && Distinct(rest) && Elements(first) !! Elements(rest)
    ensures Distinct(first + rest) && Elements(first + rest) == Elements(first) + Elements(rest)
  {
    forall i, j | 0 <= i < |first| && 0 <= j < |rest| ensures first[i] != rest[j] {
      assert first[i] in Elements(first) && rest[j] in Elements(rest);
    }
  }

  /** Putting a layer in front keeps every dependency before its user. */
  lemma LayerInFront(first: seq<string>, rest: seq<string>, deps: Graph)
    requires Before(rest, deps)
    requires forall n, d :: n in first && n in deps && d in deps[n] ==> d !in first && d !in rest
    ensures Before(first + rest, deps)
  {
    var order := first + rest;
    forall i, d | 0 <= i < |order| && order[i] in deps && d in deps[order[i]] && d in order ensures d in order[..i] {
      assert i >= |first|;
      assert order[..i] == first + rest[..i - |first|];
      assert rest[i - |first|] == order[i];
      assert d in first || d in rest;
    }
  }

  lemma {:induction false} LayersOrder(remaining: set<string>, deps: Graph)
    requires remaining <= deps.Keys && Layers(remaining, deps).Some?
    ensures var order := Layers(remaining, deps).value;
            Elements(order) == remaining && Distinct(order) && Before(order, deps)
    decreases |remaining|
  {
    hide Ready, Sorted, Before, Distinct, Elements;
    if remaining == {} {
      NothingOrdered(deps, Layers(remaining, deps).value);
    } else {
      var ready := Ready(remaining, deps);
      ReadyWithin(remaining, deps);
      SubsetSmaller(remaining - ready, remaining);
      LayersOrder(remaining - ready, deps);
      FirstLayer(remaining, deps, Layers(remaining - ready, deps).value);
    }
  }

  lemma NothingOrdered(deps: Graph, order: seq<string>)
    requires order == []
    ensures Elements(order) == {} && Distinct(order) && Before(order, deps)
  {
  }

  lemma ReadyWithin(remaining: set<string>, deps: Graph)
    requires remaining <= deps.Keys
    ensures Ready(remaining, deps) <= remaining
    ensures Ready(remaining, deps) != {} ==> remaining - Ready(remaining, deps) < remaining
  {
  }

  /** The ready names in front of an order of the others. */
  lemma FirstLayer(remaining: set<string>, deps: Graph, rest: seq<string>)
    requires remaining <= deps.Keys
    requires Elements(rest) == remaining - Ready(remaining, deps) && Distinct(rest) && Before(rest, deps)
    ensures var order := Sorted(Ready(remaining, deps)) + rest;
            Elements(order) == remaining && Distinct(order) && Before(order, deps)
  {
    hide Before, Distinct, Elements, Ready, Sorted;
    var ready := Ready(remaining, deps);
    var first := Sorted(ready);
    ReadyWithin(remaining, deps);
    SortedDistinct(ready);
    SortedElements(ready);
    assert Elements(first) + Elements(rest) == remaining;
    JoinDistinct(first, rest);
    forall n, d | n in first && n in deps && d in deps[n] ensures d !in first && d !in rest {
      IsElement(first, n);
      ReadyReads(remaining, deps, n, d);
      IsElement(first, d);
      IsElement(rest, d);
    }
    LayerInFront(first, rest, deps);
  }

  lemma SortedElements(names: set<string>)
    ensures Elements(Sorted(names)) == names
  {
    hide Sorted;
    assert forall n :: n in Elements(Sorted(names)) <==> n in Sorted(names);
  }

  lemma IsElement(q: seq<string>, d: string)
    ensures d in q <==> d in Elements(q)
  {
  }

  lemma ReadyReads(remaining: set<string>, deps: Graph, n: string, d: string)
    requires remaining <= deps.Keys && n in Ready(remaining, deps) && d in deps[n]
    ensures d !in remaining
  {
    assert d !in deps[n] * remaining;
  }

  lemma {:induction false} StuckMeansCycle(remaining: set<string>, deps: Graph)
    requires remaining <= deps.Keys && Layers(remaining, deps).None?
    ensures exists walk :: IsCycle(deps, walk)
    decreases |remaining|
  {
    var ready := Ready(remaining, deps);
    if ready == {} {
      forall a | a in remaining ensures StaysIn(deps, remaining, a) {
        assert a !in ready;
        var b :| b in deps[a] * remaining;
      }
      NoExitHasCycle(deps, remaining);
    } else {
      SubsetSmaller(remaining - ready, remaining);
      StuckMeansCycle(remaining - ready, deps);
    }
  }

  ghost function PositionRank(order: seq<string>): (rank: map<string, nat>)
    ensures rank.Keys == Elements(order)
    ensures forall n :: n in rank ==> rank[n] < |order| && order[rank[n]] == n
  {
    map n | n in Elements(order) :: (var i: nat :| i < |order| && order[i] == n; i)
  }

  lemma OrderedMeansAcyclic(order: seq<string>, deps: Graph)
    requires Elements(order) == deps.Keys && Distinct(order) && Before(order, deps)
    ensures Acyclic(deps)
  {
    var rank := PositionRank(order);
    forall a, b | a in deps && b in deps[a] && b in deps ensures a in rank && b in rank && rank[b] < rank[a] {
      assert a in Elements(order) && b in Elements(order);
      assert order[rank[a]] == a;
      assert b in order[..rank[a]];
      var k :| 0 <= k < rank[a] && order[..rank[a]][k] == b;
      assert order[k] == b == order[rank[b]];
    }
    FallingMeansAcyclic(deps, rank);
  }

  /** The loop succeeds exactly on acyclic dependency graphs. */
  lemma LayersExactlyAcyclic(deps: Graph)
    ensures Layers(deps.Keys, deps).Some? <==> Acyclic(deps)
  {
    if Layers(deps.Keys, deps).Some? {
      LayersOrder(deps.Keys, deps);
      OrderedMeansAcyclic(Layers(deps.Keys, deps).value, deps);
    } else {
      StuckMeansCycle(deps.Keys, deps);
    }
  }

  function Onto(done: seq<string>, rest: Option<seq<string>>): Option<seq<string>> {
    match rest case None => None case Some(order) => Some(done + order)
  }

  lemma OntoStep(done: seq<string>, remaining: set<string>, deps: Graph)
    requires remaining <= deps.Keys && Ready(remaining, deps) != {}
    ensures Onto(done, Layers(remaining, deps))
            == Onto(done + Sorted(Ready(remaining, deps)), Layers(remaining - Ready(remaining, deps), deps))
  {
    hide Ready, Sorted;
    ReadyWithin(remaining, deps);
    var ready := Ready(remaining, deps);
    match Layers(remaining - ready, deps)
    case None =>
    case Some(rest) => assert done + (Sorted(ready) + rest) == done + Sorted(ready) + rest;
  }

  /** The loop itself, as `resolve_derivations` and `resolve_resources` write it. */
  method LayerLoop(deps: Graph) returns (order: Option<seq<string>>)
    ensures order == Layers(deps.Keys, deps)
  {
    hide Layers, Ready, Sorted, Onto;
    var remaining := deps.Keys;
    var done: seq<string> := [];
    OntoStart(remaining, deps);
    while remaining != {}
      invariant remaining <= deps.Keys
      invariant Layers(deps.Keys, deps) == Onto(done, Layers(remaining, deps))
      decreases |remaining|
    {
      var ready := Ready(remaining, deps);
      ReadyWithin(remaining, deps);
      if ready == {} {
        OntoStuck(done, remaining, deps);
        return None;
      }
      SubsetSmaller(remaining - ready, remaining);
      OntoStep(done, remaining, deps);
      done := done + Sorted(ready);
      remaining := remaining - ready;
    }
    OntoEnd(done, remaining, deps);
    order := Some(done);
  }

  lemma OntoStart(remaining: set<string>, deps: Graph)
    requires remaining <= deps.Keys
    ensures Onto([], Layers(remaining, deps)) == Layers(remaining, deps)
  {
    match Layers(remaining, deps)
    case None =>
    case Some(rest) => assert [] + rest == rest;
  }

  lemma OntoStuck(done: seq<string>, remaining: set<string>, deps: Graph)
    requires remaining <= deps.Keys && remaining != {} && Ready(remaining, deps) == {}
    ensures Onto(done, Layers(remaining, deps)) == None
  {
  }

  lemma OntoEnd(done: seq<string>, remaining: set<string>, deps: Graph)
    requires remaining == {}
    ensures Onto(done, Layers(remaining, deps)) == Some(done)
  {
    assert done + [] == done;
  }

  // ------------------------------------------------ systems of equations solved in layer order

  /** Right-hand sides: name n's value under an assignment of the other names. */
  type Rule<!V> = (string, map<string, V>) -> Result<V>

  ghost predicate SameOn<V>(names: set<string>, a: map<string, V>, b: map<string, V>) {
    forall n :: n in names ==> (n in a <==> n in b) && (n in a ==> a[n] == b[n])
  }

  /** A rule reads no name outside its declared dependencies. */
  ghost predicate Respects<V(!new)>(rule: Rule<V>, deps: Graph) {
    forall n, a: map<string, V>, b: map<string, V> ::
      n in deps && SameOn(deps[n], a, b) ==> rule(n, a) == rule(n, b)
  }

  ghost predicate IsSolution<V>(rule: Rule<V>, names: set<string>, m: map<string, V>) {
    m.Keys == names && forall n :: n in names ==> rule(n, m) == Ok(m[n])
  }

  /** Evaluates the names in list order, each against what has been computed so far. */
  function Solve<V>(rule: Rule<V>, order: seq<string>, soFar: map<string, V>): Result<map<string, V>>
    decreases |order|
  {
    if order == [] then Ok(soFar)
    else
      var v :- rule(order[0], soFar);
      Solve(rule, order[1..], soFar[order[0] := v])
  }

  /** `done` names solved by `soFar`, the rest in an order compatible with the dependencies. */
  ghost predicate Midway<V>(rule: Rule<V>, deps: Graph, done: seq<string>, order: seq<string>, soFar: map<string, V>) {
    && Elements(done + order) == deps.Keys && Distinct(done + order) && Before(done + order, deps) && Closed(deps)
    && soFar.Keys == Elements(done)
    && forall n :: n in soFar ==> rule(n, soFar) == Ok(soFar[n])
  }

  /** What the name at position `at` reads stands before that position. */
  lemma ReadsEarlier(deps: Graph, all: seq<string>, at: nat)
    requires Elements(all) == deps.Keys && Before(all, deps) && Closed(deps) && at < |all|
    ensures all[at] in deps && deps[all[at]] <= Elements(all[..at])
  {
    assert all[at] in Elements(all);
    forall d | d in deps[all[at]] ensures d in Elements(all[..at]) {
      assert d in Elements(all);
    }
  }

  lemma PrefixReads(deps: Graph, all: seq<string>, at: nat, n: string)
    requires Elements(all) == deps.Keys && Before(all, deps) && Closed(deps) && at < |all|
    requires n in all[..at + 1]
    ensures n in deps && deps[n] <= Elements(all[..at])
  {
    var i :| 0 <= i < at + 1 && all[i] == n;
    ReadsEarlier(deps, all, i);
    forall d | d in all[..i] ensures d in all[..at] {
      var k :| 0 <= k < i && all[k] == d;
      assert all[..at][k] == d;
    }
  }

  lemma MidwayStep<V(!new)>(rule: Rule<V>, deps: Graph, done: seq<string>, order: seq<string>, soFar: map<string, V>, v: V)
    requires Respects(rule, deps) && Midway(rule, deps, done, order, soFar) && order != []
    requires rule(order[0], soFar) == Ok(v)
    ensures Midway(rule, deps, done + [order[0]], order[1..], soFar[order[0] := v])
  {
    hide Respects, Before, Closed;
    var all := done + order;
    var done', next := done + [order[0]], soFar[order[0] := v];
    assert done' + order[1..] == all && all[..|done|] == done && all[..|done| + 1] == done';
    assert next.Keys == Elements(done') by {
      forall x ensures x in next <==> x in done' {}
    }
    assert order[0] !in done by {
      forall k | 0 <= k < |done| ensures done[k] != order[0] { assert all[k] == done[k] && all[|done|] == order[0]; }
    }
    forall n | n in next ensures rule(n, next) == Ok(next[n]) {
      PrefixReads(deps, all, |done|, n);
      RespectsAt(rule, deps, n, soFar, next);
    }
  }

  lemma RespectsAt<V(!new)>(rule: Rule<V>, deps: Graph, n: string, a: map<string, V>, b: map<string, V>)
    requires Respects(rule, deps) && n in deps && SameOn(deps[n], a, b)
    ensures rule(n, a) == rule(n, b)
  {
  }

  /** Sound, and complete: any solution is the one computed. */
  lemma {:induction false} SolveExact<V(!new)>(rule: Rule<V>, deps: Graph, done: seq<string>, order: seq<string>, soFar: map<string, V>)
    requires Respects(rule, deps) && Midway(rule, deps, done, order, soFar)
    ensures Solve(rule, order, soFar).Ok? ==> IsSolution(rule, deps.Keys, Solve(rule, order, soFar).value)
    ensures forall m: map<string, V> :: IsSolution(rule, deps.Keys, m) && SameOn(soFar.Keys, soFar, m)
              ==> Solve(rule, order, soFar) == Ok(m)
    decreases |order|
  {
    hide Respects, Midway, IsSolution, SameOn;
    if order == [] {
      AllSolved(rule, deps, done, order, soFar);
    } else {
      var r := rule(order[0], soFar);
      if r.Ok? {
        MidwayStep(rule, deps, done, order, soFar, r.value);
        SolveExact(rule, deps, done + [order[0]], order[1..], soFar[order[0] := r.value]);
      }
      forall m: map<string, V> | IsSolution(rule, deps.Keys, m) && SameOn(soFar.Keys, soFar, m)
        ensures Solve(rule, order, soFar) == Ok(m)
      {
        SolutionAgrees(rule, deps, done, order, soFar, m);
      }
    }
  }

  lemma AllSolved<V(!new)>(rule: Rule<V>, deps: Graph, done: seq<string>, order: seq<string>, soFar: map<string, V>)
    requires Midway(rule, deps, done, order, soFar) && order == []
    ensures IsSolution(rule, deps.Keys, soFar)
    ensures forall m: map<string, V> :: IsSolution(rule, deps.Keys, m) && SameOn(soFar.Keys, soFar, m) ==> m == soFar
  {
    assert done + [] == done;
  }

  /** Any solution gives the next name the value computed for it. */
  lemma SolutionAgrees<V(!new)>(rule: Rule<V>, deps: Graph, done: seq<string>, order: seq<string>, soFar: map<string, V>, m: map<string, V>)
    requires Respects(rule, deps) && Midway(rule, deps, done, order, soFar) && order != []
    requires IsSolution(rule, deps.Keys, m) && SameOn(soFar.Keys, soFar, m)
    ensures order[0] in m && rule(order[0], soFar) == Ok(m[order[0]])
    ensures SameOn(soFar[order[0] := m[order[0]]].Keys, soFar[order[0] := m[order[0]]], m)
  {
    hide Respects;
    var n, all := order[0], done + order;
    assert all[|done|] == n && all[..|done|] == done;
    ReadsEarlier(deps, all, |done|);
    assert SameOn(deps[n], soFar, m);
    RespectsAt(rule, deps, n, soFar, m);
  }

  /** Ordering and solving together compute m exactly when the graph is acyclic and m solves the system. */
  lemma LayeredSolution<V(!new)>(rule: Rule<V>, deps: Graph, m: map<string, V>)
    requires Respects(rule, deps) && Closed(deps)
    ensures (Layers(deps.Keys, deps).Some? && Solve(rule, Layers(deps.Keys, deps).value, map[]) == Ok(m))
            <==> (Acyclic(deps) && IsSolution(rule, deps.Keys, m))
  {
    LayersExactlyAcyclic(deps);
    if Layers(deps.Keys, deps).Some? {
      LayersOrder(deps.Keys, deps);
      var order := Layers(deps.Keys, deps).value;
      assert [] + order == order;
      var none: map<string, V> := map[];
      assert none.Keys == Elements([]);
      SolveExact(rule, deps, [], order, none);
      if IsSolution(rule, deps.Keys, m) {
        assert SameOn(none.Keys, none, m);
      }
    }
  }
}
