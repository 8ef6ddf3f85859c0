/** `_validate_control`: every target is declared and no subflow can reach itself.
    The depth-first search accepts exactly the acyclic programs, the completion order it
    produces is the rank on which termination rests, and what it reports is a real cycle. */
module ControlCheck {
  import opened Order
  import opened Values
  import opened Graphs
  import opened Programs

  function FlowTargets(nodes: seq<Node>): set<string> {
    set node, t | node in nodes && t in Targets(node) :: t
  }

  function CallGraph(p: Program): Graph {
    map name | name in p.subflows :: FlowTargets(p.subflows[name])
  }

  ghost predicate TargetsKnown(p: Program) {
    forall flow: Flow, node, t :: InFlow(p, flow, node) && t in Targets(node) ==> t in p.subflows
  }

  ghost predicate SoundControl(p: Program) {
    TargetsKnown(p) && Acyclic(CallGraph(p))
  }

  datatype Verdict = Accepted | UnknownSubflow(target: string) | SubflowCycle(path: seq<string>)

  /** Every successor of a listed node is listed before it. */
  ghost predicate CompletionOrder(g: Graph, finished: seq<string>) {
    forall i, d :: 0 <= i < |finished| && finished[i] in g && d in g[finished[i]] ==> d in finished[..i]
  }

  /** Meeting a name of the path again closes a cycle. */
  lemma ClosesCycle(graph: Graph, visiting: seq<string>, i: nat, name: string)
    requires IsWalk(graph, visiting) && i < |visiting| && visiting[i] == name
    requires visiting[|visiting| - 1] in graph && name in graph[visiting[|visiting| - 1]]
    ensures IsCycle(graph, visiting[i..] + [name])
  {
    var path := visiting[i..] + [name];
    forall k | 0 <= k < |path| - 1 ensures path[k] in graph && path[k + 1] in graph[path[k]] {
      assert path[k] == visiting[i + k];
      if k + 1 < |path| - 1 { assert path[k + 1] == visiting[i + k + 1]; }
    }
  }

  /** The closure state of the search: the path being visited and the finished names. */
  class Search {
    const graph: Graph
    var visiting: seq<string>
    var complete: set<string>
    /** Finished names in completion order. */
    ghost var finished: seq<string>

    constructor (g: Graph)
      requires forall a, b :: a in g && b in g[a] ==> b in g
      ensures Valid() && graph == g && visiting == [] && complete == {}
    {
      graph := g;
      visiting := [];
      complete := {};
      finished := [];
    }

    ghost predicate Valid()
      reads this
    {
      && (forall a, b :: a in graph && b in graph[a] ==> b in graph)
      && (visiting != [] ==> IsWalk(graph, visiting)) && Distinct(visiting) && Elements(visiting) <= graph.Keys
      && Elements(visiting) !! complete
      && Elements(finished) == complete && Distinct(finished) && complete <= graph.Keys
      && CompletionOrder(graph, finished)
    }

    ghost predicate Reachable(name: string)
      reads this
    {
      name in graph && (visiting != [] ==> visiting[|visiting| - 1] in graph && name in graph[visiting[|visiting| - 1]])
    }

    /** Position of a name known to be on the path. */
    method IndexOf(name: string) returns (i: nat)
      requires name in visiting
      ensures i < |visiting| && visiting[i] == name
    {
      i := 0;
      while visiting[i] != name
        invariant i < |visiting|
        invariant name !in visiting[..i]
        decreases |visiting| - i
      {
        assert name in visiting[..i] + visiting[i..];
        i := i + 1;
      }
    }

    method Visit(name: string) returns (cycle: Option<seq<string>>)
      requires Valid() && Reachable(name)
      modifies this
      ensures cycle.Some? ==> IsCycle(graph, cycle.value)
      ensures cycle.None? ==> Valid() && visiting == old(visiting) && old(complete) + {name} <= complete
      decreases graph.Keys - Elements(visiting), 0
    {
      hide CompletionOrder, IsWalk, IsCycle, Distinct, Sorted, Elements;
      if name in visiting {
        var i := IndexOf(name);
        ClosesCycle(graph, visiting, i, name);
        return Some(visiting[i..] + [name]);
      }
      if name in complete {
        return None;
      }
      ghost var before := visiting;
      Extended(before, name);
      visiting := visiting + [name];
      cycle := VisitChildren(name, before);
      if cycle.Some? { return; }
      FinishName(before, name);
      visiting := visiting[..|visiting| - 1];
      complete := complete + {name};
      finished := finished + [name];
      assert visiting == before;
    }

    /** The loop over the targets of the name just entered. */
    method VisitChildren(name: string, ghost before: seq<string>) returns (cycle: Option<seq<string>>)
      requires Valid() && name in graph && visiting == before + [name]
      modifies this
      ensures cycle.Some? ==> IsCycle(graph, cycle.value)
      ensures cycle.None? ==> Valid() && visiting == old(visiting) && old(complete) <= complete && graph[name] <= complete
      decreases graph.Keys - Elements(visiting), 1
    {
      hide CompletionOrder, IsWalk, IsCycle, Distinct, Elements;
      var children := Sorted(graph[name]);
      for k := 0 to |children|
        invariant Valid() && visiting == old(visiting) && old(complete) <= complete
        invariant forall i :: 0 <= i < k ==> children[i] in complete
      {
        assert children[k] in graph[name] by { assert children[k] in children; }
        cycle := Visit(children[k]);
        if cycle.Some? { return; }
      }
      forall c | c in graph[name] ensures c in complete { assert c in children; }
      cycle := None;
    }

    lemma Extended(before: seq<string>, name: string)
      requires before == [] || (IsWalk(graph, before) && before[|before| - 1] in graph && name in graph[before[|before| - 1]])
      requires Distinct(before) && name !in before && name in graph && Elements(before) <= graph.Keys
      ensures IsWalk(graph, before + [name]) && Distinct(before + [name])
      ensures Elements(before + [name]) == Elements(before) + {name} && name !in Elements(before)
    {
    }

    /** Once all its children are finished, a name may be appended to the completion order. */
    lemma FinishName(before: seq<string>, name: string)
      requires Valid() && visiting == before + [name] && graph[name] <= complete && Distinct(before)
      requires before != [] ==> IsWalk(graph, before)
      ensures Elements(before) !! complete + {name} && Elements(before) <= graph.Keys
      ensures Elements(finished + [name]) == complete + {name} && Distinct(finished + [name])
      ensures CompletionOrder(graph, finished + [name])
    {
      assert visiting[|before|] == name;
      assert name in Elements(visiting);
      forall x | x in before ensures x in Elements(visiting) && x != name {
        var k :| 0 <= k < |before| && before[k] == x;
        assert visiting[k] == x;
      }
      assert name !in Elements(finished);
      var next := finished + [name];
      forall i, d | 0 <= i < |next| && next[i] in graph && d in graph[next[i]] ensures d in next[..i] {
        if i < |finished| {
          assert next[i] == finished[i] && next[..i] == finished[..i];
        } else {
          assert d in Elements(finished);
          assert next[..i] == finished;
        }
      }
    }
  }

  /** The completion order ranks every subflow above all it can enter. */
  lemma CompletionRanks(p: Program, finished: seq<string>) returns (rank: map<string, nat>)
    requires TargetsKnown(p) && Elements(finished) == p.subflows.Keys && Distinct(finished)
    requires CompletionOrder(CallGraph(p), finished)
    ensures Ranked(p, rank) && Acyclic(CallGraph(p))
  {
    hide Targets, Acyclic, CallGraph, Ranked, TargetsKnown, CompletionOrder, Distinct;
    var g := CallGraph(p);
    GraphKeys(p);
    IndexFalls(g, finished);
    DistinctFits(finished, p.subflows.Keys);
    rank := map n | n in p.subflows.Keys :: IndexIn(finished, n);
    forall name | name in p.subflows ensures rank[name] < |p.subflows| {
      assert name in Elements(finished);
    }
    FallingRanks(p, rank);
    FallingMeansAcyclic(g, rank);
  }

  lemma GraphKeys(p: Program)
    ensures CallGraph(p).Keys == p.subflows.Keys
  {
  }

  /** A rank below the number of subflows that falls along the call graph ranks the program. */
  lemma FallingRanks(p: Program, rank: map<string, nat>)
    requires TargetsKnown(p) && CallGraph(p).Keys == p.subflows.Keys == rank.Keys
    requires forall name :: name in p.subflows ==> rank[name] < |p.subflows|
    requires forall a, t :: a in CallGraph(p) && t in CallGraph(p)[a] ==> t in p.subflows && rank[t] < rank[a]
    ensures Ranked(p, rank)
  {
    hide Targets, CallGraph;
    forall flow: Flow, node, t | InFlow(p, flow, node) && t in Targets(node)
      ensures t in p.subflows && (flow.Some? ==> rank[t] < rank[flow.value])
    {
      if flow.Some? { TargetInGraph(p, flow.value, node, t); }
    }
  }

  lemma TargetInGraph(p: Program, name: string, node: Node, t: string)
    requires InFlow(p, Some(name), node) && t in Targets(node)
    ensures name in CallGraph(p) && t in CallGraph(p)[name]
  {
    hide Targets;
  }

  /** In a completion order every node stands after all its successors. */
  lemma IndexFalls(g: Graph, finished: seq<string>)
    requires Elements(finished) == g.Keys && Distinct(finished) && CompletionOrder(g, finished)
    ensures forall a, t :: a in g && t in g[a] ==> t in g && IndexIn(finished, t) < IndexIn(finished, a)
  {
    forall a, t | a in g && t in g[a] ensures t in g && IndexIn(finished, t) < IndexIn(finished, a) {
      assert a in Elements(finished);
      EarlierIndex(finished, IndexIn(finished, a), t);
      assert t in Elements(finished);
    }
  }

  lemma EarlierIndex(q: seq<string>, i: nat, t: string)
    requires Distinct(q) && i < |q| && t in q[..i]
    ensures t in q && IndexIn(q, t) < i
  {
    var k :| 0 <= k < i && q[..i][k] == t;
    assert q[k] == t;
  }

  ghost function IndexIn(q: seq<string>, n: string): (i: nat)
    ensures n in q ==> i < |q| && q[i] == n
  {
    if n in q then (var i: nat :| i < |q| && q[i] == n; i) else 0
  }

  /** Every target in one sequence is declared. */
  ghost predicate FlowKnown(p: Program, flow: Flow)
    requires HasFlow(p, flow)
  {
    forall node, t :: node in Body(p, flow) && t in Targets(node) ==> t in p.subflows
  }

  lemma FlowsKnown(p: Program)
    ensures TargetsKnown(p) <==> FlowKnown(p, None) && forall n :: n in p.subflows ==> FlowKnown(p, Some(n))
  {
    hide Targets;
    if FlowKnown(p, None) && forall n :: n in p.subflows ==> FlowKnown(p, Some(n)) {
      forall flow: Flow, node, t | InFlow(p, flow, node) && t in Targets(node) ensures t in p.subflows {
        assert flow.Some? ==> FlowKnown(p, Some(flow.value));
      }
    }
    if TargetsKnown(p) {
      forall flow: Flow | HasFlow(p, flow) ensures FlowKnown(p, flow) {
        forall node, t | node in Body(p, flow) && t in Targets(node) ensures t in p.subflows { assert InFlow(p, flow, node); }
      }
    }
  }

  /** First undeclared target, scanning the sequences in the order of `names`. */
  method FirstUnknown(p: Program) returns (unknown: Option<string>)
    ensures unknown.None? <==> TargetsKnown(p)
    ensures unknown.Some? ==> unknown.value !in p.subflows
  {
    hide FlowKnown, TargetsKnown;
    FlowsKnown(p);
    unknown := ScanFlow(p, None);
    if unknown.Some? { return; }
    var names := Sorted(p.subflows.Keys);
    for k := 0 to |names|
      invariant forall i :: 0 <= i < k ==> names[i] in p.subflows && FlowKnown(p, Some(names[i]))
    {
      assert names[k] in p.subflows.Keys by { assert names[k] in names; }
      unknown := ScanFlow(p, Some(names[k]));
      if unknown.Some? { return; }
    }
    forall n | n in p.subflows ensures FlowKnown(p, Some(n)) {
      assert n in names;
      var i :| 0 <= i < |names| && names[i] == n;
    }
    unknown := None;
  }

  method ScanFlow(p: Program, flow: Flow) returns (unknown: Option<string>)
    requires HasFlow(p, flow)
    ensures unknown.None? <==> FlowKnown(p, flow)
    ensures unknown.Some? ==> unknown.value !in p.subflows
  {
    hide Targets;
    var nodes := Body(p, flow);
    for i := 0 to |nodes|
      invariant forall k, t :: 0 <= k < i && t in Targets(nodes[k]) ==> t in p.subflows
    {
      unknown := ScanTargets(p, Targets(nodes[i]));
      if unknown.Some? { return; }
    }
    unknown := None;
  }

  method ScanTargets(p: Program, targets: seq<string>) returns (unknown: Option<string>)
    ensures unknown.None? <==> forall t :: t in targets ==> t in p.subflows
    ensures unknown.Some? ==> unknown.value in targets && unknown.value !in p.subflows
  {
    for j := 0 to |targets|
      invariant forall i :: 0 <= i < j ==> targets[i] in p.subflows
    {
      if targets[j] !in p.subflows { return Some(targets[j]); }
    }
    unknown := None;
  }

  /** Accepts exactly the sound programs; a rejection names an undeclared target or shows a closed walk. */
  method ValidateControl(p: Program) returns (verdict: Verdict, ghost rank: map<string, nat>)
    ensures verdict.Accepted? <==> SoundControl(p)
    ensures verdict.Accepted? ==> Ranked(p, rank)
    ensures verdict.UnknownSubflow? ==> verdict.target !in p.subflows && !TargetsKnown(p)
    ensures verdict.SubflowCycle? ==> TargetsKnown(p) && IsCycle(CallGraph(p), verdict.path)
  {
    hide CompletionOrder, TargetsKnown, Acyclic, Ranked, CallGraph, Sorted, IsCycle;
    rank := map[];
    GraphKeys(p);
    var unknown := FirstUnknown(p);
    if unknown.Some? {
      return UnknownSubflow(unknown.value), rank;
    }
    var graph := CallGraph(p);
    GraphClosed(p);
    var search := new Search(graph);
    var names := Sorted(graph.Keys);
    var k := 0;
    while k < |names|
      invariant 0 <= k <= |names|
      invariant search.Valid() && search.visiting == [] && search.graph == graph
      invariant forall n :: n in names[..k] ==> n in search.complete
    {
      var cycle := search.Visit(names[k]);
      if cycle.Some? {
        CycleIsNotAcyclic(graph, cycle.value);
        return SubflowCycle(cycle.value), rank;
      }
      assert names[..k + 1] == names[..k] + [names[k]];
      k := k + 1;
    }
    assert names[..k] == names;
    assert search.complete == graph.Keys == p.subflows.Keys;
    rank := CompletionRanks(p, search.finished);
    verdict := Accepted;
  }

  lemma CycleIsNotAcyclic(g: Graph, walk: seq<string>)
    requires IsCycle(g, walk)
    ensures !Acyclic(g)
  {
  }

  lemma GraphClosed(p: Program)
    requires TargetsKnown(p)
    ensures var g := CallGraph(p); forall a, b :: a in g && b in g[a] ==> b in g
  {
    var g := CallGraph(p);
    forall a, b | a in g && b in g[a] ensures b in g {
      var node :| node in p.subflows[a] && b in Targets(node);
      assert InFlow(p, Some(a), node);
    }
  }

  /** A falling rank exists exactly for the programs the check accepts. */
  lemma {:induction false} SoundControlRanks(p: Program, rank: map<string, nat>)
    requires Ranked(p, rank)
    ensures SoundControl(p)
  {
    var g := CallGraph(p);
    forall a, b | a in g && b in g[a] && b in g ensures a in rank && b in rank && rank[b] < rank[a] {
      var node :| node in p.subflows[a] && b in Targets(node);
      assert InFlow(p, Some(a), node);
    }
    FallingMeansAcyclic(g, rank);
  }
}
