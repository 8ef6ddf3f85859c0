/** Static may-impact analysis of DSL 1 definitions: a breadth-first search over the product of
    graph nodes with "an unknown edge has been crossed". */
module Impact {
  import opened Order
  import opened Values

  const MAX_NODES: nat := 100000
  const MAX_EDGES: nat := 500000
  const MAX_DEPTH: nat := 256
  const MAX_RECORDS: nat := 100000

  datatype Link = Link(source: string, target: string, kind: string, unknown: bool)

  datatype Label = DIRECT | TRANSITIVE_POSSIBLE | UNKNOWN

  /** A graph node together with whether the way to it crossed an unknown edge. */
  type Spot = (string, bool)

  // ---------------------------------------------------------------- the graph

  lemma EndsWithin(nodes: set<string>, l: Link)
    requires l.source in nodes && l.target in nodes
    ensures nodes + {l.source} == nodes && nodes + {l.source} + {l.target} == nodes && nodes + {l.source, l.target} == nodes
  {
  }

  /** `_Graph`: bounded nodes and edges; adding an edge adds its ends. */
  class DependencyGraph {
    var nodes: set<string>
    var links: set<Link>
    var edgeCount: nat

    ghost predicate Valid()
      reads this
    {
      && edgeCount == |links| <= MAX_EDGES && |nodes| <= MAX_NODES
      && forall l :: l in links ==> l.source in nodes && l.target in nodes
    }

    constructor ()
      ensures Valid() && nodes == {} && links == {}
    {
      nodes, links, edgeCount := {}, {}, 0;
    }

    method AddNode(path: string) returns (ok: bool)
      requires Valid()
      modifies this
      ensures ok <==> |old(nodes) + {path}| <= MAX_NODES
      ensures nodes == old(nodes) + {path} && links == old(links)
      ensures ok ==> Valid()
    {
      nodes := nodes + {path};
      ok := |nodes| <= MAX_NODES;
    }

    method AddEdge(l: Link) returns (ok: bool)
      requires Valid()
      modifies this
      ensures ok ==> Valid() && nodes == old(nodes) + {l.source, l.target} && links == old(links) + {l}
      ensures ok <==> |old(nodes) + {l.source}| <= MAX_NODES && |old(nodes) + {l.source} + {l.target}| <= MAX_NODES
                      && |old(links) + {l}| <= MAX_EDGES
    {
      ok := AddNode(l.source);
      if !ok { return; }
      ok := AddNode(l.target);
      if !ok { return; }
      var prior := |links|;
      links := links + {l};
      edgeCount := edgeCount + (|links| - prior);
      ok := edgeCount <= MAX_EDGES;
    }

    method AddNodes(more: set<string>) returns (ok: bool)
      requires Valid()
      modifies this
      ensures ok <==> |old(nodes) + more| <= MAX_NODES
      ensures links == old(links)
      ensures ok ==> Valid() && nodes == old(nodes) + more
    {
      var left := more;
      ok := true;
      while left != {}
        invariant Valid() && left <= more && nodes == old(nodes) + (more - left) && links == old(links)
        decreases left
      {
        var n :| n in left;
        SubsetAtMost(nodes + {n}, old(nodes) + more);
        ok := AddNode(n);
        if !ok { return; }
        left := left - {n};
      }
      assert nodes == old(nodes) + more;
    }

    method AddLinks(more: set<Link>) returns (ok: bool)
      requires Valid() && forall l :: l in more ==> l.source in nodes && l.target in nodes
      modifies this
      ensures ok <==> |old(links) + more| <= MAX_EDGES
      ensures ok ==> Valid() && nodes == old(nodes) && links == old(links) + more
    {
      var left := more;
      ghost var done: set<Link> := {};
      ok := true;
      while left != {}
        invariant Valid() && nodes == old(nodes) && links == old(links) + done
        invariant left + done == more
        decreases left
      {
        var l :| l in left;
        EndsWithin(nodes, l);
        SubsetAtMost(links + {l}, old(links) + more);
        ok := AddEdge(l);
        if !ok { return; }
        left, done := left - {l}, done + {l};
      }
    }

    /** Merging another graph adds exactly its nodes and edges, and fails exactly when a bound is exceeded. */
    method Merge(other: DependencyGraph) returns (ok: bool)
      requires Valid() && other.Valid() && other != this
      modifies this
      ensures ok <==> |old(nodes) + other.nodes| <= MAX_NODES && |old(links) + other.links| <= MAX_EDGES
      ensures ok ==> Valid() && nodes == old(nodes) + other.nodes && links == old(links) + other.links
    {
      ok := AddNodes(other.nodes);
      if !ok { return; }
      ok := AddLinks(other.links);
    }
  }

  // ---------------------------------------------------------------- walks

  /** A walk of the graph that starts at one of the direct nodes. */
  ghost predicate IsWalk(links: set<Link>, direct: set<string>, walk: seq<Link>, end: string) {
    && (forall i :: 0 <= i < |walk| ==> walk[i] in links)
    && (forall i :: 0 < i < |walk| ==> walk[i].source == walk[i - 1].target)
    && if walk == [] then end in direct else walk[0].source in direct && walk[|walk| - 1].target == end
  }

  ghost predicate Crosses(walk: seq<Link>) {
    exists i :: 0 <= i < |walk| && walk[i].unknown
  }

  ghost predicate Reached(links: set<Link>, direct: set<string>, s: Spot) {
    exists walk :: IsWalk(links, direct, walk, s.0) && Crosses(walk) == s.1
  }

  function Follow(s: Spot, l: Link): Spot {
    (l.target, s.1 || l.unknown)
  }

  function Successors(links: set<Link>, spots: set<Spot>): set<Spot> {
    set s, l | s in spots && l in links && l.source == s.0 :: Follow(s, l)
  }

  /** Spots at the end of walks of at most k edges. */
  ghost function Within(links: set<Link>, direct: set<string>, k: nat): set<Spot> {
    if k == 0 then set d | d in direct :: (d, false)
    else Within(links, direct, k - 1) + Successors(links, Within(links, direct, k - 1))
  }

  lemma {:induction false} WithinIsReached(links: set<Link>, direct: set<string>, k: nat, s: Spot) returns (walk: seq<Link>)
    requires s in Within(links, direct, k)
    ensures IsWalk(links, direct, walk, s.0) && Crosses(walk) == s.1
  {
    hide IsWalk, Crosses, Successors;
    if k == 0 {
      walk := [];
      NoWalk(links, direct, s.0);
    } else if s in Within(links, direct, k - 1) {
      walk := WithinIsReached(links, direct, k - 1, s);
    } else {
      var r, l := LastStep(links, Within(links, direct, k - 1), s);
      walk := WithinIsReached(links, direct, k - 1, r);
      LongerWalk(links, direct, walk, r.0, l);
      walk := walk + [l];
    }
  }

  lemma LastStep(links: set<Link>, spots: set<Spot>, s: Spot) returns (r: Spot, l: Link)
    requires s in Successors(links, spots)
    ensures r in spots && l in links && l.source == r.0 && s == Follow(r, l)
  {
    r, l :| r in spots && l in links && l.source == r.0 && s == Follow(r, l);
  }

  lemma NoWalk(links: set<Link>, direct: set<string>, n: string)
    requires n in direct
    ensures IsWalk(links, direct, [], n) && !Crosses([])
  {
  }

  lemma LongerWalk(links: set<Link>, direct: set<string>, walk: seq<Link>, end: string, l: Link)
    requires IsWalk(links, direct, walk, end) && l in links && l.source == end
    ensures IsWalk(links, direct, walk + [l], l.target) && Crosses(walk + [l]) == (Crosses(walk) || l.unknown)
  {
    var longer := walk + [l];
    assert longer[|walk|] == l;
    if Crosses(walk) {
      var i :| 0 <= i < |walk| && walk[i].unknown;
      assert longer[i].unknown;
    }
    if Crosses(longer) && !l.unknown {
      var i :| 0 <= i < |longer| && longer[i].unknown;
      assert walk[i].unknown;
    }
  }

  lemma {:induction false} WalkIsWithin(links: set<Link>, direct: set<string>, walk: seq<Link>, end: string)
    requires IsWalk(links, direct, walk, end)
    ensures (end, Crosses(walk)) in Within(links, direct, |walk|)
    decreases |walk|
  {
    if walk == [] {
      assert !Crosses(walk);
    } else {
      var front, l := walk[..|walk| - 1], walk[|walk| - 1];
      assert IsWalk(links, direct, front, l.source);
      WalkIsWithin(links, direct, front, l.source);
      var s := (l.source, Crosses(front));
      assert Crosses(walk) == (Crosses(front) || l.unknown) by {
        if Crosses(front) {
          var i :| 0 <= i < |front| && front[i].unknown;
          assert walk[i].unknown;
        }
        if l.unknown { assert walk[|walk| - 1].unknown; }
        if Crosses(walk) && !l.unknown {
          var i :| 0 <= i < |walk| && walk[i].unknown;
          assert front[i].unknown;
        }
      }
      assert Follow(s, l) == (end, Crosses(walk));
      assert Follow(s, l) in Successors(links, Within(links, direct, |walk| - 1));
    }
  }

  lemma {:induction false} WithinGrows(links: set<Link>, direct: set<string>, j: nat, k: nat)
    requires j <= k
    ensures Within(links, direct, j) <= Within(links, direct, k)
    decreases k - j
  {
    hide Successors;
    if j < k { WithinGrows(links, direct, j, k - 1); }
  }

  lemma {:induction false} ClosedStays(links: set<Link>, direct: set<string>, j: nat, k: nat)
    requires j <= k && Successors(links, Within(links, direct, j)) <= Within(links, direct, j)
    ensures Within(links, direct, k) == Within(links, direct, j)
    decreases k - j
  {
    hide Successors;
    if j < k { ClosedStays(links, direct, j, k - 1); }
  }

  /** Once a level adds nothing, it holds exactly the reached spots. */
  lemma ClosedIsReached(links: set<Link>, direct: set<string>, k: nat, s: Spot)
    requires Successors(links, Within(links, direct, k)) <= Within(links, direct, k)
    ensures s in Within(links, direct, k) <==> Reached(links, direct, s)
  {
    if s in Within(links, direct, k) { var _ := WithinIsReached(links, direct, k, s); }
    if Reached(links, direct, s) {
      var walk :| IsWalk(links, direct, walk, s.0) && Crosses(walk) == s.1;
      WalkIsWithin(links, direct, walk, s.0);
      if |walk| <= k { WithinGrows(links, direct, |walk|, k); } else { ClosedStays(links, direct, k, |walk|); }
    }
  }

  /** The graph is shallow: nothing is first reached at the depth cap. */
  ghost predicate Shallow(links: set<Link>, direct: set<string>) {
    Within(links, direct, MAX_DEPTH) == Within(links, direct, MAX_DEPTH - 1)
  }

  /** The nodes the search can meet. */
  function Names(links: set<Link>, direct: set<string>): set<string> {
    direct + set l | l in links :: l.target
  }

  function Marked(names: set<string>, crossed: bool): set<Spot> {
    set n | n in names :: (n, crossed)
  }

  lemma {:induction false} MarkedSize(names: set<string>, crossed: bool)
    ensures |Marked(names, crossed)| == |names|
    decreases names
  {
    if names == {} {
      assert Marked(names, crossed) == {};
    } else {
      var n :| n in names;
      MarkedSize(names - {n}, crossed);
      assert Marked(names, crossed) == Marked(names - {n}, crossed) + {(n, crossed)};
    }
  }

  /** Every spot the graph has: each node with and without an uncertain way to it. */
  ghost function Universe(links: set<Link>, direct: set<string>): set<Spot> {
    Marked(Names(links, direct), false) + Marked(Names(links, direct), true)
  }

  lemma {:induction false} WithinUniverse(links: set<Link>, direct: set<string>, k: nat)
    ensures Within(links, direct, k) <= Universe(links, direct)
  {
    if k > 0 {
      WithinUniverse(links, direct, k - 1);
      assert Successors(links, Within(links, direct, k - 1)) <= Universe(links, direct);
    }
  }

  /** Each level adds a spot until one is closed. */
  lemma {:induction false} GrowsUntilClosed(links: set<Link>, direct: set<string>, k: nat)
    requires direct != {}
    ensures |Within(links, direct, k)| > k || Within(links, direct, k + 1) == Within(links, direct, k)
  {
    hide Successors;
    if k == 0 {
      var n :| n in direct;
      assert (n, false) in Within(links, direct, 0);
    } else {
      GrowsUntilClosed(links, direct, k - 1);
      var before, now := Within(links, direct, k - 1), Within(links, direct, k);
      if before == now {
        assert Within(links, direct, k + 1) == now + Successors(links, now);
      } else {
        var s :| s in now && s !in before;
        SubsetAtMost(before + {s}, now);
      }
    }
  }

  /** A graph with at most half the cap's number of nodes is shallow, whatever its edges. */
  lemma SmallGraphsAreShallow(links: set<Link>, direct: set<string>)
    requires direct != {} && 2 * |Names(links, direct)| <= MAX_DEPTH
    ensures Shallow(links, direct)
  {
    MarkedSize(Names(links, direct), false);
    MarkedSize(Names(links, direct), true);
    assert |Universe(links, direct)| <= MAX_DEPTH;
    hide Universe, Successors, Names, Marked;
    var top := Within(links, direct, MAX_DEPTH - 1);
    GrowsUntilClosed(links, direct, MAX_DEPTH - 1);
    WithinUniverse(links, direct, MAX_DEPTH - 1);
    WithinUniverse(links, direct, MAX_DEPTH);
    WithinGrows(links, direct, MAX_DEPTH - 1, MAX_DEPTH);
    if |top| >= MAX_DEPTH && top != Universe(links, direct) { SubsetSmaller(top, Universe(links, direct)); }
  }

  // ---------------------------------------------------------------- labels

  /** A node's label, from the spots met and those among them left unexpanded at the cap. */
  function LabelGiven(direct: set<string>, met: set<Spot>, capped: set<Spot>, n: string): Label {
    if (n, false) in capped || (n, true) in capped then UNKNOWN
    else if n in direct then DIRECT
    else if (n, true) in met then UNKNOWN
    else TRANSITIVE_POSSIBLE
  }

  /** The spots met are those within the cap; the ones first met at the cap are not expanded. */
  ghost function Capped(links: set<Link>, direct: set<string>): set<Spot> {
    Within(links, direct, MAX_DEPTH) - Within(links, direct, MAX_DEPTH - 1)
  }

  ghost predicate Near(links: set<Link>, direct: set<string>, n: string) {
    (n, false) in Within(links, direct, MAX_DEPTH) || (n, true) in Within(links, direct, MAX_DEPTH)
  }

  /** What the search reports, on every graph. */
  ghost function LabelsOf(links: set<Link>, direct: set<string>): map<string, Label> {
    map n | n in Names(links, direct) && Near(links, direct, n) :: LabelGiven(direct, Within(links, direct, MAX_DEPTH), Capped(links, direct), n)
  }

  lemma LabelsOfKeys(links: set<Link>, direct: set<string>, n: string)
    ensures n in LabelsOf(links, direct) <==> Near(links, direct, n)
  {
    WithinUniverse(links, direct, MAX_DEPTH);
  }

  /** On every graph each reported node is reachable, and each node within the cap is reported. */
  lemma ReportedIsReachable(links: set<Link>, direct: set<string>, n: string)
    ensures n in LabelsOf(links, direct) ==> Reached(links, direct, (n, false)) || Reached(links, direct, (n, true))
    ensures (exists walk :: IsWalk(links, direct, walk, n) && |walk| <= MAX_DEPTH) ==> n in LabelsOf(links, direct)
  {
    hide IsWalk, Crosses, Within, LabelsOf;
    LabelsOfKeys(links, direct, n);
    if Near(links, direct, n) {
      var crossed := (n, true) in Within(links, direct, MAX_DEPTH);
      var _ := WithinIsReached(links, direct, MAX_DEPTH, (n, crossed));
    }
    if walk :| IsWalk(links, direct, walk, n) && |walk| <= MAX_DEPTH {
      WalkIsWithin(links, direct, walk, n);
      WithinGrows(links, direct, |walk|, MAX_DEPTH);
    }
  }

  /** The labels say exactly what walks there are: the reachable nodes are reported, the direct ones as
      DIRECT, and another as UNKNOWN if and only if some walk to it crosses an unknown edge. */
  ghost predicate Exact(links: set<Link>, direct: set<string>, best: map<string, Label>) {
    && (forall n :: n in best <==> Reached(links, direct, (n, false)) || Reached(links, direct, (n, true)))
    && forall n :: n in best ==>
         && (best[n] == DIRECT <==> n in direct)
         && (n !in direct ==> (best[n] == UNKNOWN <==> Reached(links, direct, (n, true))))
  }

  /** What the cap must spare at a reached spot: its node lies within the cap; a direct node is not met
      again, uncertainly, at the cap itself; and another node is met at the cap, or uncertainly within
      it, if it can be reached uncertainly, the former only if it can. */
  ghost predicate Spared(links: set<Link>, direct: set<string>, s: Spot) {
    && Near(links, direct, s.0)
    && (if s.0 in direct then (s.0, true) !in Capped(links, direct)
        else
          && (s.1 ==> (s.0, true) in Within(links, direct, MAX_DEPTH) || (s.0, false) in Capped(links, direct))
          && ((s.0, false) in Capped(links, direct) ==> Reached(links, direct, (s.0, true))))
  }

  lemma DirectNotCapped(links: set<Link>, direct: set<string>, n: string)
    requires n in direct
    ensures (n, false) in Within(links, direct, MAX_DEPTH) && (n, false) !in Capped(links, direct)
  {
    WithinGrows(links, direct, 0, MAX_DEPTH);
    WithinGrows(links, direct, 0, MAX_DEPTH - 1);
    assert (n, false) in Within(links, direct, 0);
  }

  /** The reported labels are exact if and only if the cap spares every reached spot. */
  lemma LabelsExactly(links: set<Link>, direct: set<string>)
    ensures Exact(links, direct, LabelsOf(links, direct)) <==> forall s :: Reached(links, direct, s) ==> Spared(links, direct, s)
  {
    hide Within, Reached, Successors;
    var best := LabelsOf(links, direct);
    forall n ensures n in best <==> Near(links, direct, n) { LabelsOfKeys(links, direct, n); }
    forall n | n in direct ensures (n, false) in Within(links, direct, MAX_DEPTH) && (n, false) !in Capped(links, direct) {
      DirectNotCapped(links, direct, n);
    }
    forall s: Spot | s in Within(links, direct, MAX_DEPTH) ensures Reached(links, direct, s) { MetIsReached(links, direct, s); }
    if Exact(links, direct, best) {
      forall s: Spot | Reached(links, direct, s) ensures Spared(links, direct, s) {
        assert s == (s.0, s.1);
        if s.1 { assert s == (s.0, true); } else { assert s == (s.0, false); }
        assert s.0 in best;
      }
    }
    if forall s :: Reached(links, direct, s) ==> Spared(links, direct, s) {
      forall n ensures n in best <==> Reached(links, direct, (n, false)) || Reached(links, direct, (n, true)) {}
      forall n | n in best
        ensures best[n] == DIRECT <==> n in direct
        ensures n !in direct ==> (best[n] == UNKNOWN <==> Reached(links, direct, (n, true)))
      {
        SparedLabel(links, direct, n);
      }
    }
  }

  lemma MetIsReached(links: set<Link>, direct: set<string>, s: Spot)
    requires s in Within(links, direct, MAX_DEPTH)
    ensures Reached(links, direct, s)
  {
    hide Within;
    var _ := WithinIsReached(links, direct, MAX_DEPTH, s);
  }

  lemma SparedLabel(links: set<Link>, direct: set<string>, n: string)
    requires forall s :: Reached(links, direct, s) ==> Spared(links, direct, s)
    requires n in LabelsOf(links, direct)
    ensures LabelsOf(links, direct)[n] == DIRECT <==> n in direct
    ensures n !in direct ==> (LabelsOf(links, direct)[n] == UNKNOWN <==> Reached(links, direct, (n, true)))
  {
    hide Within, Reached, Successors;
    LabelsOfKeys(links, direct, n);
    var crossed := (n, true) in Within(links, direct, MAX_DEPTH);
    MetIsReached(links, direct, (n, crossed));
    assert Spared(links, direct, (n, crossed));
    if n in direct { DirectNotCapped(links, direct, n); }
    if Reached(links, direct, (n, true)) { assert Spared(links, direct, (n, true)); }
  }

  /** A shallow graph is always labelled exactly. */
  lemma ShallowIsExact(links: set<Link>, direct: set<string>)
    requires Shallow(links, direct)
    ensures Exact(links, direct, LabelsOf(links, direct))
  {
    hide Successors;
    var top := Within(links, direct, MAX_DEPTH - 1);
    assert Within(links, direct, MAX_DEPTH) == top + Successors(links, top);
    hide Within, Reached;
    forall s: Spot | Reached(links, direct, s) ensures Spared(links, direct, s) {
      ClosedIsReached(links, direct, MAX_DEPTH - 1, s);
    }
    LabelsExactly(links, direct);
  }

  /** The labels that fit a set of visited spots. */
  ghost predicate Labelled(direct: set<string>, visited: set<Spot>, best: map<string, Label>) {
    && (forall n :: n in best <==> (n, false) in visited || (n, true) in visited)
    && (forall n :: n in direct ==> (n, false) in visited)
    && forall n :: n in best ==>
         best[n] == if n in direct then DIRECT else if (n, true) in visited then UNKNOWN else TRANSITIVE_POSSIBLE
  }

  function Relabel(direct: set<string>, best: map<string, Label>, s: Spot): map<string, Label> {
    if s.0 in direct then best
    else if s.1 then best[s.0 := UNKNOWN]
    else if s.0 in best then best
    else best[s.0 := TRANSITIVE_POSSIBLE]
  }

  lemma RelabelFits(direct: set<string>, visited: set<Spot>, best: map<string, Label>, s: Spot)
    requires Labelled(direct, visited, best)
    ensures Labelled(direct, visited + {s}, Relabel(direct, best, s))
  {
  }

  // ---------------------------------------------------------------- the search

  datatype Item = Item(spot: Spot, depth: nat)

  ghost function Spots(queue: seq<Item>): set<Spot> {
    set item | item in queue :: item.spot
  }

  /** The search state: finished spots, and the queue whose first `now` items lie at depth d and the rest at d + 1. */
  ghost predicate Exploring(links: set<Link>, direct: set<string>, done: set<Spot>, queue: seq<Item>, now: nat, d: nat) {
    && now <= |queue|
    && (forall i :: 0 <= i < now ==> queue[i].depth == d)
    && (forall i :: now <= i < |queue| ==> queue[i].depth == d + 1)
    && done + Spots(queue[..now]) == Within(links, direct, d)
    && Spots(queue[now..]) == Successors(links, done) - Within(links, direct, d)
    && (d > 0 ==> Spots(queue[..now]) !! Within(links, direct, d - 1))
    && Waiting(done, queue)
  }

  ghost predicate Waiting(done: set<Spot>, queue: seq<Item>) {
    && (forall i, j :: 0 <= i < j < |queue| ==> queue[i].spot != queue[j].spot)
    && done !! Spots(queue)
  }

  /** When the current level is used up, the rest of the queue is the next level. */
  lemma NextLevel(links: set<Link>, direct: set<string>, done: set<Spot>, queue: seq<Item>, d: nat)
    requires Exploring(links, direct, done, queue, 0, d)
    ensures Exploring(links, direct, done, queue, |queue|, d + 1)
  {
    assert queue[..0] == [] && queue[0..] == queue && queue[..|queue|] == queue && queue[|queue|..] == [];
    assert Spots([]) == {};
    assert done == Within(links, direct, d);
    assert Within(links, direct, d + 1) == done + Successors(links, done);
    assert Successors(links, done) - Within(links, direct, d + 1) == {};
  }

  method Frontier(direct: set<string>) returns (queue: seq<Item>)
    ensures forall i :: 0 <= i < |queue| ==> queue[i].depth == 0 && queue[i].spot.0 in direct && !queue[i].spot.1
    ensures forall n :: n in direct ==> (n, false) in Spots(queue)
    ensures forall i, j :: 0 <= i < j < |queue| ==> queue[i].spot != queue[j].spot
  {
    queue := [];
    var left := direct;
    while left != {}
      invariant left <= direct
      invariant forall i :: 0 <= i < |queue| ==> queue[i].depth == 0 && queue[i].spot.0 in direct - left && !queue[i].spot.1
      invariant forall n :: n in direct - left ==> (n, false) in Spots(queue)
      invariant forall i, j :: 0 <= i < j < |queue| ==> queue[i].spot != queue[j].spot
      decreases left
    {
      var n :| n in left;
      left := left - {n};
      var longer := queue + [Item((n, false), 0)];
      assert Spots(longer) == Spots(queue) + {(n, false)} by {
        assert longer[|queue|] == Item((n, false), 0);
        forall s | s in Spots(queue) ensures s in Spots(longer) {
          var item :| item in queue && item.spot == s;
          assert item in longer;
        }
      }
      queue := longer;
    }
  }

  /** The edge loop of one dequeued spot, in whatever order its edges are taken. */
  method Expand(links: set<Link>, direct: set<string>, at: Item, ghost done: set<Spot>, rest: seq<Item>, visited0: set<Spot>, best0: map<string, Label>)
      returns (queue: seq<Item>, visited: set<Spot>, best: map<string, Label>)
    requires Waiting(done, rest) && visited0 == done + Spots(rest)
    ensures visited == visited0 + Successors(links, {at.spot})
    ensures Labelled(direct, visited0, best0) ==> Labelled(direct, visited, best)
    ensures Waiting(done, queue) && visited == done + Spots(queue)
    ensures |rest| <= |queue| && queue[..|rest|] == rest
    ensures Spots(queue[|rest|..]) == Successors(links, {at.spot}) - visited0
    ensures forall i :: |rest| <= i < |queue| ==> queue[i].depth == at.depth + 1
  {
    hide Successors, Labelled, Waiting, Spots;
    queue, visited, best := rest, visited0, best0;
    NoEdges(at.spot);
    NothingWaits(queue[|rest|..]);
    var edges := set l | l in links && l.source == at.spot.0;
    var left := edges;
    assert edges - left == {};
    while left != {}
      invariant left <= edges
      invariant visited == visited0 + Successors(edges - left, {at.spot})
      invariant Labelled(direct, visited0, best0) ==> Labelled(direct, visited, best)
      invariant Waiting(done, queue) && visited == done + Spots(queue)
      invariant |rest| <= |queue| && queue[..|rest|] == rest
      invariant Spots(queue[|rest|..]) == Successors(edges - left, {at.spot}) - visited0
      invariant forall i :: |rest| <= i < |queue| ==> queue[i].depth == at.depth + 1
      decreases left
    {
      var l :| l in left;
      OneMoreEdge(edges - left, l, at.spot);
      assert edges - (left - {l}) == edges - left + {l};
      queue, visited, best := TakeEdge(direct, at, l, done, |rest|, queue, visited, best);
      left := left - {l};
    }
    assert edges - left == edges;
    OwnEdges(links, edges, at.spot);
  }

  /** One edge: visit and queue its end unless already visited, then label it. */
  method TakeEdge(direct: set<string>, at: Item, l: Link, ghost done: set<Spot>, ghost from: nat,
                  queue0: seq<Item>, visited0: set<Spot>, best0: map<string, Label>)
      returns (queue: seq<Item>, visited: set<Spot>, best: map<string, Label>)
    requires Waiting(done, queue0) && visited0 == done + Spots(queue0) && from <= |queue0|
    ensures var s := Follow(at.spot, l);
            && visited == visited0 + {s}
            && queue == (if s in visited0 then queue0 else queue0 + [Item(s, at.depth + 1)])
            && Spots(queue[from..]) == Spots(queue0[from..]) + (if s in visited0 then {} else {s})
    ensures Labelled(direct, visited0, best0) ==> Labelled(direct, visited, best)
    ensures Waiting(done, queue) && visited == done + Spots(queue)
    ensures from <= |queue| && queue[..from] == queue0[..from]
  {
    queue, visited := queue0, visited0;
    var s := Follow(at.spot, l);
    if s !in visited {
      Enqueued(queue, Item(s, at.depth + 1), from);
      forall i | 0 <= i < |queue| ensures queue[i].spot != s { assert queue[i] in queue && queue[i].spot in Spots(queue); }
      queue := queue + [Item(s, at.depth + 1)];
    }
    if Labelled(direct, visited, best0) { RelabelFits(direct, visited, best0, s); }
    visited := visited + {s};
    best := Relabel(direct, best0, s);
  }

  lemma OwnEdges(links: set<Link>, edges: set<Link>, s: Spot)
    requires forall l :: l in edges <==> l in links && l.source == s.0
    ensures Successors(edges, {s}) == Successors(links, {s})
  {
  }

  lemma NoEdges(s: Spot)
    ensures Successors({}, {s}) == {}
  {
  }

  lemma OneMoreEdge(taken: set<Link>, l: Link, s: Spot)
    requires l.source == s.0
    ensures Successors(taken + {l}, {s}) == Successors(taken, {s}) + {Follow(s, l)}
  {
  }

  lemma Enqueued(queue: seq<Item>, item: Item, from: nat)
    requires from <= |queue|
    ensures Spots(queue + [item]) == Spots(queue) + {item.spot}
    ensures (queue + [item])[from..] == queue[from..] + [item]
    ensures Spots((queue + [item])[from..]) == Spots(queue[from..]) + {item.spot}
    ensures (queue + [item])[..from] == queue[..from]
  {
    SpotsAppend(queue, item);
    SpotsAppend(queue[from..], item);
  }

  lemma SpotsAppend(queue: seq<Item>, item: Item)
    ensures Spots(queue + [item]) == Spots(queue) + {item.spot}
  {
    var longer := queue + [item];
    assert longer[|queue|] == item;
    forall s ensures s in Spots(longer) <==> s in Spots(queue) + {item.spot} {
      if s in Spots(queue) {
        var x :| x in queue && x.spot == s;
        assert x in longer;
      }
    }
  }

  /** Dequeuing a spot and queueing its new successors keeps the levels intact. */
  lemma StepKeepsLevels(links: set<Link>, direct: set<string>, done: set<Spot>, queue: seq<Item>, now: nat, d: nat, next: seq<Item>)
    requires Exploring(links, direct, done, queue, now, d) && now > 0
    requires var rest := queue[1..];
             && |rest| <= |next| && next[..|rest|] == rest
             && Spots(next[|rest|..]) == Successors(links, {queue[0].spot}) - (done + Spots(queue))
             && (forall i :: |rest| <= i < |next| ==> next[i].depth == d + 1)
             && Waiting(done + {queue[0].spot}, next)
    ensures Exploring(links, direct, done + {queue[0].spot}, next, now - 1, d)
  {
    hide Within, Successors, Spots, Waiting;
    var rest, s := queue[1..], queue[0].spot;
    assert forall i :: 0 <= i < |rest| ==> next[i] == rest[i] == queue[i + 1];
    assert queue[..now] == [queue[0]] + next[..now - 1];
    SpotsSplit([queue[0]], next[..now - 1]);
    assert next[now - 1..] == queue[now..] + next[|rest|..];
    SpotsSplit(queue[now..], next[|rest|..]);
    assert queue == queue[..now] + queue[now..];
    SpotsSplit(queue[..now], queue[now..]);
    SpotsOne(queue[0]);
    SuccessorsJoin(links, done, s);
  }

  lemma SuccessorsJoin(links: set<Link>, done: set<Spot>, s: Spot)
    ensures Successors(links, done + {s}) == Successors(links, done) + Successors(links, {s})
  {
  }

  lemma SpotsOne(item: Item)
    ensures Spots([item]) == {item.spot}
  {
  }

  lemma SpotsSplit(a: seq<Item>, b: seq<Item>)
    ensures Spots(a + b) == Spots(a) + Spots(b)
  {
    forall s ensures s in Spots(a + b) <==> s in Spots(a) + Spots(b) {
      if s in Spots(a) { var x :| x in a && x.spot == s; assert x in a + b; }
      if s in Spots(b) { var x :| x in b && x.spot == s; assert x in a + b; }
    }
  }

  /** Past the cap: everything met is done or waits at the cap, and what is done there is labelled UNKNOWN. */
  ghost predicate Capping(links: set<Link>, direct: set<string>, done: set<Spot>, queue: seq<Item>, best: map<string, Label>) {
    && done + Spots(queue) == Within(links, direct, MAX_DEPTH) && Within(links, direct, MAX_DEPTH - 1) <= done
    && (forall i :: 0 <= i < |queue| ==> queue[i].depth >= MAX_DEPTH)
    && (forall n :: n in best <==> Near(links, direct, n))
    && forall n :: n in best ==>
         best[n] == LabelGiven(direct, Within(links, direct, MAX_DEPTH), done - Within(links, direct, MAX_DEPTH - 1), n)
  }

  lemma StartCapping(links: set<Link>, direct: set<string>, done: set<Spot>, queue: seq<Item>, visited: set<Spot>, best: map<string, Label>)
    requires Exploring(links, direct, done, queue, 0, MAX_DEPTH - 1) && visited == done + Spots(queue) && Labelled(direct, visited, best)
    ensures Capping(links, direct, done, queue, best)
  {
    NextLevel(links, direct, done, queue, MAX_DEPTH - 1);
    assert queue[..0] == [] && queue[..|queue|] == queue;
    assert Spots([]) == {};
    assert done == Within(links, direct, MAX_DEPTH - 1) && visited == Within(links, direct, MAX_DEPTH);
    hide Within;
    assert done - Within(links, direct, MAX_DEPTH - 1) == {};
    forall n | n in best
      ensures best[n] == LabelGiven(direct, Within(links, direct, MAX_DEPTH), done - Within(links, direct, MAX_DEPTH - 1), n)
    {
    }
  }

  lemma CapOne(links: set<Link>, direct: set<string>, done: set<Spot>, queue: seq<Item>, best: map<string, Label>)
    requires queue != [] && Waiting(done, queue) && Capping(links, direct, done, queue, best)
    ensures Capping(links, direct, done + {queue[0].spot}, queue[1..], best[queue[0].spot.0 := UNKNOWN])
  {
    hide Within, Waiting, Spots;
    var s, rest := queue[0].spot, queue[1..];
    Dequeued(done, queue);
    assert s in Within(links, direct, MAX_DEPTH) && s !in Within(links, direct, MAX_DEPTH - 1);
    var capped, next := done - Within(links, direct, MAX_DEPTH - 1), best[s.0 := UNKNOWN];
    assert (done + {s}) - Within(links, direct, MAX_DEPTH - 1) == capped + {s};
    if s.1 { assert s == (s.0, true); } else { assert s == (s.0, false); }
    forall n | n in next ensures next[n] == LabelGiven(direct, Within(links, direct, MAX_DEPTH), capped + {s}, n) {
      if n != s.0 { assert (n, false) != s && (n, true) != s; }
    }
    assert forall i :: 0 <= i < |rest| ==> rest[i] == queue[i + 1];
  }

  lemma CappedLabels(links: set<Link>, direct: set<string>, done: set<Spot>, best: map<string, Label>)
    requires Capping(links, direct, done, [], best)
    ensures best == LabelsOf(links, direct)
  {
    hide Within;
    assert Spots([]) == {};
    assert done - Within(links, direct, MAX_DEPTH - 1) == Capped(links, direct);
    forall n ensures n in best <==> n in LabelsOf(links, direct) { LabelsOfKeys(links, direct, n); }
  }

  /** An empty queue before the cap: nothing is capped. */
  lemma UncappedLabels(links: set<Link>, direct: set<string>, done: set<Spot>, d: nat, now: nat, best: map<string, Label>)
    requires Exploring(links, direct, done, [], now, d) && d < MAX_DEPTH && Labelled(direct, done, best)
    ensures best == LabelsOf(links, direct)
  {
    hide Reached;
    var none: seq<Item> := [];
    assert none[..now] == [] && none[now..] == [];
    assert Spots([]) == {};
    assert done == Within(links, direct, d) && Successors(links, done) <= done;
    ClosedStays(links, direct, d, MAX_DEPTH - 1);
    ClosedStays(links, direct, d, MAX_DEPTH);
    hide Within, Successors;
    assert Capped(links, direct) == {};
    forall n ensures n in best <==> n in LabelsOf(links, direct) { LabelsOfKeys(links, direct, n); }
  }

  /** The search of `analyze_impact` for one change: which nodes it reports, and how it labels them, on
      every graph. */
  method ImpactOf(links: set<Link>, direct: set<string>) returns (best: map<string, Label>)
    ensures best == LabelsOf(links, direct)
  {
    hide Exploring, Labelled, Capping, LabelsOf, Waiting, Spots, Successors, Universe, Within;
    best := map n | n in direct :: DIRECT;
    var queue := Frontier(direct);
    var visited := set n | n in direct :: (n, false);
    ghost var done: set<Spot>, now: nat, d: nat, capping := {}, |queue|, 0, false;
    StartExploring(links, direct, queue, visited, best);
    ghost var universe := Universe(links, direct);
    while queue != []
      invariant done <= universe && Spots(queue) <= universe && Waiting(done, queue)
      invariant visited == done + Spots(queue)
      invariant !capping ==> d < MAX_DEPTH && Labelled(direct, visited, best) && Exploring(links, direct, done, queue, now, d)
      invariant capping ==> Capping(links, direct, done, queue, best)
      decreases universe - done
    {
      var at := queue[0];
      if !capping && now == 0 {
        if d + 1 == MAX_DEPTH {
          StartCapping(links, direct, done, queue, visited, best);
          capping := true;
        } else {
          NextLevel(links, direct, done, queue, d);
          now, d := |queue|, d + 1;
        }
      }
      if capping { CappingWindow(links, direct, done, queue, best); } else { ExploringWindow(links, direct, done, queue, now, d); }
      Dequeued(done, queue);
      ghost var before := queue;
      if at.depth >= MAX_DEPTH {
        CapOne(links, direct, done, queue, best);
        best := best[at.spot.0 := UNKNOWN];
        queue := queue[1..];
      } else {
        SuccessorsInUniverse(links, direct, at.spot);
        queue, visited, best := Expand(links, direct, at, done + {at.spot}, queue[1..], visited, best);
        SpotsSplit(queue[..|before| - 1], queue[|before| - 1..]);
        assert queue == queue[..|before| - 1] + queue[|before| - 1..];
        StepKeepsLevels(links, direct, done, before, now, d, queue);
        now := now - 1;
      }
      done := done + {at.spot};
    }
    NothingWaits(queue);
    assert visited == done;
    if capping { CappedLabels(links, direct, done, best); } else { UncappedLabels(links, direct, done, d, now, best); }
  }

  /** Taking the first item off the queue. */
  lemma Dequeued(done: set<Spot>, queue: seq<Item>)
    requires Waiting(done, queue) && queue != []
    ensures Spots(queue) == {queue[0].spot} + Spots(queue[1..])
    ensures Waiting(done + {queue[0].spot}, queue[1..])
    ensures queue[0].spot !in done
  {
    assert queue == [queue[0]] + queue[1..];
    SpotsSplit([queue[0]], queue[1..]);
    assert Spots([queue[0]]) == {queue[0].spot};
    WaitingTail(done, queue);
  }

  lemma NothingWaits(queue: seq<Item>)
    requires queue == []
    ensures Spots(queue) == {}
  {
  }

  lemma StartExploring(links: set<Link>, direct: set<string>, queue: seq<Item>, visited: set<Spot>, best: map<string, Label>)
    requires forall i :: 0 <= i < |queue| ==> queue[i].depth == 0 && queue[i].spot.0 in direct && !queue[i].spot.1
    requires forall n :: n in direct ==> (n, false) in Spots(queue)
    requires forall i, j :: 0 <= i < j < |queue| ==> queue[i].spot != queue[j].spot
    requires visited == (set n | n in direct :: (n, false)) && best == map n | n in direct :: DIRECT
    ensures Spots(queue) == visited && Labelled(direct, visited, best) && Exploring(links, direct, {}, queue, |queue|, 0)
    ensures visited <= Universe(links, direct) && Waiting({}, queue)
  {
    assert queue[..|queue|] == queue && queue[|queue|..] == [];
    assert Spots(queue) == visited;
    assert Spots([]) == {};
  }

  lemma ExploringWindow(links: set<Link>, direct: set<string>, done: set<Spot>, queue: seq<Item>, now: nat, d: nat)
    requires Exploring(links, direct, done, queue, now, d)
    ensures now <= |queue|
    ensures queue != [] && now > 0 ==> queue[0].depth == d
  {
  }

  lemma WaitingTail(done: set<Spot>, queue: seq<Item>)
    requires Waiting(done, queue) && queue != []
    ensures Waiting(done + {queue[0].spot}, queue[1..])
  {
    assert forall i :: 0 <= i < |queue[1..]| ==> queue[1..][i] == queue[i + 1];
  }

  lemma CappingWindow(links: set<Link>, direct: set<string>, done: set<Spot>, queue: seq<Item>, best: map<string, Label>)
    requires Capping(links, direct, done, queue, best) && queue != []
    ensures queue[0].depth >= MAX_DEPTH
  {
  }

  lemma SuccessorsInUniverse(links: set<Link>, direct: set<string>, s: Spot)
    ensures Successors(links, {s}) <= Universe(links, direct)
  {
  }

  datatype ChangeKind = ADDED | REMOVED | CHANGED

  datatype Change = Change(kind: ChangeKind, path: string)

  predicate UnderPath(node: string, path: string) {
    node == path || path + "/" <= node
  }

  /** `_paths_for_change`: the changed path and its descendants on the sides the change concerns. */
  function DirectNodes(change: Change, before: set<string>, after: set<string>): (direct: set<string>)
    ensures direct != {}
  {
    var nodes := match change.kind case ADDED => after case REMOVED => before case CHANGED => before + after;
    var found := set n | n in nodes && UnderPath(n, change.path);
    if found == {} then {change.path} else found
  }

  /** A node the change concerns: the changed path or one below it, after an addition, before a
      removal, and on either side of a change. */
  predicate Concerns(change: Change, before: set<string>, after: set<string>, n: string) {
    && (n == change.path || (|n| > |change.path| && n[..|change.path|] == change.path && n[|change.path|] == '/'))
    && (change.kind == ADDED ==> n in after) && (change.kind == REMOVED ==> n in before)
    && (change.kind == CHANGED ==> n in before || n in after)
  }

  /** The direct nodes are the nodes concerned; the path alone if and only if there is none. */
  ghost predicate Direct(change: Change, before: set<string>, after: set<string>, direct: set<string>) {
    if exists m :: Concerns(change, before, after, m) then forall n :: n in direct <==> Concerns(change, before, after, n)
    else direct == {change.path}
  }

  lemma DirectExactly(change: Change, before: set<string>, after: set<string>, direct: set<string>)
    ensures direct == DirectNodes(change, before, after) <==> Direct(change, before, after, direct)
  {
    var nodes := match change.kind case ADDED => after case REMOVED => before case CHANGED => before + after;
    var found := set n | n in nodes && UnderPath(n, change.path);
    forall n ensures n in found <==> Concerns(change, before, after, n) {
      if UnderPath(n, change.path) && n != change.path { assert n[..|change.path| + 1] == change.path + "/"; }
      if Concerns(change, before, after, n) && n != change.path { assert n[..|change.path| + 1] == change.path + "/"; }
    }
    if Direct(change, before, after, direct) && found != {} {
      var m :| m in found;
      assert Concerns(change, before, after, m);
      assert direct == found;
    }
  }

  /** Every direct node is reported, as DIRECT unless an uncertain way back to it ends at the cap. */
  lemma DirectReported(links: set<Link>, direct: set<string>, n: string)
    requires n in direct
    ensures n in LabelsOf(links, direct)
    ensures LabelsOf(links, direct)[n] == if (n, true) in Capped(links, direct) then UNKNOWN else DIRECT
    ensures !Reached(links, direct, (n, true)) ==> LabelsOf(links, direct)[n] == DIRECT
  {
    hide Within, Reached;
    DirectNotCapped(links, direct, n);
    LabelsOfKeys(links, direct, n);
    if (n, true) in Within(links, direct, MAX_DEPTH) { MetIsReached(links, direct, (n, true)); }
  }

  /** How many records the changes from the i-th on give. */
  ghost function RecordCount(links: set<Link>, before: set<string>, after: set<string>, changes: seq<Change>): nat {
    if changes == [] then 0
    else
      RecordCount(links, before, after, changes[..|changes| - 1])
      + |LabelsOf(links, DirectNodes(changes[|changes| - 1], before, after))|
  }

  lemma {:induction false} FewerRecords(links: set<Link>, before: set<string>, after: set<string>, changes: seq<Change>, i: nat)
    requires i <= |changes|
    ensures RecordCount(links, before, after, changes[..i]) <= RecordCount(links, before, after, changes)
    decreases |changes| - i
  {
    if i < |changes| {
      FewerRecords(links, before, after, changes, i + 1);
      assert changes[..i + 1][..i] == changes[..i];
    } else {
      assert changes[..i] == changes;
    }
  }

  /** The reports of all changes over one graph, up to the bound on their records. */
  method ImpactReports(links: set<Link>, before: set<string>, after: set<string>, changes: seq<Change>)
      returns (ok: bool, reports: seq<map<string, Label>>)
    ensures ok <==> RecordCount(links, before, after, changes) <= MAX_RECORDS
    ensures ok ==>
              && |reports| == |changes|
              && forall i :: 0 <= i < |changes| ==> reports[i] == LabelsOf(links, DirectNodes(changes[i], before, after))
  {
    hide LabelsOf, DirectNodes;
    reports := [];
    var records := 0;
    for i := 0 to |changes|
      invariant |reports| == i
      invariant records == RecordCount(links, before, after, changes[..i]) <= MAX_RECORDS
      invariant forall k :: 0 <= k < i ==> reports[k] == LabelsOf(links, DirectNodes(changes[k], before, after))
    {
      var best := ImpactOf(links, DirectNodes(changes[i], before, after));
      assert changes[..i + 1][..i] == changes[..i];
      FewerRecords(links, before, after, changes, i + 1);
      records := records + |best|;
      if records > MAX_RECORDS { return false, reports; }
      reports := reports + [best];
    }
    assert changes[..|changes|] == changes;
    ok := true;
  }

  /** Every change over the union of both definitions' graphs; fails exactly when a bound is exceeded. */
  method AnalyzeImpact(before: DependencyGraph, after: DependencyGraph, changes: seq<Change>)
      returns (ok: bool, reports: seq<map<string, Label>>)
    requires before.Valid() && after.Valid()
    ensures ok <==>
              && |before.nodes + after.nodes| <= MAX_NODES && |before.links + after.links| <= MAX_EDGES
              && RecordCount(before.links + after.links, before.nodes, after.nodes, changes) <= MAX_RECORDS
    ensures ok ==>
              && |reports| == |changes|
              && forall i :: 0 <= i < |changes| ==>
                   var direct := DirectNodes(changes[i], before.nodes, after.nodes);
                   Direct(changes[i], before.nodes, after.nodes, direct) && reports[i] == LabelsOf(before.links + after.links, direct)
    ensures ok ==> forall i, n :: 0 <= i < |changes| && Concerns(changes[i], before.nodes, after.nodes, n) ==> n in reports[i]
  {
    hide LabelsOf, DirectNodes, RecordCount;
    reports := [];
    var union := new DependencyGraph();
    assert {} + before.nodes == before.nodes && {} + before.links == before.links;
    ok := union.Merge(before);
    if !ok { return; }
    ok := union.Merge(after);
    if !ok { return; }
    ok, reports := ImpactReports(union.links, before.nodes, after.nodes, changes);
    if ok {
      forall i | 0 <= i < |changes|
        ensures var direct := DirectNodes(changes[i], before.nodes, after.nodes);
                Direct(changes[i], before.nodes, after.nodes, direct) && forall n :: n in direct ==> n in reports[i]
      {
        var direct := DirectNodes(changes[i], before.nodes, after.nodes);
        DirectExactly(changes[i], before.nodes, after.nodes, direct);
        forall n | n in direct ensures n in reports[i] { DirectReported(union.links, direct, n); }
      }
    }
  }

  const STEP := "scenario:/step/s"
  const STEP_WRITE := "scenario:/step/s/write/x"
  const CELL := "scenario:/state/x"
  const STEP_NODES := {STEP, STEP_WRITE, CELL}
  const STEP_LINKS := {Link(STEP, STEP_WRITE, "STEP_COMPONENT", false), Link(STEP_WRITE, CELL, "STATE_WRITE", false)}

  /** A step that writes a cell: adding it where only the new definition has it, or removing it where
      only the old one has, makes the step and its write direct; with the sides exchanged only the
      path itself would be. */
  lemma SidesMatter()
    ensures DirectNodes(Change(ADDED, STEP), {}, STEP_NODES) == {STEP, STEP_WRITE} == DirectNodes(Change(REMOVED, STEP), STEP_NODES, {})
    ensures DirectNodes(Change(ADDED, STEP), STEP_NODES, {}) == {STEP} == DirectNodes(Change(REMOVED, STEP), {}, STEP_NODES)
  {
    assert STEP_WRITE[..|STEP|] == STEP && STEP_WRITE[|STEP|] == '/' && CELL[12] != STEP[12];
    StepConcerns(Change(ADDED, STEP), {}, STEP_NODES);
    StepConcerns(Change(REMOVED, STEP), STEP_NODES, {});
    DirectExactly(Change(ADDED, STEP), {}, STEP_NODES, {STEP, STEP_WRITE});
    DirectExactly(Change(REMOVED, STEP), STEP_NODES, {}, {STEP, STEP_WRITE});
    DirectExactly(Change(ADDED, STEP), STEP_NODES, {}, {STEP});
    DirectExactly(Change(REMOVED, STEP), {}, STEP_NODES, {STEP});
  }

  lemma StepConcerns(change: Change, before: set<string>, after: set<string>)
    requires change.path == STEP && ((change.kind == ADDED && after == STEP_NODES) || (change.kind == REMOVED && before == STEP_NODES))
    ensures forall n :: Concerns(change, before, after, n) <==> n in {STEP, STEP_WRITE}
  {
    assert STEP_WRITE[..|STEP|] == STEP && STEP_WRITE[|STEP|] == '/' && CELL[12] != STEP[12];
  }

  /** The report of that change: the written cell is possibly affected, and nothing else is reported. */
  lemma StepReport()
    ensures LabelsOf(STEP_LINKS, {STEP, STEP_WRITE}) == map[STEP := DIRECT, STEP_WRITE := DIRECT, CELL := TRANSITIVE_POSSIBLE]
  {
    hide Within;
    assert CELL[12] != STEP[12] && CELL[12] != STEP_WRITE[12] && |STEP| != |STEP_WRITE|;
    StepMeets();
    forall n ensures n in LabelsOf(STEP_LINKS, {STEP, STEP_WRITE}) <==> n in {STEP, STEP_WRITE, CELL} {
      LabelsOfKeys(STEP_LINKS, {STEP, STEP_WRITE}, n);
    }
  }

  lemma StepMeets()
    ensures var direct := {STEP, STEP_WRITE};
            Within(STEP_LINKS, direct, MAX_DEPTH) == {(STEP, false), (STEP_WRITE, false), (CELL, false)} && Capped(STEP_LINKS, direct) == {}
  {
    hide Successors;
    var direct := {STEP, STEP_WRITE};
    assert Within(STEP_LINKS, direct, 0) == {(STEP, false), (STEP_WRITE, false)};
    StepSuccessors(Within(STEP_LINKS, direct, 0));
    assert Within(STEP_LINKS, direct, 1) == {(STEP, false), (STEP_WRITE, false), (CELL, false)};
    StepSuccessors(Within(STEP_LINKS, direct, 1));
    ClosedStays(STEP_LINKS, direct, 1, MAX_DEPTH);
    ClosedStays(STEP_LINKS, direct, 1, MAX_DEPTH - 1);
  }

  lemma StepSuccessors(spots: set<Spot>)
    requires {(STEP, false), (STEP_WRITE, false)} <= spots <= {(STEP, false), (STEP_WRITE, false), (CELL, false)}
    ensures Successors(STEP_LINKS, spots) == {(STEP_WRITE, false), (CELL, false)}
  {
    assert CELL[12] != STEP[12] && CELL[12] != STEP_WRITE[12] && |STEP| != |STEP_WRITE|;
    var l, m := Link(STEP, STEP_WRITE, "STEP_COMPONENT", false), Link(STEP_WRITE, CELL, "STATE_WRITE", false);
    assert Follow((STEP, false), l) == (STEP_WRITE, false) && Follow((STEP_WRITE, false), m) == (CELL, false);
    assert l in STEP_LINKS && m in STEP_LINKS && l.source == STEP && m.source == STEP_WRITE;
  }

  // ---------------------------------------------------------------- where the cap shows

  /** The address of resource r0, r1, and so on. */
  function ResourceNode(i: nat): string {
    "scenario:/resource/r" + Digits(i)
  }

  lemma SameResource(i: nat, j: nat)
    requires ResourceNode(i) == ResourceNode(j)
    ensures i == j
  {
    var n := |"scenario:/resource/r"|;
    assert Digits(i) == ResourceNode(i)[n..] && Digits(j) == ResourceNode(j)[n..];
    DigitsInjective(i, j);
  }

  /** A chain of resources r0, r1, .., each referring to the one before; the first edge may be unknown. */
  function Chain(length: nat, doubtful: bool): set<Link> {
    set i | 0 <= i < length :: ChainLink(i, doubtful)
  }

  function ChainLink(i: nat, doubtful: bool): Link {
    Link(ResourceNode(i), ResourceNode(i + 1), "RESOURCE_REFERENCE", doubtful && i == 0)
  }

  function ChainSpots(k: nat, doubtful: bool): set<Spot> {
    set i | 0 <= i <= k :: (ResourceNode(i), doubtful && i > 0)
  }

  lemma ChainSpot(k: nat, doubtful: bool, i: nat, crossed: bool)
    ensures (ResourceNode(i), crossed) in ChainSpots(k, doubtful) <==> i <= k && crossed == (doubtful && i > 0)
  {
    if (ResourceNode(i), crossed) in ChainSpots(k, doubtful) {
      var j :| 0 <= j <= k && (ResourceNode(j), doubtful && j > 0) == (ResourceNode(i), crossed);
      SameResource(i, j);
    }
  }

  lemma ChainSuccessors(length: nat, doubtful: bool, k: nat)
    requires k <= length
    ensures ChainSpots(k, doubtful) + Successors(Chain(length, doubtful), ChainSpots(k, doubtful))
            == ChainSpots(if k < length then k + 1 else k, doubtful)
  {
    var links, spots, more := Chain(length, doubtful), ChainSpots(k, doubtful), ChainSpots(if k < length then k + 1 else k, doubtful);
    forall s: Spot | s in Successors(links, spots) ensures s in more {
      var r, l := LastStep(links, spots, s);
      var i :| 0 <= i < length && l == ChainLink(i, doubtful);
      var j :| 0 <= j <= k && r == (ResourceNode(j), doubtful && j > 0);
      SameResource(i, j);
      ChainSpot(if k < length then k + 1 else k, doubtful, i + 1, doubtful);
    }
    if k < length {
      var r, l := (ResourceNode(k), doubtful && k > 0), ChainLink(k, doubtful);
      assert r in spots && l in links && Follow(r, l) == (ResourceNode(k + 1), doubtful);
      assert Follow(r, l) in Successors(links, spots);
      forall s: Spot | s in more ensures s in spots + Successors(links, spots) {
        var i :| 0 <= i <= k + 1 && s == (ResourceNode(i), doubtful && i > 0);
      }
    }
  }

  lemma {:induction false} ChainWithin(length: nat, doubtful: bool, k: nat)
    requires k <= length
    ensures Within(Chain(length, doubtful), {ResourceNode(0)}, k) == ChainSpots(k, doubtful)
  {
    hide Successors, Chain;
    if k == 0 {
      assert Within(Chain(length, doubtful), {ResourceNode(0)}, 0) == {(ResourceNode(0), false)} == ChainSpots(0, doubtful);
    } else {
      ChainWithin(length, doubtful, k - 1);
      ChainSuccessors(length, doubtful, k - 1);
    }
  }

  /** The edges `_graph` draws for resources that are a `$ref` each: from what is referred to. */
  function ReferenceLinks(refs: seq<(nat, nat)>): set<Link> {
    set i | 0 <= i < |refs| :: Link(ResourceNode(refs[i].1), ResourceNode(refs[i].0), "RESOURCE_REFERENCE", false)
  }

  /** A document that declares a value r0 and then each of r1, .., r257 as a `$ref` to the one before has the
      chain as its resource graph, and changing r0 makes r0 alone direct. */
  lemma ChainIsADocument(length: nat, nodes: set<string>)
    requires nodes == set i | 0 <= i <= length :: ResourceNode(i)
    ensures ReferenceLinks(seq(length, i => (i + 1, i))) == Chain(length, false)
    ensures DirectNodes(Change(CHANGED, ResourceNode(0)), nodes, nodes) == {ResourceNode(0)}
  {
    hide ResourceNode;
    var refs := seq(length, i => (i + 1, i));
    forall i | 0 <= i < length
      ensures Link(ResourceNode(refs[i].1), ResourceNode(refs[i].0), "RESOURCE_REFERENCE", false) == ChainLink(i, false)
    {
    }
    assert ResourceNode(0) in nodes;
    forall n | n in nodes ensures UnderPath(n, ResourceNode(0)) ==> n == ResourceNode(0) {
      var i :| 0 <= i <= length && n == ResourceNode(i);
      NotUnder(i);
    }
  }

  lemma NotUnder(i: nat)
    ensures !(ResourceNode(0) + "/" <= ResourceNode(i))
  {
    var n := |"scenario:/resource/r"|;
    DigitsLead(i);
    assert (ResourceNode(0) + "/")[n] == '0' && ResourceNode(i)[n] == Digits(i)[0];
  }

  /** A certain chain one edge longer than the cap: its last node is missed, the one before mislabelled. */
  lemma CapMisleads()
    ensures var links, direct := Chain(MAX_DEPTH + 1, false), {ResourceNode(0)};
            var best := LabelsOf(links, direct);
            && Reached(links, direct, (ResourceNode(MAX_DEPTH + 1), false)) && ResourceNode(MAX_DEPTH + 1) !in best
            && ResourceNode(MAX_DEPTH) in best && best[ResourceNode(MAX_DEPTH)] == UNKNOWN
            && !Reached(links, direct, (ResourceNode(MAX_DEPTH), true)) && ResourceNode(MAX_DEPTH) !in direct
            && !Exact(links, direct, best)
  {
    hide Within, Successors, ChainSpots, LabelsOf;
    var links, direct := Chain(MAX_DEPTH + 1, false), {ResourceNode(0)};
    ChainWithin(MAX_DEPTH + 1, false, MAX_DEPTH - 1);
    ChainWithin(MAX_DEPTH + 1, false, MAX_DEPTH);
    ChainWithin(MAX_DEPTH + 1, false, MAX_DEPTH + 1);
    var near, last := ResourceNode(MAX_DEPTH), ResourceNode(MAX_DEPTH + 1);
    ChainSpot(MAX_DEPTH + 1, false, MAX_DEPTH + 1, false);
    var _ := WithinIsReached(links, direct, MAX_DEPTH + 1, (last, false));
    ChainSpot(MAX_DEPTH, false, MAX_DEPTH + 1, false);
    ChainSpot(MAX_DEPTH, false, MAX_DEPTH + 1, true);
    ChainSpot(MAX_DEPTH, false, MAX_DEPTH, false);
    ChainSpot(MAX_DEPTH - 1, false, MAX_DEPTH, false);
    LabelsOfKeys(links, direct, last);
    LabelsOfKeys(links, direct, near);
    LabelsAre(links, direct, near);
    CertainChain(MAX_DEPTH + 1, near);
    if near == ResourceNode(0) { SameResource(MAX_DEPTH, 0); }
  }

  lemma LabelsAre(links: set<Link>, direct: set<string>, n: string)
    requires n in LabelsOf(links, direct)
    ensures LabelsOf(links, direct)[n] == LabelGiven(direct, Within(links, direct, MAX_DEPTH), Capped(links, direct), n)
  {
    hide Within;
  }

  lemma CertainChain(length: nat, n: string)
    ensures !Reached(Chain(length, false), {ResourceNode(0)}, (n, true))
  {
  }

  /** A chain as long as the cap whose first edge is unknown: not shallow, and still labelled exactly. */
  lemma DeepCanBeExact()
    ensures var links, direct := Chain(MAX_DEPTH, true), {ResourceNode(0)};
            !Shallow(links, direct) && Exact(links, direct, LabelsOf(links, direct))
  {
    var links, direct := Chain(MAX_DEPTH, true), {ResourceNode(0)};
    ChainWithin(MAX_DEPTH, true, MAX_DEPTH - 1);
    ChainWithin(MAX_DEPTH, true, MAX_DEPTH);
    ChainSpot(MAX_DEPTH, true, MAX_DEPTH, true);
    ChainSpot(MAX_DEPTH - 1, true, MAX_DEPTH, true);
    ChainSuccessors(MAX_DEPTH, true, MAX_DEPTH);
    hide *;
    forall s: Spot | Reached(links, direct, s) ensures Spared(links, direct, s) {
      ClosedIsReached(links, direct, MAX_DEPTH, s);
      DeepSpot(s);
      DeepSpared(links, s);
    }
    LabelsExactly(links, direct);
  }

  lemma DeepSpared(links: set<Link>, s: Spot)
    requires Within(links, {ResourceNode(0)}, MAX_DEPTH) == ChainSpots(MAX_DEPTH, true) && s in ChainSpots(MAX_DEPTH, true)
    requires s.0 == ResourceNode(0) ==> !s.1 && (s.0, true) !in ChainSpots(MAX_DEPTH, true)
    requires s.0 != ResourceNode(0) ==> s.1 && (s.0, false) !in ChainSpots(MAX_DEPTH, true)
    ensures Spared(links, {ResourceNode(0)}, s)
  {
    hide Within, ChainSpots, ResourceNode, Reached;
    if s.1 { assert s == (s.0, true); } else { assert s == (s.0, false); }
  }

  /** Every spot of the chain but the first is uncertain. */
  lemma DeepSpot(s: Spot)
    requires s in ChainSpots(MAX_DEPTH, true)
    ensures s.0 == ResourceNode(0) ==> !s.1 && (s.0, true) !in ChainSpots(MAX_DEPTH, true)
    ensures s.0 != ResourceNode(0) ==> s.1 && (s.0, false) !in ChainSpots(MAX_DEPTH, true)
  {
    var i :| 0 <= i <= MAX_DEPTH && s == (ResourceNode(i), true && i > 0);
    ChainSpot(MAX_DEPTH, true, i, true);
    ChainSpot(MAX_DEPTH, true, i, false);
    if s.0 == ResourceNode(0) { SameResource(i, 0); }
  }
}
