/** The order in which actors are listed has no influence on a run. */
module ListingOrder {
  import opened Order
  import opened Values
  import opened Steps
  import opened Routing
  import opened Actors

  /** A value seen before makes the list repeat itself; a new one keeps it distinct so far. */
  lemma SeenNext(values: seq<string>, seen: set<string>, i: nat)
    requires i < |values| && seen == Elements(values[..i]) && Distinct(values[..i])
    ensures values[i] in seen ==> !Distinct(values)
    ensures values[i] !in seen ==> Distinct(values[..i + 1]) && |seen + {values[i]}| == |seen| + 1
    ensures Elements(values[..i + 1]) == seen + {values[i]}
  {
    assert values[..i + 1] == values[..i] + [values[i]];
    if values[i] in seen {
      var k :| 0 <= k < i && values[..i][k] == values[i];
      assert values[k] == values[i];
    }
  }

  lemma NoneSeen(values: seq<string>)
    ensures Elements(values[..0]) == {} && Distinct(values[..0])
  {
  }

  /** `_actors`: rejects a duplicate address, otherwise the canonical byte order. */
  method CanonicalActors(values: seq<string>) returns (r: Option<seq<string>>)
    ensures r.Some? <==> Distinct(values)
    ensures r.Some? ==> r.value == Sorted(Elements(values)) && Ascending(r.value) && |r.value| == |values|
  {
    hide Elements, Distinct;
    var seen: set<string> := {};
    var i := 0;
    NoneSeen(values);
    while i < |values|
      invariant 0 <= i <= |values|
      invariant seen == Elements(values[..i]) && |seen| == i && Distinct(values[..i])
    {
      SeenNext(values, seen, i);
      if values[i] in seen { return None; }
      seen := seen + {values[i]};
      i := i + 1;
    }
    assert values[..i] == values;
    SortedAscending(seen);
    r := Some(Sorted(seen));
  }

  /** The same actors in possibly another order. */
  ghost predicate Relisted(a: Scenario, b: Scenario) {
    && Distinct(Addresses(a.actors)) && Distinct(Addresses(b.actors))
    && Elements(a.actors) == Elements(b.actors)
    && a.(actors := []) == b.(actors := [])
  }

  lemma SameAddresses(a: Scenario, b: Scenario)
    requires Relisted(a, b)
    ensures forall x :: x in Addresses(a.actors) <==> x in Addresses(b.actors)
    ensures Elements(Addresses(a.actors)) == Elements(Addresses(b.actors))
  {
    forall x ensures x in Addresses(a.actors) <==> x in Addresses(b.actors) {
      AddressListed(a.actors, b.actors, x);
      AddressListed(b.actors, a.actors, x);
    }
  }

  lemma AddressListed(xs: seq<Actor>, ys: seq<Actor>, x: string)
    requires Elements(xs) == Elements(ys)
    ensures x in Addresses(xs) ==> x in Addresses(ys)
  {
    if x in Addresses(xs) {
      var i :| 0 <= i < |xs| && Addresses(xs)[i] == x;
      assert xs[i] in Elements(ys);
      var j :| 0 <= j < |ys| && ys[j] == xs[i];
      assert Addresses(ys)[j] == x;
    }
  }

  lemma SameActor(a: Scenario, b: Scenario, x: string)
    requires Relisted(a, b) && x in Addresses(a.actors)
    ensures x in Addresses(b.actors) && ActorAt(a, x) == ActorAt(b, x)
  {
    SameAddresses(a, b);
    var p, r := ActorAt(a, x), ActorAt(b, x);
    assert p in Elements(b.actors);
    var i :| 0 <= i < |b.actors| && b.actors[i] == p;
    var j :| 0 <= j < |b.actors| && b.actors[j] == r;
    assert Addresses(b.actors)[i] == Addresses(b.actors)[j];
  }

  lemma SameOK(a: Scenario, b: Scenario, cfg: Config)
    requires Relisted(a, b) && ConfigOK(a, cfg)
    ensures ConfigOK(b, cfg)
  {
    SameAddresses(a, b);
    forall x | x in cfg.controls ensures x in Addresses(b.actors) && FramesOK(ActorAt(b, x).program, cfg.controls[x]) {
      SameActor(a, b, x);
    }
  }

  lemma SameRoute(w: World, a: Scenario, b: Scenario, cfg: Config, x: string)
    requires Relisted(a, b) && ConfigOK(a, cfg) && ConfigOK(b, cfg) && x in Addresses(a.actors)
    ensures x in Addresses(b.actors) && RouteOne(w, a, cfg, x) == RouteOne(w, b, cfg, x)
  {
    hide Route;
    SameActor(a, b, x);
  }

  lemma {:induction false} ErrorExactly(w: World, sc: Scenario, cfg: Config, declared: seq<string>)
    requires ConfigOK(sc, cfg) && forall a :: a in declared ==> a in Addresses(sc.actors)
    ensures RoutingError(w, sc, cfg, declared).Some? <==> exists a :: a in declared && RouteOne(w, sc, cfg, a).Unroutable?
    decreases |declared|
  {
    hide RouteOne;
    if declared != [] {
      ErrorExactly(w, sc, cfg, declared[1..]);
      assert declared[0] in declared;
      assert forall a :: a in declared <==> a == declared[0] || a in declared[1..];
    }
  }

  lemma SameReady(w: World, a: Scenario, b: Scenario, cfg: Config)
    requires Relisted(a, b) && ConfigOK(a, cfg) && ConfigOK(b, cfg)
    ensures ReadySet(w, a, cfg) == ReadySet(w, b, cfg)
    ensures RoutingError(w, a, cfg, Addresses(a.actors)).Some? == RoutingError(w, b, cfg, Addresses(b.actors)).Some?
  {
    hide RouteOne, RoutingError;
    SameAddresses(a, b);
    forall x | x in Addresses(a.actors) ensures RouteOne(w, a, cfg, x) == RouteOne(w, b, cfg, x) {
      SameRoute(w, a, b, cfg, x);
    }
    ErrorExactly(w, a, cfg, Addresses(a.actors));
    ErrorExactly(w, b, cfg, Addresses(b.actors));
  }

  lemma {:induction false} SameViews(w: World, a: Scenario, b: Scenario, q: Request, cfg: Config, names: seq<string>)
    requires Relisted(a, b) && ConfigOK(a, cfg) && ConfigOK(b, cfg) && forall x :: x in names ==> x in Addresses(a.actors)
    ensures (forall x :: x in names ==> x in Addresses(b.actors)) && Views(w, a, q, cfg, names) == Views(w, b, q, cfg, names)
    decreases |names|
  {
    hide RouteOne;
    SameAddresses(a, b);
    if names != [] {
      SameRoute(w, a, b, cfg, names[0]);
      SameActor(a, b, names[0]);
      SameViews(w, a, b, q, cfg, names[1..]);
    }
  }

  lemma SameReport(w: World, a: Scenario, b: Scenario, q: Request, cfg: Config, ds: seq<Decision>, cls: Classification, failure: Option<FailureRecord>)
    requires Relisted(a, b) && ConfigOK(a, cfg) && ConfigOK(b, cfg)
    ensures BuildReport(w, a, q, cfg, ds, cls, failure) == BuildReport(w, b, q, cfg, ds, cls, failure)
  {
    hide Views;
    SameAddresses(a, b);
    SameViews(w, a, b, q, cfg, Sorted(cfg.controls.Keys));
  }

  lemma SameDecision(w: World, a: Scenario, b: Scenario, q: Request, cfg: Config)
    requires Relisted(a, b) && ConfigOK(a, cfg) && ConfigOK(b, cfg) && ReadySet(w, a, cfg) != {}
    ensures ReadySet(w, b, cfg) != {} && Decide(w, a, q, cfg) == Decide(w, b, q, cfg)
  {
    hide RouteOne, ReadySet;
    SameReady(w, a, b, cfg);
    DecideIsReady(w, a, q, cfg);
    var x := Decide(w, a, q, cfg).actor;
    SameRoute(w, a, b, cfg, x);
    SameActor(a, b, x);
  }

  lemma SameExecution(w: World, a: Scenario, b: Scenario, q: Request, cfg: Config, d: Decision, expected: Option<Schedule>)
    requires Relisted(a, b) && ConfigOK(a, cfg) && ConfigOK(b, cfg)
    requires d.actor in Addresses(a.actors) && RouteOne(w, a, cfg, d.actor).Found?
    ensures d.actor in Addresses(b.actors) && RouteOne(w, b, cfg, d.actor).Found?
    ensures Execute(w, a, q, cfg, d, expected) == Execute(w, b, q, cfg, d, expected)
  {
    hide RouteOne, BuildReport, ConfigOK, ApplyFaults, Perform, BytesAgree;
    SameRoute(w, a, b, cfg, d.actor);
    SameActor(a, b, d.actor);
    var next := CommitMove(w, a, q, cfg, d);
    if next.Err? {
      SameReport(w, a, b, q, cfg, cfg.decisions + [d.(outcome := FAILED)], FAILURE, Some(FailureRecord(d.actor, CodeOf(next.error), d.ordinal)));
    }
  }

  ghost predicate SameRound(x: Round, y: Round) {
    x == y || (x.End? && y.End? && x.ending.Aborted? && y.ending.Aborted?)
  }

  lemma RoundRelists(w: World, a: Scenario, b: Scenario, q: Request, cfg: Config, expected: Option<Schedule>)
    requires Relisted(a, b) && ConfigOK(a, cfg) && ConfigOK(b, cfg)
    ensures SameRound(PlayRound(w, a, q, cfg, expected), PlayRound(w, b, q, cfg, expected))
  {
    hide RouteOne, BuildReport, ConfigOK, Execute, Decide, ReadySet, RoutingError, BytesAgree, RecordAgrees;
    SameReady(w, a, b, cfg);
    if ReadySet(w, a, cfg) == {} {
      SameReport(w, a, b, q, cfg, cfg.decisions, SUCCESS, None);
    } else {
      SameDecision(w, a, b, q, cfg);
      DecideIsReady(w, a, q, cfg);
      SameExecution(w, a, b, q, cfg, Decide(w, a, q, cfg), expected);
    }
  }

  lemma {:induction false} RunRelists(w: World, a: Scenario, b: Scenario, q: Request, cfg: Config, expected: Option<Schedule>)
    requires Relisted(a, b) && ConfigOK(a, cfg) && ConfigOK(b, cfg)
    ensures Run(w, a, q, cfg, expected) == Run(w, b, q, cfg, expected)
            || (Run(w, a, q, cfg, expected).Aborted? && Run(w, b, q, cfg, expected).Aborted?)
    decreases MAX_SELECTIONS - |cfg.decisions|
  {
    hide PlayRound, ConfigOK;
    RoundRelists(w, a, b, q, cfg, expected);
    match PlayRound(w, a, q, cfg, expected)
    case End(_) =>
    case Continue(next) =>
      RoundFrame(w, a, q, cfg, expected);
      SameOK(a, b, next);
      RunRelists(w, a, b, q, next, expected);
  }

  /** Same decisions, history, final state, schedule and report for every listing of the same actors;
      only which routing error aborts a run may depend on the order. */
  lemma ListingOrderIrrelevant(w: World, a: Scenario, b: Scenario, q: Request, expected: Option<Schedule>)
    requires Relisted(a, b)
    ensures var x, y := ExecuteActors(w, a, q, expected), ExecuteActors(w, b, q, expected);
            x == y || (x.Aborted? && y.Aborted?)
  {
    hide Run;
    InitialOK(a);
    SameAddresses(a, b);
    SameOK(a, b, Initial(a));
    InitialOK(b);
    assert Initial(a) == Initial(b) by {
      assert Initial(a).controls.Keys == Initial(b).controls.Keys;
      forall x | x in Initial(a).controls ensures Initial(a).controls[x] == Initial(b).controls[x] {
        SameActor(a, b, x);
      }
    }
    RunRelists(w, a, b, q, Initial(a), expected);
  }
}
