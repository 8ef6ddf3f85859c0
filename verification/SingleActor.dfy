/** A DSL 2 scenario with one actor behaves as Engine 1 does on the same program: same steps,
    states, clock, history and artifacts, once the actor field is erased from addresses. */
module SingleActor {
  import opened Order
  import opened Values
  import opened Expressions
  import opened Derivations
  import opened Steps
  import opened Programs
  import opened Routing
  import opened Interpreter
  import opened Scoping
  import opened Simulation
  import opened Actors
  import opened Evidence
  import opened Projection

  // ---------------------------------------------------------------- Engine 1

  ghost function RunnerMachine(w: World, who: Identity): Machine<Runner> {
    Machine((r: Runner) => r.state, (site: Site, r: Runner) => ExecuteSite(w, who, site, r))
  }

  function CompileFlows(w: World, p: Program, names: seq<string>): Result<()>
    requires forall n :: n in names ==> n in p.subflows
  {
    if names == [] then Ok(())
    else
      var _ :- CompileSequence(w, p.subflows[names[0]], None);
      CompileFlows(w, p, names[1..])
  }

  /** `compile_document`: the top-level steps, then every subflow, compiled without a scope. */
  function CompileDocument(w: World, p: Program): Result<()> {
    var _ :- CompileSequence(w, p.steps, None);
    CompileFlows(w, p, Sorted(p.subflows.Keys))
  }

  /** The recursive engine on a whole program. */
  ghost function Engine1(w: World, sc: Scenario, run: nat, p: Program, rank: map<string, nat>): Outcome<Runner>
    requires Ranked(p, rank)
  {
    var r := Runner(sc.initial, sc.start, [], [], None);
    match CompileDocument(w, p)
    case Err(e) => Refused(r, e)
    case Ok(_) =>
      ExecSequence(Ctx(w, p, rank, RunnerMachine(w, Identity(sc.id, run, None)), true), None, 0, None, ROOT_PLACE, r)
  }

  // ---------------------------------------------------------------- erasing the actor field

  function EraseAddress(a: Address): Address {
    a.(actor := None)
  }

  function EraseRecord(h: HistoryRecord): HistoryRecord {
    h.(address := EraseAddress(h.address))
  }

  function EraseArtifact(a: Artifact): Artifact {
    a.(address := EraseAddress(a.address))
  }

  function EraseHistory(hs: seq<HistoryRecord>): (r: seq<HistoryRecord>)
    ensures |r| == |hs| && forall i :: 0 <= i < |hs| ==> r[i] == EraseRecord(hs[i])
  {
    seq(|hs|, i requires 0 <= i < |hs| => EraseRecord(hs[i]))
  }

  function EraseArtifacts(xs: seq<Artifact>): (r: seq<Artifact>)
    ensures |r| == |xs| && forall i :: 0 <= i < |xs| ==> r[i] == EraseArtifact(xs[i])
  {
    seq(|xs|, i requires 0 <= i < |xs| => EraseArtifact(xs[i]))
  }

  function Erase(r: Runner): Runner {
    Runner(r.state, r.clock, EraseHistory(r.history), EraseArtifacts(r.artifacts), r.nextStep)
  }

  /** Generated values and logical identities as functions of the address without its actor. */
  ghost predicate ActorBlind(w: World) {
    && (forall d, a, t {:trigger w.draw(d, a, t)} :: w.draw(d, a, t) == w.draw(d, EraseAddress(a), t))
    && (forall a {:trigger w.artifactId(a)} :: w.artifactId(a) == w.artifactId(EraseAddress(a)))
  }

  lemma {:induction false} GenerateErases(w: World, gens: map<string, Generator>, names: seq<string>, at: Address, r: Runner)
    requires ActorBlind(w) && forall n :: n in names ==> n in gens
    ensures GenerateAll(w, gens, names, at, r) == GenerateAll(w, gens, names, EraseAddress(at), Erase(r))
    decreases |names|
  {
    hide EvalMap;
    if names != [] {
      var field := Child(at, ["generate", names[0]]);
      assert EraseAddress(field) == Child(EraseAddress(at), ["generate", names[0]]);
      GenerateErases(w, gens, names[1..], at, r);
    }
  }

  lemma {:induction false} EmitErases(w: World, emit: seq<Emission>, ordinal: nat, post: State, at: Address)
    requires ActorBlind(w)
    ensures var x, y := Emit(w, emit, ordinal, post, at), Emit(w, emit, ordinal, post, EraseAddress(at));
            (x.Ok? && y == Ok(EraseArtifacts(x.value))) || (x.Err? && y == x)
    decreases |emit|
  {
    hide EvalMap;
    if emit != [] {
      var place := Child(at, ["emit", Digits(ordinal), emit[0].kind]);
      assert EraseAddress(place) == Child(EraseAddress(at), ["emit", Digits(ordinal), emit[0].kind]);
      assert w.artifactId(place) == w.artifactId(EraseAddress(place));
      EmitErases(w, emit[1..], ordinal + 1, post, at);
      var rest := Emit(w, emit[1..], ordinal + 1, post, at);
      var value := EvalMap(w.prims, emit[0].fields, Env(post, map[], map[], None));
      if rest.Ok? && value.Ok? {
        var x := Artifact(emit[0].kind, Dict(value.value), w.artifactId(place), place);
        assert EraseArtifacts([x] + rest.value) == [EraseArtifact(x)] + EraseArtifacts(rest.value);
      }
    }
  }

  lemma {:induction false} EmittedErases(xs: seq<Artifact>)
    ensures Emitted(EraseArtifacts(xs)) == Emitted(xs)
    decreases |xs|
  {
    if xs != [] {
      EmittedErases(xs[1..]);
      assert EraseArtifacts(xs)[1..] == EraseArtifacts(xs[1..]);
    }
  }

  lemma CompleteErases(w: World, spec: StepDoc, faults: seq<string>, at: Address, r: Runner, patch: map<string, Value>)
    requires ActorBlind(w)
    ensures var x, y := Complete(w, spec, faults, at, r, patch), Complete(w, spec, faults, EraseAddress(at), Erase(r), patch);
            (x.Ok? && y.Ok? && Commit(Erase(r), y.value) == Erase(Commit(r, x.value))) || (x.Err? && y.Err? && x.error == y.error)
  {
    hide Emit, CheckInvariants, Emitted;
    EmitErases(w, spec.emit, 0, r.state + patch, at);
    var x := Emit(w, spec.emit, 0, r.state + patch, at);
    if x.Ok? {
      EmittedErases(x.value);
      var c := Complete(w, spec, faults, at, r, patch);
      if c.Ok? {
        assert EraseHistory(r.history + [c.value.record]) == EraseHistory(r.history) + [EraseRecord(c.value.record)];
        assert EraseArtifacts(r.artifacts + x.value) == EraseArtifacts(r.artifacts) + EraseArtifacts(x.value);
      }
    }
  }

  lemma PerformErases(w: World, spec: StepDoc, faults: seq<string>, at: Address, r: Runner)
    requires ActorBlind(w)
    ensures var x, y := Perform(w, spec, faults, at, r), Perform(w, spec, faults, EraseAddress(at), Erase(r));
            (x.Ok? && y == Ok(Erase(x.value))) || (x.Err? && y == Err(x.error))
  {
    hide GenerateAll, Derive, EvalMap, Complete, Commit;
    GenerateErases(w, spec.generate, Sorted(spec.generate.Keys), at, r);
    var locals := GenerateAll(w, spec.generate, Sorted(spec.generate.Keys), at, r);
    if locals.Ok? {
      var derived := Derive(w.prims, spec.derive, Env(r.state, locals.value, map[], None));
      if derived.Ok? {
        var patch := EvalMap(w.prims, spec.write, Env(r.state, locals.value, derived.value, None));
        if patch.Ok? { CompleteErases(w, spec, faults, at, r, patch.value); }
      }
    }
  }

  ghost function ErasedIs(a: Runner, b: Runner): bool { a == Erase(b) }

  /** The left runner is an earlier stage of the right one, up to the actor field. */
  ghost function ErasedPast(a: Runner, b: Runner): bool {
    a.history <= EraseHistory(b.history) && a.artifacts <= EraseArtifacts(b.artifacts)
  }

  /** The recursive engine next to the lone actor's interpreter. */
  ghost function Engines(w: World, p: Program, rank: map<string, nat>, who: Identity, safe: bool): Pair<Runner, Runner> {
    Pair(Ctx(w, p, rank, RunnerMachine(w, who.(actor := None)), true), Ctx(w, p, rank, RunnerMachine(w, who), false),
         ErasedIs, ErasedPast, safe)
  }

  lemma StepErases(w: World, who: Identity, site: Site, b: Runner)
    requires ActorBlind(w)
    ensures var x, y := ExecuteSite(w, who.(actor := None), site, Erase(b)), ExecuteSite(w, who, site, b);
            (y.Ok? && x == Ok(Erase(y.value))) || (y.Err? && x == Err(y.error))
  {
    hide ApplyFaults, Perform, Erase;
    var faulted := ApplyFaults(w, w.faults, site.spec, b.state, site.scope, site.place);
    assert Erase(b).state == b.state by { ErasedState(b); }
    if faulted.Ok? {
      var at := StepAddress(who, site.place, site.spec.id);
      assert EraseAddress(at) == StepAddress(who.(actor := None), site.place, site.spec.id);
      PerformErases(w, faulted.value.0, faulted.value.1, at, b);
    }
  }

  lemma ErasedState(r: Runner)
    ensures Erase(r).state == r.state && Erase(r).history == EraseHistory(r.history) && Erase(r).artifacts == EraseArtifacts(r.artifacts)
  {
  }

  lemma StepGrows(w: World, who: Identity, site: Site, a: Runner, b: Runner)
    requires ErasedPast(a, b) && ExecuteSite(w, who, site, b).Ok?
    ensures ErasedPast(a, ExecuteSite(w, who, site, b).value)
  {
    hide ExecuteSite, Holds, Emitted;
    CommittedStep(w, who, site, b);
    var n := ExecuteSite(w, who, site, b).value;
    assert EraseHistory(n.history)[..|b.history|] == EraseHistory(b.history);
    assert EraseArtifacts(n.artifacts)[..|b.artifacts|] == EraseArtifacts(b.artifacts);
  }

  /** Engine 1's step and an actor's step keep runners equal up to the actor field. */
  lemma StepsRelate(w: World, p: Program, rank: map<string, nat>, who: Identity, safe: bool)
    requires ActorBlind(w) && Ranked(p, rank) && (safe ==> WellScoped(w, p))
    ensures Related(Engines(w, p, rank, who, safe))
  {
    hide ExecuteSite, Ranked, WellScoped, ActorBlind, Erase, ErasedPast;
    var s := Engines(w, p, rank, who, safe);
    forall site: Site, a: Runner, b: Runner | s.rel(a, b)
      ensures RelatedResults(s, s.left.m.exec(site, a), s.right.m.exec(site, b))
    {
      StepErases(w, who, site, b);
    }
    forall a: Runner, b: Runner | s.rel(a, b) ensures s.left.m.view(a) == s.right.m.view(b) && s.past(a, b) {
      ErasedState(b);
      assert ErasedPast(a, b) by { ErasedIsPast(b); }
    }
    forall site: Site, a: Runner, b: Runner | s.past(a, b) && s.right.m.exec(site, b).Ok?
      ensures s.past(a, s.right.m.exec(site, b).value)
    {
      StepGrows(w, who, site, a, b);
    }
  }

  lemma ErasedIsPast(b: Runner)
    ensures ErasedPast(Erase(b), b)
  {
  }

  // ---------------------------------------------------------------- the one-actor run

  ghost predicate Alone(sc: Scenario, a: Actor) {
    sc.actors == [a]
  }

  ghost predicate Shows(report: Report, r: Runner) {
    report.state == r.state && report.clock == r.clock && report.history == r.history && report.artifacts == r.artifacts
  }

  /** Only a declared limit, or an unusable seed, may separate a run from the interpreter. */
  ghost predicate LimitError(e: Error) {
    e == RoutingLimit || e == SelectionLimit || e == SchedulerInvalid
  }

  /** How the ending of a lone actor's run, and its last runner, correspond to an interpreter outcome. */
  ghost predicate Corresponds(ending: Ending, last: Runner, o: Outcome<Runner>) {
    match ending
    case Finished(report) => o == Done(last) && Shows(report, last)
    case Broken(e, report) => o == Stopped(last, e) && Shows(report, last)
    case Aborted(e) => LimitError(e) || o == Stopped(last, e)
    case Mismatch => false
  }

  ghost function LoneCtx(w: World, sc: Scenario, q: Request, a: Actor, rank: map<string, nat>): Ctx<Runner> {
    Ctx(w, a.program, rank, RunnerMachine(w, Identity(sc.id, q.run, Some(a.id))), false)
  }

  lemma AloneFacts(sc: Scenario, a: Actor, cfg: Config)
    requires Alone(sc, a) && ConfigOK(sc, cfg)
    ensures Addresses(sc.actors) == [a.address] && ActorAt(sc, a.address) == a
    ensures a.address in cfg.controls && FramesOK(a.program, cfg.controls[a.address])
  {
    assert Addresses(sc.actors)[0] == a.address;
    assert a.address in Elements(Addresses(sc.actors));
  }

  lemma LoneRouting(w: World, sc: Scenario, q: Request, a: Actor, cfg: Config)
    requires Alone(sc, a) && ConfigOK(sc, cfg)
    ensures a.address in Addresses(sc.actors)
    ensures var routed := RouteOne(w, sc, cfg, a.address);
            && RoutingError(w, sc, cfg, Addresses(sc.actors)) == (if routed.Unroutable? then Some(routed.error) else None)
            && ReadySet(w, sc, cfg) == (if routed.Found? then {a.address} else {})
            && (routed.Found? ==> ReadySet(w, sc, cfg) != {} && Decide(w, sc, q, cfg).actor == a.address)
  {
    hide RouteOne;
    AloneFacts(sc, a, cfg);
    if RouteOne(w, sc, cfg, a.address).Found? {
      assert a.address in ReadySet(w, sc, cfg);
      DecideIsReady(w, sc, q, cfg);
    }
  }

  lemma LoneRound(w: World, sc: Scenario, q: Request, a: Actor, rank: map<string, nat>, cfg: Config)
    requires Alone(sc, a) && ConfigOK(sc, cfg) && Ranked(a.program, rank)
    ensures a.address in cfg.controls && FramesOK(a.program, cfg.controls[a.address])
    ensures var c := LoneCtx(w, sc, q, a, rank);
            var whole := Resume(c, cfg.controls[a.address], cfg.runner);
            match PlayRound(w, sc, q, cfg, None)
            case End(ending) => Corresponds(ending, cfg.runner, whole)
            case Continue(next) =>
              && a.address in next.controls && FramesOK(a.program, next.controls[a.address])
              && whole == Resume(c, next.controls[a.address], next.runner)
  {
    hide Route, ApplyFaults, Perform, Views, Resume, ConfigOK, PlayRound, ReadySet;
    AloneFacts(sc, a, cfg);
    LoneRouting(w, sc, q, a, cfg);
    var c := LoneCtx(w, sc, q, a, rank);
    RouteRefines(c, cfg.controls[a.address], cfg.runner, 0);
    match PlayRound(w, sc, q, cfg, None)
    case Continue(next) =>
      RoundFrame(w, sc, q, cfg, None);
      CommitMoveFrame(w, sc, q, cfg, Decide(w, sc, q, cfg));
      AloneFacts(sc, a, next);
    case End(ending) =>
      LoneEnding(w, sc, q, a, rank, cfg, ending);
  }

  lemma LoneEnding(w: World, sc: Scenario, q: Request, a: Actor, rank: map<string, nat>, cfg: Config, ending: Ending)
    requires Alone(sc, a) && ConfigOK(sc, cfg) && Ranked(a.program, rank)
    requires a.address in cfg.controls && FramesOK(a.program, cfg.controls[a.address])
    requires PlayRound(w, sc, q, cfg, None) == End(ending)
    ensures Corresponds(ending, cfg.runner, Resume(LoneCtx(w, sc, q, a, rank), cfg.controls[a.address], cfg.runner))
  {
    hide Route, ApplyFaults, Perform, Views, Resume, ConfigOK, ReadySet, Decide, RoutingError;
    AloneFacts(sc, a, cfg);
    LoneRouting(w, sc, q, a, cfg);
    var c := LoneCtx(w, sc, q, a, rank);
    RouteRefines(c, cfg.controls[a.address], cfg.runner, 0);
  }

  lemma {:induction false} LoneRun(w: World, sc: Scenario, q: Request, a: Actor, rank: map<string, nat>, cfg: Config)
    requires Alone(sc, a) && ConfigOK(sc, cfg) && Ranked(a.program, rank)
    requires a.address in cfg.controls && FramesOK(a.program, cfg.controls[a.address])
    ensures Corresponds(Run(w, sc, q, cfg, None), Last(w, sc, q, cfg, None).runner, Resume(LoneCtx(w, sc, q, a, rank), cfg.controls[a.address], cfg.runner))
    decreases MAX_SELECTIONS - |cfg.decisions|
  {
    hide PlayRound, Resume, Corresponds, ConfigOK, Ranked;
    LoneRound(w, sc, q, a, rank, cfg);
    match PlayRound(w, sc, q, cfg, None)
    case End(_) =>
    case Continue(next) =>
      RoundFrame(w, sc, q, cfg, None);
      LoneRun(w, sc, q, a, rank, next);
  }

  /** What Engine 1's outcome says about the one-actor run: same ending, same error, and the same
      observable runner up to the actor field, unless a limit intervened.  When Engine 1 refused ahead of
      time a sequence containing a step that does not compile, the one-actor run fails too, having
      committed at least what Engine 1 had. */
  ghost predicate EnginesAgree(o: Outcome<Runner>, ending: Ending, last: Runner) {
    match ending
    case Finished(report) => o == Done(Erase(last)) && Shows(report, last)
    case Broken(e, report) => Shows(report, last) && (o == Stopped(Erase(last), e) || (o.Refused? && ErasedPast(o.runner, last)))
    case Aborted(e) => LimitError(e) || o == Stopped(Erase(last), e) || (o.Refused? && ErasedPast(o.runner, last))
    case Mismatch => false
  }

  lemma {:induction false} WellScopedFlows(w: World, p: Program, names: seq<string>)
    requires WellScoped(w, p) && forall n :: n in names ==> n in p.subflows
    ensures CompileFlows(w, p, names).Ok?
    decreases |names|
  {
    hide CompileSequence, NodesClosed;
    if names != [] { WellScopedFlows(w, p, names[1..]); }
  }

  lemma WellScopedDocument(w: World, p: Program)
    requires WellScoped(w, p)
    ensures CompileDocument(w, p).Ok?
  {
    hide CompileSequence, CompileFlows, NodesClosed;
    WellScopedFlows(w, p, Sorted(p.subflows.Keys));
  }

  /** Engine 1 and the one-actor Engine 2 run agree on every program that compiles, in success and in
      failure; a well-scoped program is never refused. */
  lemma OneActorEquivalence(w: World, sc: Scenario, q: Request, a: Actor, rank: map<string, nat>)
    requires ActorBlind(w) && Alone(sc, a) && Ranked(a.program, rank)
    ensures ConfigOK(sc, Initial(sc))
    ensures CompileDocument(w, a.program).Ok? ==>
              EnginesAgree(Engine1(w, sc, q.run, a.program, rank), ExecuteActors(w, sc, q, None), Last(w, sc, q, Initial(sc), None).runner)
    ensures WellScoped(w, a.program) ==>
              CompileDocument(w, a.program).Ok? && !Engine1(w, sc, q.run, a.program, rank).Refused?
  {
    hide Run, Last, ExecSequence, CompileDocument, ConfigOK, Ranked, WellScoped, ErasedPast, ActorBlind;
    var who := Identity(sc.id, q.run, Some(a.id));
    var r := Runner(sc.initial, sc.start, [], [], None);
    InitialOK(sc);
    var cfg := Initial(sc);
    AloneFacts(sc, a, cfg);
    var c := LoneCtx(w, sc, q, a, rank);
    assert Erase(r) == r;
    assert cfg.controls[a.address] == Start(a.program);
    StartResumes(c, r);
    LoneRun(w, sc, q, a, rank, cfg);
    var safe := WellScoped(w, a.program);
    if safe { WellScopedDocument(w, a.program); }
    StepsRelate(w, a.program, rank, who, safe);
    SequenceSimulates(Engines(w, a.program, rank, who, safe), None, 0, None, ROOT_PLACE, r, r);
  }

  // ---------------------------------------------------------------- where the engines do differ

  const UNBOUND := StepDoc("s2", map[], map[], map["x" := ScopeRef(["absent"])], [], 0, None)
  const HARMLESS := StepDoc("s1", map[], map[], map[], [], 0, Some("s2"))

  /** A called subflow whose second step reads a name its scope does not bind. */
  const ILL_SCOPED := Program([Call("c", Invocation("f", map[]))], map["f" := [Step(HARMLESS), Step(UNBOUND)]])

  lemma SortedSingle(n: string)
    ensures Sorted({}) == [] && Sorted({n}) == [n]
  {
    AscendingUnique([n]);
    assert Elements([n]) == {n};
  }

  lemma HarmlessCompiles(w: World, scope: Scope)
    ensures CompileStep(w, HARMLESS, scope) == Ok(HARMLESS)
  {
    SortedSingle("x");
  }

  lemma UnboundCompiles(w: World, scope: Scope)
    requires scope == None || scope == Some(map[])
    ensures scope == None ==> CompileStep(w, UNBOUND, scope) == Ok(UNBOUND)
    ensures scope == Some(map[]) ==> CompileStep(w, UNBOUND, scope) == Err(ScopeResolution)
  {
    SortedSingle("x");
    assert UNBOUND.write.Keys == {"x"};
    assert Descend(Dict(map[]), ["absent"]) == None;
    if scope == None {
      assert CompileParts(Record(UNBOUND.write), [], w.resources, scope) == Ok(map[]);
      assert CompileParts(Record(UNBOUND.write), ["x"], w.resources, scope) == Ok(UNBOUND.write);
    }
  }

  lemma IllScopedFacts(w: World)
    ensures Ranked(ILL_SCOPED, map["f" := 0])
    ensures CompileDocument(w, ILL_SCOPED) == Ok(())
    ensures CompileSequence(w, ILL_SCOPED.subflows["f"], Some(map[])) == Err(ScopeResolution)
  {
    hide CompileStep;
    var body := [Step(HARMLESS), Step(UNBOUND)];
    SortedSingle("f");
    assert ILL_SCOPED.subflows.Keys == {"f"};
    HarmlessCompiles(w, None);
    HarmlessCompiles(w, Some(map[]));
    UnboundCompiles(w, None);
    UnboundCompiles(w, Some(map[]));
    assert body[1..] == [Step(UNBOUND)];
    assert CompileSequence(w, [Step(UNBOUND)], None) == Ok(());
    assert CompileSequence(w, body, None) == Ok(());
    assert CompileFlows(w, ILL_SCOPED, ["f"]) == Ok(());
  }

  lemma HarmlessViolates(w: World, who: Identity, scope: Scope, place: Place, r: Runner)
    requires w.faults == [] && w.invariants == [Literal(Bool(false))]
    ensures ExecuteSite(w, who, Site(HARMLESS, scope, place), r) == Err(InvariantViolation)
  {
    SortedSingle("x");
    var locals: map<string, Value> := map[];
    var env := Env(r.state, locals, map[], None);
    assert DependencyGraph(map[]).Keys == {};
    assert Plan(map[]) == Ok([]);
    assert Derive(w.prims, map[], env) == Ok(map[]);
    assert EvalMap(w.prims, map[], env) == Ok(map[]);
    assert CheckInvariants(w, w.invariants, r.state + map[]) == Err(InvariantViolation);
  }

  lemma IllScopedEager(w: World, who: Identity, r: Runner)
    ensures Ranked(ILL_SCOPED, map["f" := 0])
    ensures ExecSequence(Ctx(w, ILL_SCOPED, map["f" := 0], RunnerMachine(w, who), true), None, 0, None, ROOT_PLACE, r)
            == Refused(r, ScopeResolution)
  {
    hide CompileSequence;
    IllScopedFacts(w);
    SortedSingle("x");
    var c := Ctx(w, ILL_SCOPED, map["f" := 0], RunnerMachine(w, who), true);
    var target := Invocation("f", map[]);
    assert Bind(w, target, r.state, None) == Ok(map[]);
    assert EnterFlow(c, "f", Some(map[]), Entered(w, ROOT_PLACE, "c", "f"), r) == Refused(r, ScopeResolution);
    assert ExecInvocation(c, None, 0, "c", target, None, ROOT_PLACE, r) == Refused(r, ScopeResolution);
    assert ExecNode(c, None, 0, None, ROOT_PLACE, r) == Refused(r, ScopeResolution);
  }

  /** The lone actor's first round enters the subflow and finds its harmless step. */
  lemma IllScopedRouting(w: World, state: State)
    ensures FramesOK(ILL_SCOPED, Start(ILL_SCOPED))
    ensures var r := Route(w, ILL_SCOPED, state, Start(ILL_SCOPED), 0);
            r.Found? && r.site == Site(HARMLESS, Some(map[]), Entered(w, ROOT_PLACE, "c", "f"))
  {
    hide CompileStep;
    SortedSingle("x");
    var start, moved := Sequence(None, 0, None, ROOT_PLACE), Sequence(None, 1, None, ROOT_PLACE);
    var place := Entered(w, ROOT_PLACE, "c", "f");
    var entered, past := Sequence(Some("f"), 0, Some(map[]), place), Sequence(Some("f"), 1, Some(map[]), place);
    assert Bind(w, Invocation("f", map[]), state, None) == Ok(map[]);
    HarmlessCompiles(w, Some(map[]));
    assert FrameOK(ILL_SCOPED, start) && FrameOK(ILL_SCOPED, moved) && FrameOK(ILL_SCOPED, entered) && FrameOK(ILL_SCOPED, past);
    assert Advance(w, ILL_SCOPED, state, [start], 0) == Again([moved, entered], 2);
    assert Advance(w, ILL_SCOPED, state, [moved, entered], 2) == Arrived([moved, past], Site(HARMLESS, Some(map[]), place), 3);
    assert Route(w, ILL_SCOPED, state, [moved, entered], 2).Found?;
    assert Start(ILL_SCOPED) == [start];
  }

  /** Eager and lazy compilation fail differently: Engine 1 reports the unbound name before anything
      runs, the one-actor run first executes the step in front of it, here into an invariant violation. */
  lemma EnginesCanDiffer(w: World, sc: Scenario, q: Request, a: Actor)
    requires w.faults == [] && w.invariants == [Literal(Bool(false))]
    requires Alone(sc, a) && a.program == ILL_SCOPED && q.scheduleSeed <= MAX_SCHEDULE_SEED
    ensures Ranked(ILL_SCOPED, map["f" := 0])
    ensures Engine1(w, sc, q.run, ILL_SCOPED, map["f" := 0]) == Refused(Runner(sc.initial, sc.start, [], [], None), ScopeResolution)
    ensures ExecuteActors(w, sc, q, None).Broken? && ExecuteActors(w, sc, q, None).error == InvariantViolation
  {
    hide ExecSequence, CompileDocument, ExecuteActors;
    IllScopedFacts(w);
    IllScopedEager(w, Identity(sc.id, q.run, None), Runner(sc.initial, sc.start, [], [], None));
    IllScopedRun(w, sc, q, a);
  }

  lemma IllScopedRun(w: World, sc: Scenario, q: Request, a: Actor)
    requires w.faults == [] && w.invariants == [Literal(Bool(false))]
    requires Alone(sc, a) && a.program == ILL_SCOPED && q.scheduleSeed <= MAX_SCHEDULE_SEED
    ensures ExecuteActors(w, sc, q, None).Broken? && ExecuteActors(w, sc, q, None).error == InvariantViolation
  {
    hide Route, Views, CommitMove, FaultError, ReadySet, Decide;
    InitialOK(sc);
    var cfg := Initial(sc);
    AloneFacts(sc, a, cfg);
    IllScopedRouting(w, sc.initial);
    LoneRouting(w, sc, q, a, cfg);
    IllScopedMove(w, sc, q, a, cfg);
  }

  lemma IllScopedMove(w: World, sc: Scenario, q: Request, a: Actor, cfg: Config)
    requires w.faults == [] && w.invariants == [Literal(Bool(false))]
    requires Alone(sc, a) && ConfigOK(sc, cfg) && a.address in Addresses(sc.actors) && ActorAt(sc, a.address) == a
    requires RouteOne(w, sc, cfg, a.address).Found? && ReadySet(w, sc, cfg) != {} && Decide(w, sc, q, cfg).actor == a.address
    requires exists place :: RouteOne(w, sc, cfg, a.address).site == Site(HARMLESS, Some(map[]), place)
    ensures FaultError(w, sc, cfg, a.address) == None
    ensures CommitMove(w, sc, q, cfg, Decide(w, sc, q, cfg)) == Err(InvariantViolation)
  {
    hide RouteOne, Decide, ReadySet, Perform;
    var site := RouteOne(w, sc, cfg, a.address).site;
    HarmlessViolates(w, Who(sc, q, a.address), site.scope, site.place, cfg.runner);
  }

  const UNRESOLVED := StepDoc("s", map[], map[], map["x" := ResourceRef(["absent"])], [], 0, None)

  /** A resource reference that resolves to nothing, on a step no run reaches: Engine 1 compiles the whole
      document and refuses it, the one-actor run never meets the step and succeeds. */
  lemma EnginesCanDifferAtLoad(w: World, sc: Scenario, q: Request, a: Actor)
    requires w.resources == map[] && Alone(sc, a) && a.program == Idle(UNRESOLVED) && q.scheduleSeed <= MAX_SCHEDULE_SEED
    ensures Ranked(a.program, map["f" := 0])
    ensures Engine1(w, sc, q.run, a.program, map["f" := 0]) == Refused(Runner(sc.initial, sc.start, [], [], None), ResourceUnresolved)
    ensures ExecuteActors(w, sc, q, None).Finished?
  {
    hide ExecuteActors, ExecSequence;
    IdleRun(w, sc, q, a, UNRESOLVED);
    UnresolvedRefused(w);
  }

  lemma UnresolvedRefused(w: World)
    requires w.resources == map[]
    ensures Ranked(Idle(UNRESOLVED), map["f" := 0]) && CompileDocument(w, Idle(UNRESOLVED)) == Err(ResourceUnresolved)
  {
    SortedSingle("x");
    SortedSingle("f");
    var p := Idle(UNRESOLVED);
    assert p.subflows.Keys == {"f"} && UNRESOLVED.write.Keys == {"x"};
    assert Descend(Dict(w.resources), ["absent"]) == None;
    assert CompileParts(Record(UNRESOLVED.write), ["x"], w.resources, None) == Err(ResourceUnresolved);
    assert CompileStep(w, UNRESOLVED, None) == Err(ResourceUnresolved);
    assert CompileSequence(w, p.steps, None) == Ok(());
  }
}
