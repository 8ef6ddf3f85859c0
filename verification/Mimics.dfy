/** Runs whose evidence cannot be read back, because their state mimics the engine's own tagged values or
    nests too deep: the suite that reports their success is refused by verification. */
module Mimics {
  import opened Values
  import opened Expressions
  import opened Derivations
  import opened Steps
  import opened Programs
  import opened Routing
  import opened Actors
  import opened Evidence
  import opened SingleActor
  import opened Encoding
  import opened Results
  import opened Suites

  const MIMIC := Dict(map["$type" := Str("x")])

  /** One step that writes an object whose only key is the reserved one. */
  const WRITER := StepDoc("s", map[], map[], map["x" := Record(map["$type" := Literal(Str("x"))])], [], 0, None)

  const WRITES_MIMIC := Program([Step(WRITER)], map[])

  lemma WriterCompiles(w: World)
    ensures CompileStep(w, WRITER, None) == Ok(WRITER)
  {
    SortedSingle("x");
    SortedSingle("$type");
    var inner := map["$type" := Literal(Str("x"))];
    assert WRITER.write.Keys == {"x"} && inner.Keys == {"$type"};
    assert CompileParts(Record(inner), [], w.resources, None) == Ok(map[]);
    assert CompileParts(Record(inner), ["$type"], w.resources, None) == Ok(inner);
    assert Compile(Record(inner), w.resources, None) == Ok(Record(inner));
    assert CompileParts(Record(WRITER.write), [], w.resources, None) == Ok(map[]);
    assert CompileParts(Record(WRITER.write), ["x"], w.resources, None) == Ok(WRITER.write);
  }

  lemma WriterRoutes(w: World, state: State)
    ensures FramesOK(WRITES_MIMIC, Start(WRITES_MIMIC)) && FramesOK(WRITES_MIMIC, [Sequence(None, 1, None, ROOT_PLACE)])
    ensures Route(w, WRITES_MIMIC, state, Start(WRITES_MIMIC), 0)
         == Found([Sequence(None, 1, None, ROOT_PLACE)], Site(WRITER, None, ROOT_PLACE), 1)
    ensures Route(w, WRITES_MIMIC, state, [Sequence(None, 1, None, ROOT_PLACE)], 0) == Drained(0)
  {
    hide CompileStep;
    WriterCompiles(w);
    var start, moved := Sequence(None, 0, None, ROOT_PLACE), Sequence(None, 1, None, ROOT_PLACE);
    assert FrameOK(WRITES_MIMIC, start) && FrameOK(WRITES_MIMIC, moved);
    assert Advance(w, WRITES_MIMIC, state, [start], 0) == Arrived([moved], Site(WRITER, None, ROOT_PLACE), 1);
    assert Advance(w, WRITES_MIMIC, state, [moved], 0) == Again([], 0);
    assert Start(WRITES_MIMIC) == [start];
  }

  lemma WriterWrites(w: World, who: Identity, r: Runner)
    requires w.faults == [] && w.invariants == []
    ensures ExecuteSite(w, who, Site(WRITER, None, ROOT_PLACE), r).Ok?
    ensures ExecuteSite(w, who, Site(WRITER, None, ROOT_PLACE), r).value.state == r.state + map["x" := MIMIC]
  {
    SortedSingle("x");
    SortedSingle("$type");
    var locals: map<string, Value> := map[];
    var env, inner := Env(r.state, locals, map[], None), map["$type" := Literal(Str("x"))];
    assert DependencyGraph(map[]).Keys == {};
    assert Plan(map[]) == Ok([]);
    assert Derive(w.prims, map[], env) == Ok(map[]);
    assert WRITER.write.Keys == {"x"} && inner.Keys == {"$type"};
    assert EvalParts(w.prims, Record(inner), [], env) == Ok(map[]);
    assert EvalParts(w.prims, Record(inner), ["$type"], env) == Ok(map["$type" := Str("x")]);
    assert Eval(w.prims, Record(inner), env) == Ok(MIMIC);
    assert EvalParts(w.prims, Record(WRITER.write), [], env) == Ok(map[]);
    assert EvalParts(w.prims, Record(WRITER.write), ["x"], env) == Ok(map["x" := MIMIC]);
    assert EvalMap(w.prims, WRITER.write, env) == Ok(map["x" := MIMIC]);
  }

  /** The first round commits the step. */
  lemma WriterMoves(w: World, sc: Scenario, q: Request, a: Actor)
    requires w.faults == [] && w.invariants == []
    requires Alone(sc, a) && a.program == WRITES_MIMIC && q.scheduleSeed <= MAX_SCHEDULE_SEED
    ensures ConfigOK(sc, Initial(sc)) && PlayRound(w, sc, q, Initial(sc), None).Continue?
    ensures var next := PlayRound(w, sc, q, Initial(sc), None).cfg;
            && ConfigOK(sc, next) && a.address in next.controls && next.controls[a.address] == [Sequence(None, 1, None, ROOT_PLACE)]
            && next.runner.state == sc.initial + map["x" := MIMIC]
  {
    hide Route, Perform, ReadySet, Decide, ApplyFaults;
    InitialOK(sc);
    var cfg := Initial(sc);
    AloneFacts(sc, a, cfg);
    WriterRoutes(w, sc.initial);
    LoneRouting(w, sc, q, a, cfg);
    WriterWrites(w, Who(sc, q, a.address), cfg.runner);
    assert ApplyFaults(w, w.faults, WRITER, sc.initial, None, ROOT_PLACE) == Ok((WRITER, [])) by { NoFaults(w, WRITER, sc.initial); }
    assert RoutingError(w, sc, cfg, Addresses(sc.actors)) == None;
    var d := Decide(w, sc, q, cfg);
    assert CommitMove(w, sc, q, cfg, d).Ok?;
    CommitMoveFrame(w, sc, q, cfg, d);
  }

  lemma NoFaults(w: World, spec: StepDoc, state: State)
    requires w.faults == []
    ensures ApplyFaults(w, w.faults, spec, state, None, ROOT_PLACE) == Ok((spec, []))
  {
  }

  /** The second round drains the actor. */
  lemma WriterDrains(w: World, sc: Scenario, q: Request, a: Actor, cfg: Config)
    requires Alone(sc, a) && a.program == WRITES_MIMIC && q.scheduleSeed <= MAX_SCHEDULE_SEED && ConfigOK(sc, cfg)
    requires a.address in cfg.controls && cfg.controls[a.address] == [Sequence(None, 1, None, ROOT_PLACE)]
    ensures var round := PlayRound(w, sc, q, cfg, None);
            round.End? && round.ending.Finished? && round.ending.report.state == cfg.runner.state
  {
    hide Route, ReadySet, Decide, CommitMove, Views;
    AloneFacts(sc, a, cfg);
    WriterRoutes(w, cfg.runner.state);
    LoneRouting(w, sc, q, a, cfg);
  }

  lemma TwoRounds(w: World, sc: Scenario, q: Request, cfg: Config, next: Config, ending: Ending)
    requires ConfigOK(sc, cfg) && ConfigOK(sc, next)
    requires PlayRound(w, sc, q, cfg, None) == Continue(next) && PlayRound(w, sc, q, next, None) == End(ending)
    ensures Run(w, sc, q, cfg, None) == ending
  {
    hide PlayRound, ConfigOK;
    RoundFrame(w, sc, q, cfg, None);
  }

  lemma WriterRun(w: World, sc: Scenario, q: Request, a: Actor)
    requires w.faults == [] && w.invariants == []
    requires Alone(sc, a) && a.program == WRITES_MIMIC && q.scheduleSeed <= MAX_SCHEDULE_SEED
    ensures var ending := ExecuteActors(w, sc, q, None);
            ending.Finished? && ending.report.state == sc.initial + map["x" := MIMIC]
  {
    hide PlayRound, ConfigOK, Run;
    WriterMoves(w, sc, q, a);
    var next := PlayRound(w, sc, q, Initial(sc), None).cfg;
    WriterDrains(w, sc, q, a, next);
    TwoRounds(w, sc, q, Initial(sc), next, PlayRound(w, sc, q, next, None).ending);
  }

  lemma MimicTag(f: Formats)
    ensures Normalize(f, MIMIC).Fields? && "$type" in Normalize(f, MIMIC).fields && !CanonicalTag(f, Normalize(f, MIMIC).fields)
  {
    var fields := Normalize(f, MIMIC).fields;
    assert fields.Keys == {"$type"} && fields["$type"] == Normalize(f, Str("x")) == Text("x");
    assert fields != map["$type" := Text("missing")] by { assert map["$type" := Text("missing")]["$type"] == Text("missing"); }
  }

  lemma MimicLost(f: Formats, state: State)
    ensures !Canonical(f, Normalize(f, Dict(state + map["x" := MIMIC])))
  {
    hide CanonicalTag;
    MimicTag(f);
    var t := Normalize(f, Dict(state + map["x" := MIMIC]));
    assert t.fields["x"] == Normalize(f, MIMIC) && !Canonical(f, t.fields["x"]);
    if "$type" in t.fields { KeysTell(f, t.fields); }
  }

  lemma KeysTell(f: Formats, fields: map<string, Tree>)
    requires "$type" in fields && "x" in fields
    ensures !CanonicalTag(f, fields)
  {
    assert "x" in fields.Keys;
  }

  lemma ConstructedState(codec: Codec, sc: Scenario, report: Report)
    requires ConstructResult2(codec, sc, report).Some?
    ensures ConstructResult2(codec, sc, report).value.state == Dict(report.state)
  {
  }

  lemma NotRestorable(f: Formats, r: ResultOf<Value>)
    requires !Canonical(f, Normalize(f, r.state))
    ensures !ResultRestorable(f, r)
  {
    hide Canonical, WithinLevels;
  }

  /** The native evidence of the run: a success whose state cannot be read back. */
  lemma MimicNative(codec: Codec, c: PlannedCase, a: Actor)
    requires ValidCase(c) && c.w.faults == [] && c.w.invariants == []
    requires Alone(c.sc, a) && a.program == WRITES_MIMIC && c.q.scheduleSeed <= MAX_SCHEDULE_SEED
    ensures ExecuteNative(codec, c).Completed?
    ensures !ResultRestorable(codec.formats, ExecuteNative(codec, c).native.result)
  {
    hide ExecuteActors, ValidCase, ConstructResult2, ResultRestorable, Canonical, Engine;
    WriterRun(c.w, c.sc, c.q, a);
    NativeIsGenuine(codec, c);
    ConstructedState(codec, c.sc, ExecuteActors(c.w, c.sc, c.q, None).report);
    MimicLost(codec.formats, c.sc.initial);
    NotRestorable(codec.formats, ExecuteNative(codec, c).native.result);
  }

  lemma OnlySuccess(s: Suite)
    requires |s.cases| == 1 && s.cases[0].status == Status.SUCCESS && s.counts == CountsOf(s.cases) && s.overall == OverallOf(s.counts)
    ensures s.overall == Classification.SUCCESS
  {
    assert s.cases[1..] == [];
    assert CountOf(s.cases, ERROR) == 0 && CountOf(s.cases, UNEXPECTED_FAILURE) == 0;
  }

  /** A retained success whose result cannot be read back: reported as a success, refused by verification. */
  lemma UnreadableRefused(codec: Codec, c: PlannedCase, s: Suite)
    requires Strict(codec) && ValidCase(c) && c.expectation == Expectation(Classification.SUCCESS, None)
    requires ExecuteNative(codec, c).Completed? && !ResultRestorable(codec.formats, ExecuteNative(codec, c).native.result)
    requires SuiteOf(codec, [c], s) && s.cases[0].child.Some?
    ensures s.cases[0].status == Status.SUCCESS && s.overall == Classification.SUCCESS
    ensures !Verifiable(codec, Identities([c]), s)
  {
    hide Strict, ValidCase, ExecuteNative, ResultRestorable, CountsOf, OverallOf, Fits, Totals, Kept, Verifiable, CollisionFree, SuiteAccepted;
    var account := Totals(codec, Kept(s.cases[..0]));
    assert s.cases[0] == Outcome(codec, account, [c][0]);
    assert s.cases[0].status == Status.SUCCESS && s.cases[0].child == Some(ExecuteNative(codec, c).native);
    OnlySuccess(s);
    ExecutedSuitesVerify(codec, [c], s);
  }

  /** The engine reports the run a success and the suite retains it; reading its result back fails, so the
      suite's own verification refuses the suite. */
  lemma ReservedStateRefused(codec: Codec, c: PlannedCase, a: Actor, s: Suite)
    requires Strict(codec) && ValidCase(c) && c.w.faults == [] && c.w.invariants == []
    requires Alone(c.sc, a) && a.program == WRITES_MIMIC && c.q.scheduleSeed <= MAX_SCHEDULE_SEED
    requires c.expectation == Expectation(Classification.SUCCESS, None)
    requires SuiteOf(codec, [c], s) && s.cases[0].child.Some?
    ensures s.cases[0].status == Status.SUCCESS && s.overall == Classification.SUCCESS
    ensures !Verifiable(codec, Identities([c]), s)
  {
    hide Strict, ValidCase, ExecuteNative, ResultRestorable, SuiteOf, Verifiable;
    MimicNative(codec, c, a);
    UnreadableRefused(codec, c, s);
  }

  // ---------------------------------------------------------------- a state nested one level too deep

  /** A list in a list, n times. */
  function Nested(n: nat): Value {
    if n == 0 then Null else List([Nested(n - 1)])
  }

  lemma {:induction false} NestedLevels(f: Formats, n: nat, room: int)
    requires 0 <= room
    ensures WithinLevels(Normalize(f, Nested(n)), room) <==> n <= room
  {
    if n > 0 {
      var t := Normalize(f, Nested(n));
      assert t.Items? && t.items == [Normalize(f, Nested(n - 1))] && t.items[0] == Normalize(f, Nested(n - 1));
      assert WithinLevels(t, room) <==> WithinLevels(t.items[0], room - 1);
      if room > 0 { NestedLevels(f, n - 1, room - 1); } else { assert !WithinLevels(t.items[0], -1); }
    }
  }

  lemma DeepState(f: Formats, n: nat)
    ensures WithinLevels(Normalize(f, Dict(map["x" := Nested(n)])), MAX_NESTING - 1) <==> n <= MAX_NESTING - 2
  {
    var t := Normalize(f, Dict(map["x" := Nested(n)]));
    assert t.fields.Keys == {"x"} && t.fields["x"] == Normalize(f, Nested(n));
    NestedLevels(f, n, MAX_NESTING - 2);
  }

  /** The same for an initial state nested one level too deep, on a program that commits nothing. */
  lemma DeepStateRefused(codec: Codec, c: PlannedCase, a: Actor, doc: StepDoc, s: Suite)
    requires Strict(codec) && ValidCase(c) && Alone(c.sc, a) && a.program == Idle(doc) && c.q.scheduleSeed <= MAX_SCHEDULE_SEED
    requires c.sc.initial == map["x" := Nested(MAX_NESTING - 1)]
    requires c.expectation == Expectation(Classification.SUCCESS, None)
    requires SuiteOf(codec, [c], s) && s.cases[0].child.Some?
    ensures s.cases[0].status == Status.SUCCESS && s.overall == Classification.SUCCESS
    ensures !Verifiable(codec, Identities([c]), s)
  {
    hide Strict, ValidCase, SuiteOf, Verifiable, ExecuteActors, ConstructResult2, Canonical, Engine, WithinLevels, Nested, Normalize;
    IdleRun(c.w, c.sc, c.q, a, doc);
    NativeIsGenuine(codec, c);
    ConstructedState(codec, c.sc, ExecuteActors(c.w, c.sc, c.q, None).report);
    DeepState(codec.formats, MAX_NESTING - 1);
    UnreadableRefused(codec, c, s);
  }
}
