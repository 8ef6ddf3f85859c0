/** Engine 2: logical actors share one state; each round routes every actor against it, the
    scheduler picks one by digest, and that actor commits one whole step. */
module Actors {
  import opened Order
  import opened Values
  import opened Steps
  import opened Programs
  import opened Routing

  const MAX_SELECTIONS: nat := 65536
  const MAX_ACTORS: nat := 32
  const MAX_SCHEDULE_SEED: nat := 0xFFFF_FFFF_FFFF_FFFF

  datatype Actor = Actor(id: string, address: string, program: Program)

  datatype Scenario = Scenario(
    id: string, actors: seq<Actor>, initial: State, start: int,
    hash: string, resourceHashes: map<string, string>, generators: map<string, string>
  )

  /** The coordinates hashed for one scheduler decision. */
  datatype Coordinates = Coordinates(
    hash: string, resources: map<string, string>, run: nat, seed: nat, ordinal: nat,
    historyLength: nat, clock: int, ready: seq<string>
  )

  /** Seeds of a run, with the digest and canonical-bytes functions of the engine. */
  datatype Request = Request(
    rootSeed: string, scheduleSeed: nat, run: nat,
    digest: Coordinates -> nat, semantic: (string, string) -> string, bytes: Schedule -> seq<int>
  )

  datatype Outcomes = COMMITTED | FAILED
  datatype Classification = SUCCESS | FAILURE

  datatype Decision = Decision(
    ordinal: nat, actor: string, step: string, ready: seq<string>, digest: nat,
    historyLength: nat, clock: int, outcome: Outcomes
  )

  datatype ScheduleRecord = ScheduleRecord(
    ordinal: nat, ready: seq<string>, actor: string, historyLength: nat, clock: int, digest: nat, outcome: Outcomes
  )

  datatype FailureRecord = FailureRecord(actor: string, code: string, ordinal: nat)

  datatype Execution = Execution(rootSeed: string, start: int, generators: map<string, string>)

  datatype Schedule = Schedule(
    hash: string, resources: map<string, string>, run: nat, seed: nat, actors: seq<string>,
    execution: Execution, records: seq<ScheduleRecord>, classification: Classification, failure: Option<FailureRecord>
  )

  datatype ActorView = ActorView(address: string, next: Option<string>, terminal: bool)

  datatype Report = Report(
    state: State, clock: int, history: seq<HistoryRecord>, actors: seq<ActorView>,
    decisions: seq<Decision>, artifacts: seq<Artifact>, classification: Classification, schedule: Schedule
  )

  /** One executed step: who ran it and where; kept for stating what a run did. */
  datatype Move = Move(actor: string, site: Site)

  datatype Config = Config(controls: map<string, seq<Frame>>, decisions: seq<Decision>, runner: Runner, moves: seq<Move>)

  /** How a run ends: with a report, with an error that carries no evidence, or rejected by replay. */
  datatype Ending =
    | Finished(report: Report)
    | Broken(error: Error, report: Report)
    | Aborted(error: Error)
    | Mismatch

  // ---------------------------------------------------------------- scenarios

  function Addresses(actors: seq<Actor>): seq<string> {
    seq(|actors|, i requires 0 <= i < |actors| => actors[i].address)
  }

  /** What the parser guarantees of a compiled scenario. */
  predicate ValidScenario(sc: Scenario) {
    && 1 <= |sc.actors| <= MAX_ACTORS
    && Distinct(Addresses(sc.actors))
  }

  function ActorAt(sc: Scenario, address: string): (a: Actor)
    requires address in Addresses(sc.actors)
    ensures a in sc.actors && a.address == address
  {
    FindActor(sc.actors, address)
  }

  function FindActor(actors: seq<Actor>, address: string): (a: Actor)
    requires address in Addresses(actors)
    ensures a in actors && a.address == address
  {
    if actors[0].address == address then actors[0]
    else
      assert Addresses(actors)[1..] == Addresses(actors[1..]);
      FindActor(actors[1..], address)
  }

  function Who(sc: Scenario, q: Request, address: string): Identity
    requires address in Addresses(sc.actors)
  {
    Identity(sc.id, q.run, Some(ActorAt(sc, address).id))
  }

  function Initial(sc: Scenario): Config {
    Config(map a | a in Addresses(sc.actors) :: Start(ActorAt(sc, a).program), [],
           Runner(sc.initial, sc.start, [], [], None), [])
  }

  predicate ConfigOK(sc: Scenario, cfg: Config) {
    && cfg.controls.Keys == Elements(Addresses(sc.actors))
    && forall a :: a in cfg.controls ==> a in Addresses(sc.actors) && FramesOK(ActorAt(sc, a).program, cfg.controls[a])
  }

  // ---------------------------------------------------------------- one round

  function RouteOne(w: World, sc: Scenario, cfg: Config, address: string): Routed
    requires ConfigOK(sc, cfg) && address in Addresses(sc.actors)
  {
    assert address in Elements(Addresses(sc.actors));
    Route(w, ActorAt(sc, address).program, cfg.runner.state, cfg.controls[address], 0)
  }

  /** Routes the declared actors in order; the first routing error ends the round. */
  function RoutingError(w: World, sc: Scenario, cfg: Config, declared: seq<string>): Option<Error>
    requires ConfigOK(sc, cfg) && forall a :: a in declared ==> a in Addresses(sc.actors)
  {
    if declared == [] then None
    else
      match RouteOne(w, sc, cfg, declared[0])
      case Unroutable(e) => Some(e)
      case _ => RoutingError(w, sc, cfg, declared[1..])
  }

  function ReadySet(w: World, sc: Scenario, cfg: Config): set<string>
    requires ConfigOK(sc, cfg)
  {
    set a | a in Addresses(sc.actors) && RouteOne(w, sc, cfg, a).Found?
  }

  function Coordinate(sc: Scenario, q: Request, cfg: Config, ready: seq<string>): Coordinates {
    Coordinates(sc.hash, sc.resourceHashes, q.run, q.scheduleSeed, |cfg.decisions|,
                |cfg.runner.history|, cfg.runner.clock, ready)
  }

  /** `select_actor`: the digest picks an index into the canonically ordered ready actors. */
  function Select(q: Request, c: Coordinates): (actor: string)
    requires c.ready != []
    ensures actor in c.ready
  {
    c.ready[q.digest(c) % |c.ready|]
  }

  function Decide(w: World, sc: Scenario, q: Request, cfg: Config): Decision
    requires ConfigOK(sc, cfg) && ReadySet(w, sc, cfg) != {}
  {
    var ready := Sorted(ReadySet(w, sc, cfg));
    var c := Coordinate(sc, q, cfg, ready);
    var actor := Select(q, c);
    assert actor in ReadySet(w, sc, cfg);
    var found := RouteOne(w, sc, cfg, actor);
    Decision(|cfg.decisions|, actor, q.semantic(ActorAt(sc, actor).id, found.site.spec.id), ready, q.digest(c),
             |cfg.runner.history|, cfg.runner.clock, COMMITTED)
  }

  function ToRecord(d: Decision): ScheduleRecord {
    ScheduleRecord(d.ordinal, d.ready, d.actor, d.historyLength, d.clock, d.digest, d.outcome)
  }

  function ToRecords(ds: seq<Decision>): (r: seq<ScheduleRecord>)
    ensures |r| == |ds| && forall i :: 0 <= i < |ds| ==> r[i] == ToRecord(ds[i])
  {
    seq(|ds|, i requires 0 <= i < |ds| => ToRecord(ds[i]))
  }

  function BuildSchedule(sc: Scenario, q: Request, ds: seq<Decision>, cls: Classification, failure: Option<FailureRecord>): Schedule {
    Schedule(sc.hash, sc.resourceHashes, q.run, q.scheduleSeed, Sorted(Elements(Addresses(sc.actors))),
             Execution(q.rootSeed, sc.start, sc.generators), ToRecords(ds), cls, failure)
  }

  function ViewOf(w: World, sc: Scenario, q: Request, cfg: Config, address: string): ActorView
    requires ConfigOK(sc, cfg) && address in Addresses(sc.actors)
  {
    match RouteOne(w, sc, cfg, address)
    case Found(_, site, _) => ActorView(address, Some(q.semantic(ActorAt(sc, address).id, site.spec.id)), false)
    case _ => ActorView(address, None, true)
  }

  function Views(w: World, sc: Scenario, q: Request, cfg: Config, names: seq<string>): (vs: seq<ActorView>)
    requires ConfigOK(sc, cfg) && forall a :: a in names ==> a in Addresses(sc.actors)
    ensures |vs| == |names|
  {
    if names == [] then [] else [ViewOf(w, sc, q, cfg, names[0])] + Views(w, sc, q, cfg, names[1..])
  }

  function BuildReport(w: World, sc: Scenario, q: Request, cfg: Config, ds: seq<Decision>, cls: Classification, failure: Option<FailureRecord>): Report
    requires ConfigOK(sc, cfg)
  {
    Report(cfg.runner.state, cfg.runner.clock, cfg.runner.history,
           Views(w, sc, q, cfg, Sorted(cfg.controls.Keys)), ds, cfg.runner.artifacts, cls,
           BuildSchedule(sc, q, ds, cls, failure))
  }

  /** The replay comparison of one recorded selection against the recomputed one. */
  predicate RecordAgrees(expected: Option<Schedule>, d: Decision) {
    expected.Some? ==>
      && d.ordinal < |expected.value.records|
      && expected.value.records[d.ordinal].(outcome := COMMITTED) == ToRecord(d)
  }

  predicate BytesAgree(q: Request, expected: Option<Schedule>, actual: Schedule) {
    expected.Some? ==> q.bytes(actual) == q.bytes(expected.value)
  }

  datatype Round = Continue(cfg: Config) | End(ending: Ending)

  function CommitMove(w: World, sc: Scenario, q: Request, cfg: Config, d: Decision): Result<Config>
    requires ConfigOK(sc, cfg) && d.actor in Addresses(sc.actors) && RouteOne(w, sc, cfg, d.actor).Found?
  {
    var found := RouteOne(w, sc, cfg, d.actor);
    var faulted :- ApplyFaults(w, w.faults, found.site.spec, cfg.runner.state, found.site.scope, found.site.place);
    var r :- Perform(w, faulted.0, faulted.1, StepAddress(Who(sc, q, d.actor), found.site.place, found.site.spec.id), cfg.runner);
    Ok(Config(cfg.controls[d.actor := found.frames], cfg.decisions + [d], r, cfg.moves + [Move(d.actor, found.site)]))
  }

  /** Fault application happens outside the guarded step: its errors carry no evidence. */
  function FaultError(w: World, sc: Scenario, cfg: Config, actor: string): Option<Error>
    requires ConfigOK(sc, cfg) && actor in Addresses(sc.actors) && RouteOne(w, sc, cfg, actor).Found?
  {
    var site := RouteOne(w, sc, cfg, actor).site;
    match ApplyFaults(w, w.faults, site.spec, cfg.runner.state, site.scope, site.place)
    case Err(e) => Some(e)
    case Ok(_) => None
  }

  function FailMove(w: World, sc: Scenario, q: Request, cfg: Config, d: Decision, e: Error, expected: Option<Schedule>): Ending
    requires ConfigOK(sc, cfg)
  {
    var ds := cfg.decisions + [d.(outcome := FAILED)];
    var report := BuildReport(w, sc, q, cfg, ds, FAILURE, Some(FailureRecord(d.actor, CodeOf(e), d.ordinal)));
    if BytesAgree(q, expected, report.schedule) then Broken(e, report) else Mismatch
  }

  function Execute(w: World, sc: Scenario, q: Request, cfg: Config, d: Decision, expected: Option<Schedule>): Round
    requires ConfigOK(sc, cfg) && d.actor in Addresses(sc.actors) && RouteOne(w, sc, cfg, d.actor).Found?
  {
    if FaultError(w, sc, cfg, d.actor).Some? then End(Aborted(FaultError(w, sc, cfg, d.actor).value))
    else
      match CommitMove(w, sc, q, cfg, d)
      case Ok(next) => Continue(next)
      case Err(e) => End(FailMove(w, sc, q, cfg, d, e, expected))
  }

  function Succeed(w: World, sc: Scenario, q: Request, cfg: Config, expected: Option<Schedule>): Ending
    requires ConfigOK(sc, cfg)
  {
    var report := BuildReport(w, sc, q, cfg, cfg.decisions, SUCCESS, None);
    if q.scheduleSeed > MAX_SCHEDULE_SEED then Aborted(SchedulerInvalid)
    else if BytesAgree(q, expected, report.schedule) then Finished(report) else Mismatch
  }

  function PlayRound(w: World, sc: Scenario, q: Request, cfg: Config, expected: Option<Schedule>): Round
    requires ConfigOK(sc, cfg)
  {
    var broken := RoutingError(w, sc, cfg, Addresses(sc.actors));
    if broken.Some? then End(Aborted(broken.value))
    else if ReadySet(w, sc, cfg) == {} then End(Succeed(w, sc, q, cfg, expected))
    else if |cfg.decisions| >= MAX_SELECTIONS then End(Aborted(SelectionLimit))
    else if q.scheduleSeed > MAX_SCHEDULE_SEED then End(Aborted(SchedulerInvalid))
    else
      var d := Decide(w, sc, q, cfg);
      if !RecordAgrees(expected, d) then End(Mismatch)
      else Execute(w, sc, q, cfg, d, expected)
  }

  lemma DecideIsReady(w: World, sc: Scenario, q: Request, cfg: Config)
    requires ConfigOK(sc, cfg) && ReadySet(w, sc, cfg) != {}
    ensures var d := Decide(w, sc, q, cfg);
            d.actor in Addresses(sc.actors) && RouteOne(w, sc, cfg, d.actor).Found? && d.actor in d.ready
  {
    assert Decide(w, sc, q, cfg).actor in ReadySet(w, sc, cfg);
  }

  /** One round changes the selected actor's control and nobody else's. */
  lemma CommitMoveFrame(w: World, sc: Scenario, q: Request, cfg: Config, d: Decision)
    requires ConfigOK(sc, cfg) && d.actor in Addresses(sc.actors) && RouteOne(w, sc, cfg, d.actor).Found?
    requires CommitMove(w, sc, q, cfg, d).Ok?
    ensures var next := CommitMove(w, sc, q, cfg, d).value;
            var found := RouteOne(w, sc, cfg, d.actor);
            && ConfigOK(sc, next) && next.decisions == cfg.decisions + [d] && next.moves == cfg.moves + [Move(d.actor, found.site)]
            && next.controls[d.actor] == found.frames
            && (forall a :: a in cfg.controls && a != d.actor ==> next.controls[a] == cfg.controls[a])
            && ExecuteSite(w, Who(sc, q, d.actor), found.site, cfg.runner) == Ok(next.runner)
  {
    hide Route, ApplyFaults, Perform;
    assert d.actor in Elements(Addresses(sc.actors));
    var next := CommitMove(w, sc, q, cfg, d).value;
    assert next.controls.Keys == cfg.controls.Keys;
  }

  lemma RoundFrame(w: World, sc: Scenario, q: Request, cfg: Config, expected: Option<Schedule>)
    requires ConfigOK(sc, cfg) && PlayRound(w, sc, q, cfg, expected).Continue?
    ensures ReadySet(w, sc, cfg) != {} && |cfg.decisions| < MAX_SELECTIONS
    ensures var next, d := PlayRound(w, sc, q, cfg, expected).cfg, Decide(w, sc, q, cfg);
            && d.actor in Addresses(sc.actors) && RouteOne(w, sc, cfg, d.actor).Found? && RecordAgrees(expected, d)
            && CommitMove(w, sc, q, cfg, d) == Ok(next) && ConfigOK(sc, next) && |next.decisions| == |cfg.decisions| + 1
  {
    hide RouteOne, Decide, CommitMove, FailMove;
    DecideIsReady(w, sc, q, cfg);
    CommitMoveFrame(w, sc, q, cfg, Decide(w, sc, q, cfg));
  }

  ghost function FailureReport(w: World, sc: Scenario, q: Request, cfg: Config, e: Error): Report
    requires ConfigOK(sc, cfg) && ReadySet(w, sc, cfg) != {}
  {
    var d := Decide(w, sc, q, cfg);
    BuildReport(w, sc, q, cfg, cfg.decisions + [d.(outcome := FAILED)], FAILURE, Some(FailureRecord(d.actor, CodeOf(e), d.ordinal)))
  }

  /** The two ways a round ends with evidence. */
  lemma EndingReports(w: World, sc: Scenario, q: Request, cfg: Config, expected: Option<Schedule>, ending: Ending)
    requires ConfigOK(sc, cfg) && PlayRound(w, sc, q, cfg, expected) == End(ending)
    ensures ending.Finished? ==>
              ReadySet(w, sc, cfg) == {} && q.scheduleSeed <= MAX_SCHEDULE_SEED
              && ending.report == BuildReport(w, sc, q, cfg, cfg.decisions, SUCCESS, None)
    ensures ending.Broken? ==>
              ReadySet(w, sc, cfg) != {} && q.scheduleSeed <= MAX_SCHEDULE_SEED && |cfg.decisions| < MAX_SELECTIONS
              && ending.report == FailureReport(w, sc, q, cfg, ending.error)
  {
    hide RouteOne, Decide, CommitMove, ReadySet, BuildReport;
    if ReadySet(w, sc, cfg) != {} { DecideIsReady(w, sc, q, cfg); }
  }

  function Run(w: World, sc: Scenario, q: Request, cfg: Config, expected: Option<Schedule>): Ending
    requires ConfigOK(sc, cfg)
    decreases MAX_SELECTIONS - |cfg.decisions|
  {
    match PlayRound(w, sc, q, cfg, expected)
    case End(ending) => ending
    case Continue(next) =>
      RoundFrame(w, sc, q, cfg, expected);
      Run(w, sc, q, next, expected)
  }

  lemma InitialOK(sc: Scenario)
    ensures ConfigOK(sc, Initial(sc))
  {
  }

  /** The last configuration a run passes through: the one whose round ends it. */
  ghost function Last(w: World, sc: Scenario, q: Request, cfg: Config, expected: Option<Schedule>): (last: Config)
    requires ConfigOK(sc, cfg)
    ensures ConfigOK(sc, last)
    decreases MAX_SELECTIONS - |cfg.decisions|
  {
    match PlayRound(w, sc, q, cfg, expected)
    case End(_) => cfg
    case Continue(next) =>
      RoundFrame(w, sc, q, cfg, expected);
      Last(w, sc, q, next, expected)
  }

  lemma {:induction false} RunEndsAtLast(w: World, sc: Scenario, q: Request, cfg: Config, expected: Option<Schedule>)
    requires ConfigOK(sc, cfg)
    ensures PlayRound(w, sc, q, Last(w, sc, q, cfg, expected), expected) == End(Run(w, sc, q, cfg, expected))
    decreases MAX_SELECTIONS - |cfg.decisions|
  {
    hide PlayRound;
    match PlayRound(w, sc, q, cfg, expected)
    case End(_) =>
    case Continue(next) =>
      RoundFrame(w, sc, q, cfg, expected);
      RunEndsAtLast(w, sc, q, next, expected);
  }

  /** One round of a run; the configuration whose round ends the run stays. */
  ghost function Next(w: World, sc: Scenario, q: Request, cfg: Config, expected: Option<Schedule>): (r: Config)
    requires ConfigOK(sc, cfg)
    ensures ConfigOK(sc, r)
  {
    match PlayRound(w, sc, q, cfg, expected)
    case End(_) => cfg
    case Continue(next) =>
      RoundFrame(w, sc, q, cfg, expected);
      next
  }

  /** The configuration of a run after n rounds. */
  ghost function After(w: World, sc: Scenario, q: Request, expected: Option<Schedule>, n: nat): (r: Config)
    ensures ConfigOK(sc, r)
  {
    if n == 0 then
      InitialOK(sc);
      Initial(sc)
    else Next(w, sc, q, After(w, sc, q, expected, n - 1), expected)
  }

  /** The last configuration is one of those the rounds pass through. */
  lemma {:induction false} LastIsAfter(w: World, sc: Scenario, q: Request, expected: Option<Schedule>, n: nat)
    ensures exists k :: k >= n && Last(w, sc, q, After(w, sc, q, expected, n), expected) == After(w, sc, q, expected, k)
    decreases MAX_SELECTIONS - |After(w, sc, q, expected, n).decisions|
  {
    hide PlayRound, ConfigOK;
    var cfg := After(w, sc, q, expected, n);
    if PlayRound(w, sc, q, cfg, expected).Continue? {
      RoundFrame(w, sc, q, cfg, expected);
      assert After(w, sc, q, expected, n + 1) == Next(w, sc, q, cfg, expected);
      LastIsAfter(w, sc, q, expected, n + 1);
    }
  }

  /** The replay coordinates compared before anything runs. */
  predicate CoordinatesAgree(sc: Scenario, q: Request, s: Schedule) {
    && s.hash == sc.hash && s.resources == sc.resourceHashes && s.run == q.run && s.seed == q.scheduleSeed
    && s.actors == Sorted(Elements(Addresses(sc.actors)))
    && s.execution == Execution(q.rootSeed, sc.start, sc.generators)
  }

  /** `execute_actors_internal`: a fresh run, or a replay against an expected schedule. */
  function ExecuteActors(w: World, sc: Scenario, q: Request, expected: Option<Schedule>): Ending {
    InitialOK(sc);
    if expected.Some? && !CoordinatesAgree(sc, q, expected.value) then Mismatch
    else Run(w, sc, q, Initial(sc), expected)
  }
}
