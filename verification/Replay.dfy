/** Exact replay: a schedule is accepted if and only if a fresh run with its own coordinates
    produces that very schedule, and then it yields that run's report. */
module Replay {
  import opened Values
  import opened Steps
  import opened Actors

  datatype Replayed = Accepted(report: Report) | Rejected

  /** The coordinates a schedule carries, with the engine's own hashing functions. */
  function AtCoordinates(q: Request, s: Schedule): Request {
    q.(rootSeed := s.execution.rootSeed, scheduleSeed := s.seed, run := s.run)
  }

  /** `exact_replay_internal`. */
  function ExactReplay(w: World, sc: Scenario, q: Request, s: Schedule): Replayed {
    if |s.records| > MAX_SELECTIONS || s.hash != sc.hash || s.resources != sc.resourceHashes then Rejected
    else
      match ExecuteActors(w, sc, AtCoordinates(q, s), Some(s))
      case Finished(report) => if report.schedule == s then Accepted(report) else Rejected
      case Broken(_, report) => if report.schedule == s then Accepted(report) else Rejected
      case _ => Rejected
  }

  ghost predicate EndsWith(ending: Ending, report: Report) {
    ending == Finished(report) || exists e :: ending == Broken(e, report)
  }

  /** Comparing against a schedule only ever turns an ending into a rejection. */
  lemma RoundIgnoresExpectation(w: World, sc: Scenario, q: Request, cfg: Config, expected: Option<Schedule>)
    requires ConfigOK(sc, cfg)
    ensures PlayRound(w, sc, q, cfg, expected) == End(Mismatch)
            || PlayRound(w, sc, q, cfg, expected) == PlayRound(w, sc, q, cfg, None)
  {
    hide RouteOne, Decide, CommitMove, ReadySet, BuildReport, RoutingError, FaultError, BytesAgree, RecordAgrees;
    HoldsForNone(q);
    if ReadySet(w, sc, cfg) != {} { DecideIsReady(w, sc, q, cfg); }
  }

  lemma HoldsForNone(q: Request)
    ensures forall d :: RecordAgrees(None, d)
    ensures forall s :: BytesAgree(q, None, s)
  {
  }

  lemma {:induction false} RunIgnoresExpectation(w: World, sc: Scenario, q: Request, cfg: Config, expected: Option<Schedule>)
    requires ConfigOK(sc, cfg) && Run(w, sc, q, cfg, expected) != Mismatch
    ensures Run(w, sc, q, cfg, None) == Run(w, sc, q, cfg, expected)
    decreases MAX_SELECTIONS - |cfg.decisions|
  {
    hide PlayRound, ConfigOK;
    RoundIgnoresExpectation(w, sc, q, cfg, expected);
    match PlayRound(w, sc, q, cfg, expected)
    case End(_) =>
    case Continue(next) =>
      RoundFrame(w, sc, q, cfg, expected);
      RunIgnoresExpectation(w, sc, q, next, expected);
  }

  /** A report's decisions extend those already taken when any earlier round began. */
  ghost predicate Extends(report: Report, ds: seq<Decision>) {
    |ds| <= |report.decisions| && report.decisions[..|ds|] == ds
  }

  lemma {:induction false} ReportExtends(w: World, sc: Scenario, q: Request, cfg: Config, report: Report)
    requires ConfigOK(sc, cfg) && EndsWith(Run(w, sc, q, cfg, None), report)
    ensures Extends(report, cfg.decisions) && report.schedule.records == ToRecords(report.decisions)
    decreases MAX_SELECTIONS - |cfg.decisions|
  {
    hide PlayRound, ConfigOK, Views, Decide, ReadySet;
    match PlayRound(w, sc, q, cfg, None)
    case End(ending) => EndingReports(w, sc, q, cfg, None, ending);
    case Continue(next) =>
      RoundFrame(w, sc, q, cfg, None);
      NextDecisions(w, sc, q, cfg, None);
      ReportExtends(w, sc, q, next, report);
      assert report.decisions[..|cfg.decisions|] == next.decisions[..|cfg.decisions|];
  }

  lemma NextDecisions(w: World, sc: Scenario, q: Request, cfg: Config, expected: Option<Schedule>)
    requires ConfigOK(sc, cfg) && PlayRound(w, sc, q, cfg, expected).Continue?
    ensures ReadySet(w, sc, cfg) != {}
    ensures PlayRound(w, sc, q, cfg, expected).cfg.decisions == cfg.decisions + [Decide(w, sc, q, cfg)]
  {
    hide PlayRound, ConfigOK, Decide, ReadySet, RouteOne;
    RoundFrame(w, sc, q, cfg, expected);
    CommitMoveFrame(w, sc, q, cfg, Decide(w, sc, q, cfg));
  }

  /** A round agrees with a schedule whose record at this position is the decision taken. */
  lemma RoundMeetsExpectation(w: World, sc: Scenario, q: Request, cfg: Config, s: Schedule)
    requires ConfigOK(sc, cfg)
    requires ReadySet(w, sc, cfg) != {} ==> RecordAgrees(Some(s), Decide(w, sc, q, cfg))
    requires match PlayRound(w, sc, q, cfg, None)
             case End(Finished(report)) => report.schedule == s
             case End(Broken(_, report)) => report.schedule == s
             case End(_) => false
             case Continue(_) => true
    ensures PlayRound(w, sc, q, cfg, Some(s)) == PlayRound(w, sc, q, cfg, None)
  {
    hide RouteOne, Decide, CommitMove, ReadySet, BuildReport, RoutingError, FaultError, RecordAgrees;
    HoldsForNone(q);
    if ReadySet(w, sc, cfg) != {} { DecideIsReady(w, sc, q, cfg); }
  }

  lemma DecisionRecorded(w: World, sc: Scenario, q: Request, cfg: Config, report: Report)
    requires ConfigOK(sc, cfg) && ReadySet(w, sc, cfg) != {}
    requires report.schedule.records == ToRecords(report.decisions)
    requires var d := Decide(w, sc, q, cfg);
             Extends(report, cfg.decisions + [d]) || Extends(report, cfg.decisions + [d.(outcome := FAILED)])
    ensures RecordAgrees(Some(report.schedule), Decide(w, sc, q, cfg))
  {
    hide RouteOne, ReadySet;
    var d := Decide(w, sc, q, cfg);
    var n := |cfg.decisions|;
    if Extends(report, cfg.decisions + [d]) {
      assert report.decisions[n] == report.decisions[..n + 1][n] == d;
    } else {
      assert report.decisions[n] == report.decisions[..n + 1][n] == d.(outcome := FAILED);
    }
  }

  lemma {:induction false} RunMeetsExpectation(w: World, sc: Scenario, q: Request, cfg: Config, report: Report)
    requires ConfigOK(sc, cfg) && EndsWith(Run(w, sc, q, cfg, None), report)
    ensures Run(w, sc, q, cfg, Some(report.schedule)) == Run(w, sc, q, cfg, None)
    decreases MAX_SELECTIONS - |cfg.decisions|
  {
    hide PlayRound, ConfigOK, Decide, ReadySet, RecordAgrees, Extends, Views;
    ReportExtends(w, sc, q, cfg, report);
    match PlayRound(w, sc, q, cfg, None)
    case End(ending) =>
      EndingReports(w, sc, q, cfg, None, ending);
      if ending.Broken? {
        FailureExtends(w, sc, q, cfg, ending.error, report);
        DecisionRecorded(w, sc, q, cfg, report);
      }
      RoundMeetsExpectation(w, sc, q, cfg, report.schedule);
    case Continue(next) =>
      RoundFrame(w, sc, q, cfg, None);
      NextDecisions(w, sc, q, cfg, None);
      ReportExtends(w, sc, q, next, report);
      DecisionRecorded(w, sc, q, cfg, report);
      RoundMeetsExpectation(w, sc, q, cfg, report.schedule);
      RunMeetsExpectation(w, sc, q, next, report);
  }

  lemma FailureExtends(w: World, sc: Scenario, q: Request, cfg: Config, e: Error, report: Report)
    requires ConfigOK(sc, cfg) && ReadySet(w, sc, cfg) != {} && report == FailureReport(w, sc, q, cfg, e)
    ensures Extends(report, cfg.decisions + [Decide(w, sc, q, cfg).(outcome := FAILED)])
  {
    hide ConfigOK, Decide, ReadySet, Views;
  }

  /** Fresh runs carry their request's coordinates. */
  lemma {:induction false} ReportCoordinates(w: World, sc: Scenario, q: Request, cfg: Config, report: Report)
    requires ConfigOK(sc, cfg) && EndsWith(Run(w, sc, q, cfg, None), report) && |cfg.decisions| <= MAX_SELECTIONS
    ensures CoordinatesAgree(sc, q, report.schedule) && |report.schedule.records| <= MAX_SELECTIONS
    decreases MAX_SELECTIONS - |cfg.decisions|
  {
    hide PlayRound, ConfigOK, Views, Decide, ReadySet;
    match PlayRound(w, sc, q, cfg, None)
    case End(ending) => EndingReports(w, sc, q, cfg, None, ending);
    case Continue(next) =>
      RoundFrame(w, sc, q, cfg, None);
      ReportCoordinates(w, sc, q, next, report);
  }

  /** Replay is exact both ways, for successful and failed runs alike. */
  lemma ReplayExact(w: World, sc: Scenario, q: Request, s: Schedule, report: Report)
    ensures ExactReplay(w, sc, q, s) == Accepted(report)
            <==> report.schedule == s && EndsWith(ExecuteActors(w, sc, AtCoordinates(q, s), None), report)
    ensures var at := AtCoordinates(q, s);
            && at.rootSeed == s.execution.rootSeed && at.scheduleSeed == s.seed && at.run == s.run
            && at.digest == q.digest && at.semantic == q.semantic && at.bytes == q.bytes
  {
    hide Run;
    InitialOK(sc);
    var at, cfg := AtCoordinates(q, s), Initial(sc);
    if ExactReplay(w, sc, q, s) == Accepted(report) {
      RunIgnoresExpectation(w, sc, at, cfg, Some(s));
    }
    if report.schedule == s && EndsWith(ExecuteActors(w, sc, at, None), report) {
      ReportCoordinates(w, sc, at, cfg, report);
      RunMeetsExpectation(w, sc, at, cfg, report);
    }
  }

  /** The schedule of any run that ends with evidence is accepted by replay, and reproduces its report. */
  lemma OwnScheduleAccepted(w: World, sc: Scenario, q: Request, report: Report)
    requires EndsWith(ExecuteActors(w, sc, q, None), report)
    ensures ExactReplay(w, sc, q, report.schedule) == Accepted(report)
  {
    hide Run;
    InitialOK(sc);
    ReportCoordinates(w, sc, q, Initial(sc), report);
    assert AtCoordinates(q, report.schedule) == q;
    ReplayExact(w, sc, q, report.schedule, report);
  }

  /** Any alteration of an accepted schedule that keeps its coordinates is rejected: a record
      missing, added or changed, another outcome or failure. */
  lemma AlteredScheduleRejected(w: World, sc: Scenario, q: Request, s: Schedule, altered: Schedule)
    requires ExactReplay(w, sc, q, s).Accepted? && altered != s
    requires altered.run == s.run && altered.seed == s.seed && altered.execution.rootSeed == s.execution.rootSeed
    ensures ExactReplay(w, sc, q, altered) == Rejected
  {
    ReplayExact(w, sc, q, s, ExactReplay(w, sc, q, s).report);
    assert AtCoordinates(q, s) == AtCoordinates(q, altered);
    if ExactReplay(w, sc, q, altered).Accepted? {
      ReplayExact(w, sc, q, altered, ExactReplay(w, sc, q, altered).report);
    }
  }
}
