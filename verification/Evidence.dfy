/** What every reachable configuration of a run, and so every report, accounts for. */
module Evidence {
  import opened Order
  import opened Values
  import opened Expressions
  import opened Steps
  import opened Programs
  import opened Routing
  import opened Actors

  /** The initial state with the first i recorded patches folded over it. */
  ghost function StateAfter(initial: State, history: seq<HistoryRecord>, i: nat): State
    requires i <= |history|
  {
    if i == 0 then initial else StateAfter(initial, history, i - 1) + history[i - 1].patch
  }

  /** The start plus the declared advances of the first i steps. */
  ghost function ClockAfter(start: int, moves: seq<Move>, i: nat): int
    requires i <= |moves|
  {
    if i == 0 then start else ClockAfter(start, moves, i - 1) + moves[i - 1].site.spec.advance
  }

  ghost function EmittedBy(history: seq<HistoryRecord>): seq<(string, string)> {
    if history == [] then [] else EmittedBy(history[..|history| - 1]) + history[|history| - 1].emitted
  }

  /** One decision, given what the run had done before it. */
  ghost predicate DecisionSound(sc: Scenario, q: Request, cfg: Config, i: nat)
    requires i < |cfg.decisions| && i < |cfg.moves|
  {
    var d := cfg.decisions[i];
    && d.ordinal == i && d.historyLength == i && d.outcome == COMMITTED
    && d.actor == cfg.moves[i].actor && d.actor in d.ready
    && Ascending(d.ready) && (forall a :: a in d.ready ==> a in Addresses(sc.actors))
    && d.clock == ClockAfter(sc.start, cfg.moves, i)
    && d.digest == q.digest(Coordinates(sc.hash, sc.resourceHashes, q.run, q.scheduleSeed, i, i, d.clock, d.ready))
    && d.actor == d.ready[d.digest % |d.ready|]
  }

  /** One committed history entry, given the folded states around it. */
  ghost predicate EntrySound(w: World, sc: Scenario, q: Request, cfg: Config, i: nat)
    requires i < |cfg.runner.history| && i < |cfg.moves|
  {
    var h, m := cfg.runner.history[i], cfg.moves[i];
    && m.actor in Addresses(sc.actors)
    && h.address == StepAddress(Who(sc, q, m.actor), m.site.place, m.site.spec.id)
    && h.timestamp == ClockAfter(sc.start, cfg.moves, i + 1)
    && h.before == w.fingerprint(StateAfter(sc.initial, cfg.runner.history, i))
    && h.after == w.fingerprint(StateAfter(sc.initial, cfg.runner.history, i + 1))
    && Holds(w, StateAfter(sc.initial, cfg.runner.history, i + 1))
  }

  ghost predicate Accounted(w: World, sc: Scenario, q: Request, cfg: Config) {
    var n := |cfg.runner.history|;
    && |cfg.decisions| == n && |cfg.moves| == n && n <= MAX_SELECTIONS
    && (forall i {:trigger cfg.decisions[i]} :: 0 <= i < n ==> DecisionSound(sc, q, cfg, i))
    && (forall i {:trigger cfg.runner.history[i]} :: 0 <= i < n ==> EntrySound(w, sc, q, cfg, i))
    && cfg.runner.state == StateAfter(sc.initial, cfg.runner.history, n)
    && cfg.runner.clock == ClockAfter(sc.start, cfg.moves, n)
    && Emitted(cfg.runner.artifacts) == EmittedBy(cfg.runner.history)
  }

  lemma {:induction false} StatePrefix(initial: State, history: seq<HistoryRecord>, longer: seq<HistoryRecord>, i: nat)
    requires i <= |history| <= |longer| && longer[..|history|] == history
    ensures StateAfter(initial, history, i) == StateAfter(initial, longer, i)
  {
    if i > 0 {
      StatePrefix(initial, history, longer, i - 1);
      assert longer[..|history|][i - 1] == longer[i - 1];
    }
  }

  lemma {:induction false} ClockPrefix(start: int, moves: seq<Move>, more: Move, i: nat)
    requires i <= |moves|
    ensures ClockAfter(start, moves, i) == ClockAfter(start, moves + [more], i)
  {
    if i > 0 { ClockPrefix(start, moves, more, i - 1); }
  }

  lemma {:induction false} EmittedJoins(a: seq<Artifact>, b: seq<Artifact>)
    ensures Emitted(a + b) == Emitted(a) + Emitted(b)
    decreases |a|
  {
    if a == [] {
      assert a + b == b;
    } else {
      EmittedJoins(a[1..], b);
      assert (a + b)[1..] == a[1..] + b;
    }
  }

  lemma DecidedSound(w: World, sc: Scenario, q: Request, cfg: Config)
    requires ConfigOK(sc, cfg) && ReadySet(w, sc, cfg) != {}
    ensures var d := Decide(w, sc, q, cfg);
            && d.ordinal == |cfg.decisions| && d.historyLength == |cfg.runner.history| && d.clock == cfg.runner.clock
            && d.outcome == COMMITTED && d.actor in d.ready && Ascending(d.ready)
            && (forall a :: a in d.ready ==> a in Addresses(sc.actors))
            && d.digest == q.digest(Coordinate(sc, q, cfg, d.ready)) && d.actor == d.ready[d.digest % |d.ready|]
            && d.ready == Sorted(ReadySet(w, sc, cfg))
  {
    hide RouteOne;
    SortedAscending(ReadySet(w, sc, cfg));
  }

  /** A committed round keeps the account complete. */
  lemma RoundAccounted(w: World, sc: Scenario, q: Request, cfg: Config, expected: Option<Schedule>)
    requires ConfigOK(sc, cfg) && Accounted(w, sc, q, cfg) && PlayRound(w, sc, q, cfg, expected).Continue?
    ensures Accounted(w, sc, q, PlayRound(w, sc, q, cfg, expected).cfg)
  {
    hide PlayRound, RouteOne, Decide, CommitMove, ReadySet, ExecuteSite, ConfigOK;
    RoundFrame(w, sc, q, cfg, expected);
    var d := Decide(w, sc, q, cfg);
    DecidedSound(w, sc, q, cfg);
    CommitMoveFrame(w, sc, q, cfg, d);
    var next := PlayRound(w, sc, q, cfg, expected).cfg;
    var site := RouteOne(w, sc, cfg, d.actor).site;
    CommittedStep(w, Who(sc, q, d.actor), site, cfg.runner);
    ExtendAccount(w, sc, q, cfg, next, d, site);
  }

  lemma ExtendAccount(w: World, sc: Scenario, q: Request, cfg: Config, next: Config, d: Decision, site: Site)
    requires Accounted(w, sc, q, cfg) && |cfg.decisions| < MAX_SELECTIONS
    requires next.decisions == cfg.decisions + [d] && next.moves == cfg.moves + [Move(d.actor, site)]
    requires d.ordinal == |cfg.decisions| && d.historyLength == |cfg.runner.history| && d.clock == cfg.runner.clock
    requires d.outcome == COMMITTED && d.actor in d.ready && Ascending(d.ready)
    requires forall a :: a in d.ready ==> a in Addresses(sc.actors)
    requires d.digest == q.digest(Coordinate(sc, q, cfg, d.ready)) && d.actor == d.ready[d.digest % |d.ready|]
    requires d.actor in Addresses(sc.actors)
    requires var n, r := next.runner, cfg.runner;
             && |n.history| == |r.history| + 1 && n.history[..|r.history|] == r.history
             && (var h := n.history[|r.history|];
                 && h.address == StepAddress(Who(sc, q, d.actor), site.place, site.spec.id)
                 && h.timestamp == n.clock == r.clock + site.spec.advance
                 && h.before == w.fingerprint(r.state) && h.after == w.fingerprint(n.state)
                 && n.state == r.state + h.patch
                 && |n.artifacts| >= |r.artifacts| && n.artifacts[..|r.artifacts|] == r.artifacts
                 && h.emitted == Emitted(n.artifacts[|r.artifacts|..]))
             && Holds(w, n.state)
    ensures Accounted(w, sc, q, next)
  {
    hide Holds, Emitted, Who, DecisionSound, EntrySound, Coordinate;
    var n := |cfg.runner.history|;
    var r, r' := cfg.runner, next.runner;
    ClockPrefix(sc.start, cfg.moves, Move(d.actor, site), n);
    StatePrefix(sc.initial, r.history, r'.history, n);
    ExtendDecisions(w, sc, q, cfg, next, d);
    ExtendEntries(w, sc, q, cfg, next, site);
    assert r'.artifacts == r.artifacts + r'.artifacts[|r.artifacts|..];
    EmittedJoins(r.artifacts, r'.artifacts[|r.artifacts|..]);
    assert r'.history[..|r'.history| - 1] == r.history;
  }

  lemma ExtendDecisions(w: World, sc: Scenario, q: Request, cfg: Config, next: Config, d: Decision)
    requires Accounted(w, sc, q, cfg) && |next.moves| == |cfg.moves| + 1 && next.moves[..|cfg.moves|] == cfg.moves
    requires next.decisions == cfg.decisions + [d] && d.actor == next.moves[|cfg.moves|].actor
    requires d.ordinal == |cfg.decisions| && d.historyLength == |cfg.runner.history| && d.clock == cfg.runner.clock
    requires d.outcome == COMMITTED && d.actor in d.ready && Ascending(d.ready)
    requires forall a :: a in d.ready ==> a in Addresses(sc.actors)
    requires d.digest == q.digest(Coordinate(sc, q, cfg, d.ready)) && d.actor == d.ready[d.digest % |d.ready|]
    ensures forall i :: 0 <= i < |next.decisions| ==> DecisionSound(sc, q, next, i)
  {
    hide EntrySound, Emitted;
    var n := |cfg.decisions|;
    var more := next.moves[n];
    assert next.moves == cfg.moves + [more];
    ClockPrefix(sc.start, cfg.moves, more, n);
    forall i | 0 <= i < n + 1 ensures DecisionSound(sc, q, next, i) {
      if i < n {
        assert DecisionSound(sc, q, cfg, i) by { var _ := cfg.decisions[i]; }
        ClockPrefix(sc.start, cfg.moves, more, i);
      }
    }
  }

  lemma ExtendEntries(w: World, sc: Scenario, q: Request, cfg: Config, next: Config, site: Site)
    requires Accounted(w, sc, q, cfg)
    requires var n, r := next.runner, cfg.runner;
             && |n.history| == |r.history| + 1 && n.history[..|r.history|] == r.history
             && |next.moves| == |n.history| && next.moves[..|r.history|] == cfg.moves
             && next.moves[|r.history|].site == site && next.moves[|r.history|].actor in Addresses(sc.actors)
             && (var h := n.history[|r.history|];
                 && h.address == StepAddress(Who(sc, q, next.moves[|r.history|].actor), site.place, site.spec.id)
                 && h.timestamp == n.clock == r.clock + site.spec.advance
                 && h.before == w.fingerprint(r.state) && h.after == w.fingerprint(n.state)
                 && n.state == r.state + h.patch)
             && Holds(w, n.state)
    ensures forall i :: 0 <= i < |next.runner.history| ==> EntrySound(w, sc, q, next, i)
  {
    hide Holds, Emitted, Who, DecisionSound;
    var n := |cfg.runner.history|;
    var r, r' := cfg.runner, next.runner;
    assert next.moves == cfg.moves + [next.moves[n]];
    ClockPrefix(sc.start, cfg.moves, next.moves[n], n);
    StatePrefix(sc.initial, r.history, r'.history, n);
    assert EntrySound(w, sc, q, next, n);
    forall i | 0 <= i < n ensures EntrySound(w, sc, q, next, i) {
      assert EntrySound(w, sc, q, cfg, i) by { var _ := cfg.runner.history[i]; }
      EntryKept(w, sc, q, cfg, next, i);
    }
  }

  /** An entry stays sound when the history and the moves grow at the end. */
  lemma EntryKept(w: World, sc: Scenario, q: Request, cfg: Config, next: Config, i: nat)
    requires i < |cfg.runner.history| == |cfg.moves| && EntrySound(w, sc, q, cfg, i)
    requires |next.runner.history| == |next.moves| == |cfg.moves| + 1
    requires next.runner.history[..|cfg.moves|] == cfg.runner.history && next.moves[..|cfg.moves|] == cfg.moves
    ensures EntrySound(w, sc, q, next, i)
  {
    hide Holds, Who;
    var n := |cfg.moves|;
    assert next.moves == cfg.moves + [next.moves[n]];
    ClockPrefix(sc.start, cfg.moves, next.moves[n], i + 1);
    StatePrefix(sc.initial, cfg.runner.history, next.runner.history, i);
    StatePrefix(sc.initial, cfg.runner.history, next.runner.history, i + 1);
    assert next.runner.history[i] == next.runner.history[..n][i] && next.moves[i] == next.moves[..n][i];
  }

  /** Every configuration of every run is accounted for. */
  lemma {:induction false} RunAccounted(w: World, sc: Scenario, q: Request, expected: Option<Schedule>, n: nat)
    ensures Accounted(w, sc, q, After(w, sc, q, expected, n))
  {
    hide PlayRound, ConfigOK, DecisionSound, EntrySound;
    if n > 0 {
      RunAccounted(w, sc, q, expected, n - 1);
      var cfg := After(w, sc, q, expected, n - 1);
      if PlayRound(w, sc, q, cfg, expected).Continue? { RoundAccounted(w, sc, q, cfg, expected); }
    }
  }

  lemma LastAccounted(w: World, sc: Scenario, q: Request, expected: Option<Schedule>)
    ensures ConfigOK(sc, Initial(sc)) && Accounted(w, sc, q, Last(w, sc, q, Initial(sc), expected))
  {
    hide Accounted, Last;
    InitialOK(sc);
    LastIsAfter(w, sc, q, expected, 0);
    var k :| k >= 0 && Last(w, sc, q, After(w, sc, q, expected, 0), expected) == After(w, sc, q, expected, k);
    RunAccounted(w, sc, q, expected, k);
  }

  /** The structural checks of the schedule record and artifact constructors. */
  predicate ScheduleWellFormed(s: Schedule) {
    && s.seed <= MAX_SCHEDULE_SEED && 1 <= |s.actors| <= MAX_ACTORS && Ascending(s.actors)
    && |s.records| <= MAX_SELECTIONS
    && (forall i {:trigger s.records[i]} :: 0 <= i < |s.records| ==>
          var r := s.records[i];
          && r.ordinal == i && 1 <= |r.ready| <= MAX_ACTORS && Ascending(r.ready)
          && (forall a :: a in r.ready ==> a in s.actors) && r.actor in r.ready
          && (r.outcome == FAILED ==> i == |s.records| - 1))
    && match s.classification
       case SUCCESS => s.failure.None? && forall i :: 0 <= i < |s.records| ==> s.records[i].outcome == COMMITTED
       case FAILURE =>
         && s.records != [] && s.failure.Some?
         && var last := s.records[|s.records| - 1];
            last.outcome == FAILED && s.failure.value.actor == last.actor && s.failure.value.ordinal == last.ordinal
  }

  function CommittedRecords(records: seq<ScheduleRecord>): seq<ScheduleRecord> {
    if records == [] then []
    else
      var rest := CommittedRecords(records[..|records| - 1]);
      if records[|records| - 1].outcome == COMMITTED then rest + [records[|records| - 1]] else rest
  }

  /** The trace viewer's commit-coordinate check. */
  ghost predicate TraceLinked(s: Schedule, history: seq<HistoryRecord>) {
    var committed := CommittedRecords(s.records);
    |committed| == |history| && forall i :: 0 <= i < |committed| ==> committed[i].historyLength == i
  }

  /** What a report exposes, in terms of the last committed configuration. */
  ghost predicate ReportSound(w: World, sc: Scenario, q: Request, last: Config, report: Report) {
    && Accounted(w, sc, q, last)
    && report.state == last.runner.state && report.clock == last.runner.clock
    && report.history == last.runner.history && report.artifacts == last.runner.artifacts
    && ScheduleWellFormed(report.schedule) && TraceLinked(report.schedule, report.history)
    && report.schedule.records == ToRecords(report.decisions)
  }

  lemma {:induction false} AllCommitted(records: seq<ScheduleRecord>)
    requires forall i :: 0 <= i < |records| ==> records[i].outcome == COMMITTED
    ensures CommittedRecords(records) == records
    decreases |records|
  {
    if records != [] { AllCommitted(records[..|records| - 1]); }
  }

  lemma {:induction false} FitsActors(q: seq<string>, sc: Scenario)
    requires ValidScenario(sc) && Ascending(q) && forall a :: a in q ==> a in Addresses(sc.actors)
    ensures |q| <= |sc.actors|
  {
    AscendingUnique(q);
    var all := Addresses(sc.actors);
    CardinalityAtMost(all);
    SubsetAtMost(Elements(q), Elements(all));
  }

  lemma {:induction false} CardinalityAtMost(q: seq<string>)
    ensures |Elements(q)| <= |q|
    decreases |q|
  {
    if q != [] {
      CardinalityAtMost(q[1..]);
      assert Elements(q) == {q[0]} + Elements(q[1..]);
    }
  }

  lemma CommittedWellFormed(w: World, sc: Scenario, q: Request, cfg: Config, s: Schedule)
    requires ValidScenario(sc) && Accounted(w, sc, q, cfg) && q.scheduleSeed <= MAX_SCHEDULE_SEED
    requires s == BuildSchedule(sc, q, cfg.decisions, SUCCESS, None)
    ensures ScheduleWellFormed(s) && TraceLinked(s, cfg.runner.history)
  {
    ActorsCanonical(sc);
    forall i | 0 <= i < |s.records|
      ensures var r := s.records[i];
              r.ordinal == i && 1 <= |r.ready| <= MAX_ACTORS && Ascending(r.ready) && r.outcome == COMMITTED
              && (forall a :: a in r.ready ==> a in s.actors) && r.actor in r.ready && r.historyLength == i
    {
      assert DecisionSound(sc, q, cfg, i) by { var _ := cfg.decisions[i]; }
      FitsActors(cfg.decisions[i].ready, sc);
      assert s.records[i] == ToRecord(cfg.decisions[i]);
    }
    AllCommitted(s.records);
  }

  lemma ActorsCanonical(sc: Scenario)
    requires ValidScenario(sc)
    ensures var s := Sorted(Elements(Addresses(sc.actors)));
            1 <= |s| <= MAX_ACTORS && Ascending(s) && forall a :: a in s <==> a in Addresses(sc.actors)
  {
    var all := Addresses(sc.actors);
    SortedAscending(Elements(all));
    CardinalityAtMost(all);
    assert all[0] in Elements(all);
  }

  lemma FailedWellFormed(w: World, sc: Scenario, q: Request, cfg: Config, d: Decision, e: Error, s: Schedule)
    requires ValidScenario(sc) && Accounted(w, sc, q, cfg) && q.scheduleSeed <= MAX_SCHEDULE_SEED && |cfg.decisions| < MAX_SELECTIONS
    requires d.ordinal == |cfg.decisions| && d.actor in d.ready && Ascending(d.ready)
    requires forall a :: a in d.ready ==> a in Addresses(sc.actors)
    requires s == BuildSchedule(sc, q, cfg.decisions + [d.(outcome := FAILED)], FAILURE, Some(FailureRecord(d.actor, CodeOf(e), d.ordinal)))
    ensures ScheduleWellFormed(s) && TraceLinked(s, cfg.runner.history)
    ensures |s.records| == |cfg.runner.history| + 1
  {
    hide Accounted, Addresses, CommittedRecords, Ascending, ScheduleWellFormed;
    AccountedLengths(w, sc, q, cfg);
    var before := BuildSchedule(sc, q, cfg.decisions, SUCCESS, None);
    CommittedWellFormed(w, sc, q, cfg, before);
    ActorsCanonical(sc);
    FitsActors(d.ready, sc);
    var last := ToRecord(d.(outcome := FAILED));
    assert s.records == before.records + [last];
    FailureExtends(before, s, last);
    FailureNotCommitted(before.records, last);
  }

  /** A well-formed successful schedule stays well-formed when one failed record ends it. */
  lemma FailureExtends(before: Schedule, s: Schedule, last: ScheduleRecord)
    requires ScheduleWellFormed(before) && before.classification == SUCCESS && |before.records| < MAX_SELECTIONS
    requires s.records == before.records + [last] && s.seed == before.seed && s.actors == before.actors && s.classification == FAILURE
    requires last.ordinal == |before.records| && last.outcome == FAILED
    requires 1 <= |last.ready| <= MAX_ACTORS && Ascending(last.ready) && last.actor in last.ready
    requires forall a :: a in last.ready ==> a in s.actors
    requires s.failure.Some? && s.failure.value.actor == last.actor && s.failure.value.ordinal == last.ordinal
    ensures ScheduleWellFormed(s)
  {
    hide Ascending;
    forall i | 0 <= i < |before.records| ensures s.records[i] == before.records[i] {}
  }

  lemma FailureNotCommitted(records: seq<ScheduleRecord>, last: ScheduleRecord)
    requires last.outcome == FAILED
    ensures CommittedRecords(records + [last]) == CommittedRecords(records)
  {
    assert (records + [last])[..|records|] == records;
  }

  /** Every run: a success exposes exactly its committed account; a failure exposes the account of its
      last commit, and one schedule record more than it has history entries. */
  lemma EveryReportSound(w: World, sc: Scenario, q: Request, expected: Option<Schedule>)
    requires ValidScenario(sc)
    ensures match ExecuteActors(w, sc, q, expected)
            case Finished(report) =>
              (InitialOK(sc); var last := Last(w, sc, q, Initial(sc), expected);
               ReportSound(w, sc, q, last, report) && report.decisions == last.decisions
               && report.schedule.classification == SUCCESS)
            case Broken(e, report) =>
              (InitialOK(sc); var last := Last(w, sc, q, Initial(sc), expected);
               ReportSound(w, sc, q, last, report) && |report.decisions| == |report.history| + 1
               && report.decisions[..|last.decisions|] == last.decisions
               && report.schedule.classification == FAILURE)
            case _ => true
  {
    InitialOK(sc);
    var cfg := Initial(sc);
    LastAccounted(w, sc, q, expected);
    RunEndsAtLast(w, sc, q, cfg, expected);
    LastRoundSound(w, sc, q, Last(w, sc, q, cfg, expected), expected);
  }

  lemma LastRoundSound(w: World, sc: Scenario, q: Request, last: Config, expected: Option<Schedule>)
    requires ValidScenario(sc) && ConfigOK(sc, last) && Accounted(w, sc, q, last)
    ensures match PlayRound(w, sc, q, last, expected)
            case End(Finished(report)) =>
              ReportSound(w, sc, q, last, report) && report.decisions == last.decisions
              && report.schedule.classification == SUCCESS
            case End(Broken(e, report)) =>
              ReportSound(w, sc, q, last, report) && |report.decisions| == |report.history| + 1
              && report.decisions[..|last.decisions|] == last.decisions
              && report.schedule.classification == FAILURE
            case _ => true
  {
    hide PlayRound, Accounted, ConfigOK, Views, ScheduleWellFormed, TraceLinked, Decide, ReadySet;
    match PlayRound(w, sc, q, last, expected)
    case End(ending) =>
      EndingReports(w, sc, q, last, expected, ending);
      AccountedLengths(w, sc, q, last);
      if ending.Finished? {
        CommittedWellFormed(w, sc, q, last, ending.report.schedule);
      } else if ending.Broken? {
        DecidedSound(w, sc, q, last);
        FailedWellFormed(w, sc, q, last, Decide(w, sc, q, last), ending.error, ending.report.schedule);
      }
    case Continue(_) =>
  }

  lemma AccountedLengths(w: World, sc: Scenario, q: Request, cfg: Config)
    requires Accounted(w, sc, q, cfg)
    ensures |cfg.decisions| == |cfg.runner.history|
  {
  }

  // ---------------------------------------------------------------- the initial state is never checked

  ghost predicate HoldsAt(w: World, initial: State, history: seq<HistoryRecord>, i: nat)
    requires i <= |history|
  {
    Holds(w, StateAfter(initial, history, i))
  }

  /** Every state of a run satisfies the invariants exactly when the initial one does. */
  lemma HoldsThroughoutExactly(w: World, sc: Scenario, q: Request, expected: Option<Schedule>, n: nat)
    ensures var history := After(w, sc, q, expected, n).runner.history;
            (forall i :: 0 <= i <= |history| ==> HoldsAt(w, sc.initial, history, i)) <==> Holds(w, sc.initial)
  {
    hide After, Holds, DecisionSound;
    RunAccounted(w, sc, q, expected, n);
    var cfg := After(w, sc, q, expected, n);
    var history := cfg.runner.history;
    if Holds(w, sc.initial) {
      forall i | 0 <= i <= |history| ensures HoldsAt(w, sc.initial, history, i) {
        if i > 0 { assert EntrySound(w, sc, q, cfg, i - 1) by { var _ := history[i - 1]; } }
      }
    } else {
      assert !HoldsAt(w, sc.initial, history, 0);
    }
  }

  /** A program whose only branch is not taken, so the step behind it is never reached. */
  function Idle(doc: StepDoc): Program {
    Program([Branch("b", [Case(Literal(Bool(false)), Invocation("f", map[]))], None)], map["f" := [Step(doc)]])
  }

  lemma IdleAdvance(w: World, doc: StepDoc, state: State, start: Frame, moved: Frame)
    requires start == Sequence(None, 0, None, ROOT_PLACE) && moved == Sequence(None, 1, None, ROOT_PLACE)
    requires FramesOK(Idle(doc), [start]) && FramesOK(Idle(doc), [moved])
    ensures Advance(w, Idle(doc), state, [start], 0) == Again([moved], 2)
  {
    assert Condition(w, Literal(Bool(false)), state, None) == Ok(false);
    assert ChooseTicking(w, Idle(doc).steps[0], 0, state, None, 1) == Ok((None, 2));
    assert [start][..0] + [moved] == [moved];
  }

  lemma IdleRouting(w: World, doc: StepDoc, state: State)
    ensures FramesOK(Idle(doc), Start(Idle(doc))) && Route(w, Idle(doc), state, Start(Idle(doc)), 0) == Drained(2)
  {
    var p, start, moved := Idle(doc), Sequence(None, 0, None, ROOT_PLACE), Sequence(None, 1, None, ROOT_PLACE);
    assert FrameOK(p, start) && FrameOK(p, moved);
    IdleAdvance(w, doc, state, start, moved);
    hide AdvanceRepeat, ActOn;
    assert Advance(w, p, state, [moved], 2) == Again([], 2);
    assert Route(w, p, state, [moved], 2) == Drained(2);
    assert Start(p) == [start];
  }

  lemma IdleRun(w: World, sc: Scenario, q: Request, a: Actor, doc: StepDoc)
    requires sc.actors == [a] && a.program == Idle(doc) && q.scheduleSeed <= MAX_SCHEDULE_SEED
    ensures var ending := ExecuteActors(w, sc, q, None);
            && ending.Finished? && ending.report.classification == SUCCESS
            && ending.report.history == [] && ending.report.state == sc.initial
  {
    hide Route, Views;
    InitialOK(sc);
    var cfg := Initial(sc);
    assert Addresses(sc.actors) == [a.address];
    assert a.address in Elements(Addresses(sc.actors));
    IdleRouting(w, doc, sc.initial);
    assert RouteOne(w, sc, cfg, a.address) == Drained(2);
    assert ReadySet(w, sc, cfg) == {};
    assert RoutingError(w, sc, cfg, Addresses(sc.actors)) == None;
  }

  /** A run that commits nothing succeeds although its state violates a declared invariant. */
  lemma UncheckedInitialState(w: World, sc: Scenario, q: Request, a: Actor, doc: StepDoc)
    requires sc.actors == [a] && a.program == Idle(doc) && q.scheduleSeed <= MAX_SCHEDULE_SEED
    requires w.invariants == [Compare(LessOrEqual, StateRef("x"), Literal(Int(0)))] && sc.initial == map["x" := Int(1)]
    ensures var ending := ExecuteActors(w, sc, q, None);
            && ending.Finished? && ending.report.classification == SUCCESS
            && ending.report.history == [] && !Holds(w, ending.report.state)
  {
    hide ExecuteActors, Holds;
    IdleRun(w, sc, q, a, doc);
    ViolatedInitially(w, sc.initial);
  }

  lemma ViolatedInitially(w: World, state: State)
    requires w.invariants == [Compare(LessOrEqual, StateRef("x"), Literal(Int(0)))] && state == map["x" := Int(1)]
    ensures !Holds(w, state)
  {
    assert Eval(w.prims, w.invariants[0], Env(state, map[], map[], None)) == Ok(Bool(false));
  }
}
