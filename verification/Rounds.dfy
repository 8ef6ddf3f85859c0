/** What one scheduling round means, stated without the functions that play it: who is ready, who is
    selected and what is recorded, how the selected actor's step changes the shared runner, and with
    which report or error a round ends the run. */
module Rounds {
  import opened Order
  import opened Values
  import opened Steps
  import opened StepOutcome
  import opened Routing
  import opened Actors

  // ---------------------------------------------------------------- decisions

  /** The ready actors are exactly those whose routing finds a step; the digest of the run's
      coordinates picks one of them. */
  ghost predicate DecisionOf(w: World, sc: Scenario, q: Request, cfg: Config, d: Decision)
    requires ConfigOK(sc, cfg)
  {
    && Ascending(d.ready) && d.ready != []
    && (forall a :: a in d.ready <==> a in Addresses(sc.actors) && RouteOne(w, sc, cfg, a).Found?)
    && d.digest == q.digest(Coordinates(sc.hash, sc.resourceHashes, q.run, q.scheduleSeed, |cfg.decisions|,
                                        |cfg.runner.history|, cfg.runner.clock, d.ready))
    && d.actor == d.ready[d.digest % |d.ready|]
    && d.actor in Addresses(sc.actors) && RouteOne(w, sc, cfg, d.actor).Found?
    && d.step == q.semantic(ActorAt(sc, d.actor).id, RouteOne(w, sc, cfg, d.actor).site.spec.id)
    && d.ordinal == |cfg.decisions| && d.historyLength == |cfg.runner.history| && d.clock == cfg.runner.clock
    && d.outcome == COMMITTED
  }

  lemma DecisionExactly(w: World, sc: Scenario, q: Request, cfg: Config, d: Decision)
    requires ConfigOK(sc, cfg) && ReadySet(w, sc, cfg) != {}
    ensures d == Decide(w, sc, q, cfg) <==> DecisionOf(w, sc, q, cfg, d)
  {
    hide RouteOne, ConfigOK;
    var ready := ReadySet(w, sc, cfg);
    SortedAscending(ready);
    if DecisionOf(w, sc, q, cfg, d) {
      AscendingUnique(d.ready);
      assert Elements(d.ready) == ready;
    }
    DecideIsReady(w, sc, q, cfg);
  }

  // ---------------------------------------------------------------- reports

  /** An actor is terminal, with nothing next, exactly when its routing finds no step. */
  predicate ViewIs(w: World, sc: Scenario, q: Request, cfg: Config, v: ActorView)
    requires ConfigOK(sc, cfg)
  {
    && v.address in Addresses(sc.actors)
    && match RouteOne(w, sc, cfg, v.address)
       case Found(_, site, _) => !v.terminal && v.next == Some(q.semantic(ActorAt(sc, v.address).id, site.spec.id))
       case _ => v.terminal && v.next == None
  }

  /** One view for each actor, in address order. */
  ghost predicate ViewsOf(w: World, sc: Scenario, q: Request, cfg: Config, vs: seq<ActorView>)
    requires ConfigOK(sc, cfg)
  {
    && (forall i, j :: 0 <= i < j < |vs| ==> Less(vs[i].address, vs[j].address))
    && (forall a :: a in Addresses(sc.actors) ==> exists i :: 0 <= i < |vs| && vs[i].address == a)
    && (forall i :: 0 <= i < |vs| ==> ViewIs(w, sc, q, cfg, vs[i]))
  }

  predicate RecordIs(d: Decision, r: ScheduleRecord) {
    && r.ordinal == d.ordinal && r.ready == d.ready && r.actor == d.actor && r.historyLength == d.historyLength
    && r.clock == d.clock && r.digest == d.digest && r.outcome == d.outcome
  }

  ghost predicate ScheduleOf(sc: Scenario, q: Request, ds: seq<Decision>, cls: Classification, failure: Option<FailureRecord>, s: Schedule) {
    && s.hash == sc.hash && s.resources == sc.resourceHashes && s.run == q.run && s.seed == q.scheduleSeed
    && Ascending(s.actors) && (forall a :: a in s.actors <==> a in Addresses(sc.actors))
    && s.execution == Execution(q.rootSeed, sc.start, sc.generators)
    && |s.records| == |ds| && (forall i :: 0 <= i < |ds| ==> RecordIs(ds[i], s.records[i]))
    && s.classification == cls && s.failure == failure
  }

  /** The report shows the runner, the actors and the schedule. */
  ghost predicate ReportOf(w: World, sc: Scenario, q: Request, cfg: Config, ds: seq<Decision>, cls: Classification,
                           failure: Option<FailureRecord>, report: Report)
    requires ConfigOK(sc, cfg)
  {
    && report.state == cfg.runner.state && report.clock == cfg.runner.clock && report.history == cfg.runner.history
    && report.artifacts == cfg.runner.artifacts && report.decisions == ds && report.classification == cls
    && ViewsOf(w, sc, q, cfg, report.actors)
    && ScheduleOf(sc, q, ds, cls, failure, report.schedule)
  }

  lemma {:induction false} ViewsExactly(w: World, sc: Scenario, q: Request, cfg: Config, names: seq<string>, vs: seq<ActorView>)
    requires ConfigOK(sc, cfg) && forall a :: a in names ==> a in Addresses(sc.actors)
    ensures vs == Views(w, sc, q, cfg, names)
            <==> |vs| == |names| && forall i :: 0 <= i < |names| ==> vs[i].address == names[i] && ViewIs(w, sc, q, cfg, vs[i])
    decreases |names|
  {
    hide RouteOne, ConfigOK, Addresses;
    if names != [] {
      if vs != [] {
        ViewsExactly(w, sc, q, cfg, names[1..], vs[1..]);
        assert vs == [vs[0]] + vs[1..];
        assert forall i :: 0 < i < |names| ==> names[i] == names[1..][i - 1];
        assert forall i :: 0 < i < |vs| ==> vs[i] == vs[1..][i - 1];
      }
    }
  }

  /** The sorted addresses are the one ascending list of them. */
  lemma ListedExactly(actors: seq<Actor>, names: seq<string>)
    ensures names == Sorted(Elements(Addresses(actors))) <==> Ascending(names) && forall a :: a in names <==> a in Addresses(actors)
  {
    hide Addresses, Less;
    var all := Elements(Addresses(actors));
    SortedAscending(all);
    if Ascending(names) && forall a :: a in names <==> a in Addresses(actors) {
      AscendingUnique(names);
      assert Elements(names) == all;
    }
  }

  lemma ScheduleExactly(sc: Scenario, q: Request, ds: seq<Decision>, cls: Classification, failure: Option<FailureRecord>, s: Schedule)
    ensures s == BuildSchedule(sc, q, ds, cls, failure) <==> ScheduleOf(sc, q, ds, cls, failure, s)
  {
    hide Addresses, RecordIs, ToRecords, Sorted, Ascending, Less;
    ListedExactly(sc.actors, s.actors);
    RecordsExactly(ds, s.records);
  }

  lemma RecordsExactly(ds: seq<Decision>, rs: seq<ScheduleRecord>)
    ensures rs == ToRecords(ds) <==> |rs| == |ds| && forall i :: 0 <= i < |ds| ==> RecordIs(ds[i], rs[i])
  {
  }

  /** Views listed in the sorted order of the actors cover them, in address order. */
  lemma ListedCover(sc: Scenario, cfg: Config, vs: seq<ActorView>)
    requires ConfigOK(sc, cfg) && AddressesOf(vs) == Sorted(cfg.controls.Keys)
    ensures forall a :: a in Addresses(sc.actors) ==> exists i :: 0 <= i < |vs| && vs[i].address == a
    ensures forall i, j :: 0 <= i < j < |vs| ==> Less(vs[i].address, vs[j].address)
  {
    hide Addresses, Less, FramesOK;
    var names := AddressesOf(vs);
    SortedAscending(cfg.controls.Keys);
    forall a | a in Addresses(sc.actors) ensures exists i :: 0 <= i < |vs| && vs[i].address == a {
      assert a in Elements(Addresses(sc.actors));
      var i :| 0 <= i < |names| && names[i] == a;
      assert vs[i].address == a;
    }
    forall i, j | 0 <= i < j < |vs| ensures Less(vs[i].address, vs[j].address) { assert Less(names[i], names[j]); }
  }

  lemma ActorViewsExactly(w: World, sc: Scenario, q: Request, cfg: Config, vs: seq<ActorView>)
    requires ConfigOK(sc, cfg)
    ensures (forall a :: a in Sorted(cfg.controls.Keys) ==> a in Addresses(sc.actors))
    ensures vs == Views(w, sc, q, cfg, Sorted(cfg.controls.Keys)) <==> ViewsOf(w, sc, q, cfg, vs)
  {
    hide RouteOne, Addresses, Views, ViewIs, FramesOK, Less, Sorted;
    var names := Sorted(cfg.controls.Keys);
    ViewsExactly(w, sc, q, cfg, names, vs);
    if ViewsOf(w, sc, q, cfg, vs) {
      NamesOf(w, sc, q, cfg, vs);
    } else if vs == Views(w, sc, q, cfg, names) {
      assert AddressesOf(vs) == names;
      ListedCover(sc, cfg, vs);
    }
  }

  lemma ReportExactly(w: World, sc: Scenario, q: Request, cfg: Config, ds: seq<Decision>, cls: Classification,
                      failure: Option<FailureRecord>, report: Report)
    requires ConfigOK(sc, cfg)
    ensures report == BuildReport(w, sc, q, cfg, ds, cls, failure) <==> ReportOf(w, sc, q, cfg, ds, cls, failure, report)
  {
    hide BuildSchedule, ScheduleOf, Views, ViewsOf, ConfigOK;
    ScheduleExactly(sc, q, ds, cls, failure, report.schedule);
    ActorViewsExactly(w, sc, q, cfg, report.actors);
  }

  function AddressesOf(vs: seq<ActorView>): (names: seq<string>)
    ensures |names| == |vs| && forall i :: 0 <= i < |vs| ==> names[i] == vs[i].address
  {
    seq(|vs|, i requires 0 <= i < |vs| => vs[i].address)
  }

  /** The addresses of views in address order that cover the actors are the sorted addresses. */
  lemma NamesOf(w: World, sc: Scenario, q: Request, cfg: Config, vs: seq<ActorView>)
    requires ConfigOK(sc, cfg) && ViewsOf(w, sc, q, cfg, vs)
    ensures AddressesOf(vs) == Sorted(cfg.controls.Keys)
  {
    hide RouteOne, Addresses, Less, ViewIs, FramesOK;
    var names := AddressesOf(vs);
    ViewedCover(w, sc, q, cfg, vs);
    AscendingUnique(names);
  }

  lemma ViewedCover(w: World, sc: Scenario, q: Request, cfg: Config, vs: seq<ActorView>)
    requires ConfigOK(sc, cfg) && ViewsOf(w, sc, q, cfg, vs)
    ensures Elements(AddressesOf(vs)) == cfg.controls.Keys
  {
    hide RouteOne, Addresses, Less, FramesOK;
    var names := AddressesOf(vs);
    forall a | a in cfg.controls.Keys ensures a in names {
      var i :| 0 <= i < |vs| && vs[i].address == a;
      assert names[i] == a;
    }
    forall a | a in names ensures a in cfg.controls.Keys {
      var i :| 0 <= i < |names| && names[i] == a;
      assert ViewIs(w, sc, q, cfg, vs[i]);
      assert a in Elements(Addresses(sc.actors));
    }
  }

  // ---------------------------------------------------------------- rounds

  function RouteOf(w: World, sc: Scenario, cfg: Config, i: nat): Routed
    requires ConfigOK(sc, cfg) && i < |sc.actors|
  {
    assert Addresses(sc.actors)[i] == sc.actors[i].address;
    RouteOne(w, sc, cfg, sc.actors[i].address)
  }

  /** Actor i is the first one, from this one on, whose routing fails. */
  ghost predicate FirstUnroutable(w: World, sc: Scenario, cfg: Config, from: nat, i: nat, x: Error)
    requires ConfigOK(sc, cfg)
  {
    from <= i < |sc.actors| && RouteOf(w, sc, cfg, i) == Unroutable(x)
    && forall j: nat :: from <= j < i ==> !RouteOf(w, sc, cfg, j).Unroutable?
  }

  /** The first actor, in declaration order, whose routing fails, fails with x. */
  ghost predicate RoutingFails(w: World, sc: Scenario, cfg: Config, x: Error)
    requires ConfigOK(sc, cfg)
  {
    exists i: nat :: FirstUnroutable(w, sc, cfg, 0, i, x)
  }

  ghost predicate NobodyReady(w: World, sc: Scenario, cfg: Config)
    requires ConfigOK(sc, cfg)
  {
    forall i: nat :: i < |sc.actors| ==> !RouteOf(w, sc, cfg, i).Found?
  }

  predicate Expected(q: Request, expected: Option<Schedule>, s: Schedule) {
    expected.None? || q.bytes(s) == q.bytes(expected.value)
  }

  /** An expected record of the same decision, whatever its outcome. */
  predicate Foreseen(expected: Option<Schedule>, d: Decision) {
    expected.None? || (d.ordinal < |expected.value.records| && RecordIs(d.(outcome := expected.value.records[d.ordinal].outcome), expected.value.records[d.ordinal]))
  }

  /** Where the selected actor's step stands. */
  function AddressOf(sc: Scenario, q: Request, actor: string, site: Site): Address
    requires actor in Addresses(sc.actors)
  {
    Address(sc.id, q.run, site.place.invocations, site.place.repetitions, site.spec.id, [], Some(ActorAt(sc, actor).id))
  }

  /** The round commits: the step of the selected actor is explained on the shared runner, its
      control moves past the step, and nobody else's control changes. */
  ghost predicate Commits(w: World, sc: Scenario, q: Request, cfg: Config, d: Decision, next: Config)
    requires ConfigOK(sc, cfg) && d.actor in Addresses(sc.actors) && RouteOne(w, sc, cfg, d.actor).Found?
  {
    var found := RouteOne(w, sc, cfg, d.actor);
    var faulted := ApplyFaults(w, w.faults, found.site.spec, cfg.runner.state, found.site.scope, found.site.place);
    && faulted.Ok?
    && (exists locals, derived :: Explains(w, faulted.value.0, faulted.value.1, AddressOf(sc, q, d.actor, found.site), cfg.runner, locals, derived, next.runner))
    && next.decisions == cfg.decisions + [d] && next.moves == cfg.moves + [Move(d.actor, found.site)]
    && next.controls.Keys == cfg.controls.Keys
    && forall a :: a in cfg.controls ==> next.controls[a] == if a == d.actor then found.frames else cfg.controls[a]
  }

  ghost predicate StepBreaks(w: World, sc: Scenario, q: Request, cfg: Config, d: Decision, x: Error)
    requires ConfigOK(sc, cfg) && d.actor in Addresses(sc.actors) && RouteOne(w, sc, cfg, d.actor).Found?
  {
    var site := RouteOne(w, sc, cfg, d.actor).site;
    var faulted := ApplyFaults(w, w.faults, site.spec, cfg.runner.state, site.scope, site.place);
    faulted.Ok? && StepFails(w, faulted.value.0, AddressOf(sc, q, d.actor, site), cfg.runner, x)
  }

  ghost predicate Closes(w: World, sc: Scenario, q: Request, cfg: Config, expected: Option<Schedule>, ending: Ending)
    requires ConfigOK(sc, cfg)
  {
    if q.scheduleSeed > MAX_SCHEDULE_SEED then ending == Aborted(SchedulerInvalid)
    else exists report :: ReportOf(w, sc, q, cfg, cfg.decisions, SUCCESS, None, report)
           && ending == if Expected(q, expected, report.schedule) then Finished(report) else Mismatch
  }

  ghost predicate Fails(w: World, sc: Scenario, q: Request, cfg: Config, d: Decision, x: Error, expected: Option<Schedule>, ending: Ending)
    requires ConfigOK(sc, cfg)
  {
    exists report :: ReportOf(w, sc, q, cfg, cfg.decisions + [d.(outcome := FAILED)], FAILURE,
                              Some(FailureRecord(d.actor, CodeOf(x), d.ordinal)), report)
      && ending == if Expected(q, expected, report.schedule) then Broken(x, report) else Mismatch
  }

  /** The selected actor's step: a fault error leaves no evidence, a step error leaves a failed record. */
  ghost predicate StepMeans(w: World, sc: Scenario, q: Request, cfg: Config, d: Decision, expected: Option<Schedule>, round: Round)
    requires ConfigOK(sc, cfg) && d.actor in Addresses(sc.actors) && RouteOne(w, sc, cfg, d.actor).Found?
  {
    var site := RouteOne(w, sc, cfg, d.actor).site;
    match ApplyFaults(w, w.faults, site.spec, cfg.runner.state, site.scope, site.place)
    case Err(x) => round == End(Aborted(x))
    case Ok(_) =>
      match round
      case Continue(next) => Commits(w, sc, q, cfg, d, next)
      case End(ending) => exists x :: StepBreaks(w, sc, q, cfg, d, x) && Fails(w, sc, q, cfg, d, x, expected, ending)
  }

  ghost predicate RoundMeans(w: World, sc: Scenario, q: Request, cfg: Config, expected: Option<Schedule>, round: Round)
    requires ConfigOK(sc, cfg)
  {
    if exists x :: RoutingFails(w, sc, cfg, x) then exists x :: RoutingFails(w, sc, cfg, x) && round == End(Aborted(x))
    else if NobodyReady(w, sc, cfg) then round.End? && Closes(w, sc, q, cfg, expected, round.ending)
    else if |cfg.decisions| >= MAX_SELECTIONS then round == End(Aborted(SelectionLimit))
    else if q.scheduleSeed > MAX_SCHEDULE_SEED then round == End(Aborted(SchedulerInvalid))
    else exists d :: DecisionOf(w, sc, q, cfg, d)
           && if Foreseen(expected, d) then StepMeans(w, sc, q, cfg, d, expected, round) else round == End(Mismatch)
  }

  // ---------------------------------------------------------------- each part exactly

  lemma {:induction false} RoutingErrorAt(w: World, sc: Scenario, cfg: Config, from: nat)
    requires ConfigOK(sc, cfg) && from <= |sc.actors|
    ensures match RoutingError(w, sc, cfg, Addresses(sc.actors)[from..])
            case None => forall i: nat :: from <= i < |sc.actors| ==> !RouteOf(w, sc, cfg, i).Unroutable?
            case Some(x) => exists i: nat :: FirstUnroutable(w, sc, cfg, from, i, x)
    decreases |sc.actors| - from
  {
    hide RouteOne, ConfigOK;
    if from < |sc.actors| {
      var rest := Addresses(sc.actors)[from..];
      assert rest[0] == sc.actors[from].address && rest[1..] == Addresses(sc.actors)[from + 1..];
      RoutingErrorAt(w, sc, cfg, from + 1);
      var here, later := RouteOf(w, sc, cfg, from), RoutingError(w, sc, cfg, rest[1..]);
      assert RoutingError(w, sc, cfg, rest) == if here.Unroutable? then Some(here.error) else later;
      if here.Unroutable? {
        assert FirstUnroutable(w, sc, cfg, from, from, here.error);
      } else if later.Some? {
        var i: nat :| FirstUnroutable(w, sc, cfg, from + 1, i, later.value);
        assert FirstUnroutable(w, sc, cfg, from, i, later.value);
      }
    }
  }

  lemma RoutingFailsExactly(w: World, sc: Scenario, cfg: Config, x: Error)
    requires ConfigOK(sc, cfg)
    ensures RoutingError(w, sc, cfg, Addresses(sc.actors)) == Some(x) <==> RoutingFails(w, sc, cfg, x)
  {
    hide RouteOne, ConfigOK, RoutingError, RouteOf;
    RoutingErrorAt(w, sc, cfg, 0);
    assert Addresses(sc.actors)[0..] == Addresses(sc.actors);
  }

  lemma ReadyExactly(w: World, sc: Scenario, cfg: Config)
    requires ConfigOK(sc, cfg)
    ensures ReadySet(w, sc, cfg) == {} <==> NobodyReady(w, sc, cfg)
  {
    hide RouteOne, ConfigOK;
    if NobodyReady(w, sc, cfg) {
      forall a | a in Addresses(sc.actors) ensures !RouteOne(w, sc, cfg, a).Found? {
        var i :| 0 <= i < |sc.actors| && Addresses(sc.actors)[i] == a;
        assert !RouteOf(w, sc, cfg, i).Found?;
      }
    } else {
      var i: nat :| i < |sc.actors| && RouteOf(w, sc, cfg, i).Found?;
      assert Addresses(sc.actors)[i] == sc.actors[i].address;
      assert sc.actors[i].address in ReadySet(w, sc, cfg);
    }
  }

  lemma CommitsExactly(w: World, sc: Scenario, q: Request, cfg: Config, d: Decision, next: Config)
    requires ConfigOK(sc, cfg) && d.actor in Addresses(sc.actors) && RouteOne(w, sc, cfg, d.actor).Found?
    ensures CommitMove(w, sc, q, cfg, d) == Ok(next) <==> Commits(w, sc, q, cfg, d, next)
  {
    hide RouteOne, ConfigOK, ApplyFaults, Perform, Explains;
    var found := RouteOne(w, sc, cfg, d.actor);
    var faulted := ApplyFaults(w, w.faults, found.site.spec, cfg.runner.state, found.site.scope, found.site.place);
    assert d.actor in cfg.controls by { ControlOf(sc, cfg, d.actor); }
    if faulted.Ok? {
      PerformExactly(w, faulted.value.0, faulted.value.1, AddressOf(sc, q, d.actor, found.site), cfg.runner, next.runner);
      MovedControls(cfg.controls, d.actor, found.frames, next.controls);
    }
  }

  lemma ControlOf(sc: Scenario, cfg: Config, a: string)
    requires ConfigOK(sc, cfg) && a in Addresses(sc.actors)
    ensures a in cfg.controls
  {
    assert a in Elements(Addresses(sc.actors));
  }

  lemma MovedControls(controls: map<string, seq<Frame>>, actor: string, frames: seq<Frame>, next: map<string, seq<Frame>>)
    requires actor in controls
    ensures next == controls[actor := frames]
            <==> next.Keys == controls.Keys && forall a :: a in controls ==> next[a] == if a == actor then frames else controls[a]
  {
    if next.Keys == controls.Keys && forall a :: a in controls ==> next[a] == if a == actor then frames else controls[a] {
      assert next == controls[actor := frames];
    }
  }

  lemma BreaksExactly(w: World, sc: Scenario, q: Request, cfg: Config, d: Decision, x: Error)
    requires ConfigOK(sc, cfg) && d.actor in Addresses(sc.actors) && RouteOne(w, sc, cfg, d.actor).Found?
    requires FaultError(w, sc, cfg, d.actor).None?
    ensures CommitMove(w, sc, q, cfg, d) == Err(x) <==> StepBreaks(w, sc, q, cfg, d, x)
  {
    hide RouteOne, ConfigOK, ApplyFaults, Perform, StepFails;
    var found := RouteOne(w, sc, cfg, d.actor);
    var faulted := ApplyFaults(w, w.faults, found.site.spec, cfg.runner.state, found.site.scope, found.site.place);
    PerformFailsExactly(w, faulted.value.0, faulted.value.1, AddressOf(sc, q, d.actor, found.site), cfg.runner, x);
  }

  lemma ClosesExactly(w: World, sc: Scenario, q: Request, cfg: Config, expected: Option<Schedule>, ending: Ending)
    requires ConfigOK(sc, cfg)
    ensures ending == Succeed(w, sc, q, cfg, expected) <==> Closes(w, sc, q, cfg, expected, ending)
  {
    hide ConfigOK, BuildReport, ReportOf;
    var built := BuildReport(w, sc, q, cfg, cfg.decisions, SUCCESS, None);
    forall report ensures report == built <==> ReportOf(w, sc, q, cfg, cfg.decisions, SUCCESS, None, report) {
      ReportExactly(w, sc, q, cfg, cfg.decisions, SUCCESS, None, report);
    }
  }

  lemma FailsExactly(w: World, sc: Scenario, q: Request, cfg: Config, d: Decision, x: Error, expected: Option<Schedule>, ending: Ending)
    requires ConfigOK(sc, cfg)
    ensures ending == FailMove(w, sc, q, cfg, d, x, expected) <==> Fails(w, sc, q, cfg, d, x, expected, ending)
  {
    hide ConfigOK, BuildReport, ReportOf;
    var ds, failure := cfg.decisions + [d.(outcome := FAILED)], Some(FailureRecord(d.actor, CodeOf(x), d.ordinal));
    var built := BuildReport(w, sc, q, cfg, ds, FAILURE, failure);
    forall report ensures report == built <==> ReportOf(w, sc, q, cfg, ds, FAILURE, failure, report) {
      ReportExactly(w, sc, q, cfg, ds, FAILURE, failure, report);
    }
  }

  lemma StepRoundExactly(w: World, sc: Scenario, q: Request, cfg: Config, d: Decision, expected: Option<Schedule>, round: Round)
    requires ConfigOK(sc, cfg) && d.actor in Addresses(sc.actors) && RouteOne(w, sc, cfg, d.actor).Found?
    ensures round == Execute(w, sc, q, cfg, d, expected) <==> StepMeans(w, sc, q, cfg, d, expected, round)
  {
    hide RouteOne, ConfigOK, ApplyFaults, CommitMove, Commits, StepBreaks, Fails, FailMove;
    var c := CommitMove(w, sc, q, cfg, d);
    if FaultError(w, sc, cfg, d.actor).None? {
      forall next ensures c == Ok(next) <==> Commits(w, sc, q, cfg, d, next) { CommitsExactly(w, sc, q, cfg, d, next); }
      forall x ensures c == Err(x) <==> StepBreaks(w, sc, q, cfg, d, x) { BreaksExactly(w, sc, q, cfg, d, x); }
      if c.Err? && round.End? {
        assert StepBreaks(w, sc, q, cfg, d, c.error);
        FailsExactly(w, sc, q, cfg, d, c.error, expected, round.ending);
      }
    }
  }

  lemma ForeseenExactly(expected: Option<Schedule>, d: Decision)
    requires d.outcome == COMMITTED
    ensures RecordAgrees(expected, d) <==> Foreseen(expected, d)
  {
  }

  /** A round is played exactly as it means. */
  lemma RoundExactly(w: World, sc: Scenario, q: Request, cfg: Config, expected: Option<Schedule>, round: Round)
    requires ConfigOK(sc, cfg)
    ensures round == PlayRound(w, sc, q, cfg, expected) <==> RoundMeans(w, sc, q, cfg, expected, round)
  {
    hide RouteOne, ConfigOK, RoutingError, RoutingFails, ReadySet, NobodyReady, Succeed, Closes, Decide, DecisionOf,
         RecordAgrees, Foreseen, Execute, StepMeans;
    var broken := RoutingError(w, sc, cfg, Addresses(sc.actors));
    forall x ensures broken == Some(x) <==> RoutingFails(w, sc, cfg, x) { RoutingFailsExactly(w, sc, cfg, x); }
    ReadyExactly(w, sc, cfg);
    if broken.Some? {
      assert RoutingFails(w, sc, cfg, broken.value);
    } else if ReadySet(w, sc, cfg) == {} {
      if round.End? { ClosesExactly(w, sc, q, cfg, expected, round.ending); }
    } else {
      DecideIsReady(w, sc, q, cfg);
      var d := Decide(w, sc, q, cfg);
      forall e ensures e == d <==> DecisionOf(w, sc, q, cfg, e) { DecisionExactly(w, sc, q, cfg, e); }
      DecisionCommitted(w, sc, q, cfg, d);
      ForeseenExactly(expected, d);
      StepRoundExactly(w, sc, q, cfg, d, expected, round);
    }
  }

  lemma DecisionCommitted(w: World, sc: Scenario, q: Request, cfg: Config, d: Decision)
    requires ConfigOK(sc, cfg) && DecisionOf(w, sc, q, cfg, d)
    ensures d.outcome == COMMITTED && d.actor in Addresses(sc.actors) && RouteOne(w, sc, cfg, d.actor).Found?
  {
    hide RouteOne, ConfigOK;
  }

  // ---------------------------------------------------------------- runs

  /** Nothing recorded, the declared start, and every actor at the beginning of its own steps. */
  ghost predicate Fresh(sc: Scenario, cfg: Config) {
    && cfg.decisions == [] && cfg.moves == [] && cfg.runner == Runner(sc.initial, sc.start, [], [], None)
    && (forall a :: a in cfg.controls <==> a in Addresses(sc.actors))
    && forall a :: a in cfg.controls ==> cfg.controls[a] == [Sequence(None, 0, None, Place([], [], []))]
  }

  /** Round i of a run goes on to round i + 1. */
  ghost predicate Continues(w: World, sc: Scenario, q: Request, expected: Option<Schedule>, i: nat) {
    RoundMeans(w, sc, q, After(w, sc, q, expected, i), expected, Continue(After(w, sc, q, expected, i + 1)))
  }

  ghost predicate EndsAt(w: World, sc: Scenario, q: Request, expected: Option<Schedule>, n: nat, ending: Ending) {
    RoundMeans(w, sc, q, After(w, sc, q, expected, n), expected, End(ending))
  }

  lemma {:induction false} RoundsFrom(w: World, sc: Scenario, q: Request, expected: Option<Schedule>, k: nat) returns (n: nat)
    ensures k <= n && (forall i: nat :: k <= i < n ==> Continues(w, sc, q, expected, i))
    ensures EndsAt(w, sc, q, expected, n, Run(w, sc, q, After(w, sc, q, expected, k), expected))
    decreases MAX_SELECTIONS - |After(w, sc, q, expected, k).decisions|
  {
    hide *;
    OneRound(w, sc, q, expected, k);
    if PlayRound(w, sc, q, After(w, sc, q, expected, k), expected).End? {
      n := k;
    } else {
      n := RoundsFrom(w, sc, q, expected, k + 1);
    }
  }

  lemma OneRound(w: World, sc: Scenario, q: Request, expected: Option<Schedule>, k: nat)
    ensures var cfg, next := After(w, sc, q, expected, k), After(w, sc, q, expected, k + 1);
            if PlayRound(w, sc, q, cfg, expected).End? then EndsAt(w, sc, q, expected, k, Run(w, sc, q, cfg, expected))
            else Continues(w, sc, q, expected, k) && Run(w, sc, q, cfg, expected) == Run(w, sc, q, next, expected)
                 && |cfg.decisions| < |next.decisions| <= MAX_SELECTIONS
  {
    hide PlayRound, ConfigOK, RoundMeans;
    var cfg := After(w, sc, q, expected, k);
    if PlayRound(w, sc, q, cfg, expected).Continue? { RoundFrame(w, sc, q, cfg, expected); }
    RoundExactly(w, sc, q, cfg, expected, PlayRound(w, sc, q, cfg, expected));
  }

  /** A run is its rounds: it starts fresh, every round but the last continues, the last gives the ending. */
  lemma RunIsRounds(w: World, sc: Scenario, q: Request, expected: Option<Schedule>) returns (n: nat)
    ensures Fresh(sc, After(w, sc, q, expected, 0)) && ConfigOK(sc, Initial(sc))
    ensures forall i: nat :: i < n ==> Continues(w, sc, q, expected, i)
    ensures EndsAt(w, sc, q, expected, n, Run(w, sc, q, Initial(sc), expected))
  {
    hide PlayRound, RoundMeans, Run, Continues, EndsAt;
    InitialOK(sc);
    assert After(w, sc, q, expected, 0) == Initial(sc);
    n := RoundsFrom(w, sc, q, expected, 0);
  }

  /** When a run succeeds every actor's view is terminal and shows nothing next. */
  lemma SuccessIsTerminal(w: World, sc: Scenario, q: Request, expected: Option<Schedule>, report: Report)
    requires ExecuteActors(w, sc, q, expected) == Finished(report)
    ensures forall i :: 0 <= i < |report.actors| ==> report.actors[i].terminal && report.actors[i].next == None
    ensures forall a :: a in Addresses(sc.actors) ==> exists i :: 0 <= i < |report.actors| && report.actors[i].address == a
  {
    hide PlayRound, RouteOne, Run, Last, BuildReport, ConfigOK;
    InitialOK(sc);
    RunEndsAtLast(w, sc, q, Initial(sc), expected);
    var last := Last(w, sc, q, Initial(sc), expected);
    EndingReports(w, sc, q, last, expected, Finished(report));
    ReportExactly(w, sc, q, last, last.decisions, SUCCESS, None, report);
    forall i | 0 <= i < |report.actors| ensures report.actors[i].terminal && report.actors[i].next == None {
      assert ViewIs(w, sc, q, last, report.actors[i]);
      assert report.actors[i].address !in ReadySet(w, sc, last);
    }
  }
}
