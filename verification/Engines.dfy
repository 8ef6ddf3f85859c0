/** The engines as they are written: the routing loop, the recursive Engine 1 interpreter over a
    mutable runner, and the actor loop; each proved against its specification function. */
module Engines {
  import opened Order
  import opened Values
  import opened Expressions
  import opened Steps
  import opened Programs
  import opened Routing
  import opened Interpreter
  import opened ScenarioRunners
  import opened Actors
  import opened SingleActor

  // ---------------------------------------------------------------- _route

  /** `_route`: replaces, pushes and pops frames until a step is reached or none is left. */
  method RouteActor(w: World, p: Program, state: State, control: seq<Frame>) returns (routed: Routed)
    requires FramesOK(p, control)
    ensures routed == Route(w, p, state, control, 0)
  {
    hide ActOn, StartRepetition, BindRepetition;
    var frames, operations := control, 0;
    while frames != []
      invariant FramesOK(p, frames) && operations <= MAX_ROUTING_OPERATIONS
      invariant Route(w, p, state, control, 0) == Route(w, p, state, frames, operations)
      decreases MAX_ROUTING_OPERATIONS - operations, |frames|
    {
      var top, below := frames[|frames| - 1], frames[..|frames| - 1];
      assert FrameOK(p, top);
      if top.Repeating? {
        if top.next >= top.count {
          frames := below;
          continue;
        }
        if operations >= MAX_ROUTING_OPERATIONS { return Unroutable(RoutingLimit); }
        var started := StartNext(w, p, state, below, top, operations);
        if started.Failed? { return Unroutable(started.error); }
        frames, operations := started.frames, started.operations;
        continue;
      }
      if top.index >= |Body(p, top.flow)| {
        frames := below;
        continue;
      }
      if operations >= MAX_ROUTING_OPERATIONS { return Unroutable(RoutingLimit); }
      var moved := below + [Sequence(top.flow, top.index + 1, top.scope, top.place)];
      var acted := ActOnNode(w, p, state, moved, top, operations + 1);
      match acted
      case Failed(e) => return Unroutable(e);
      case Arrived(next, site, ticks) => return Found(next, site, ticks);
      case Again(next, ticks) => frames, operations := next, ticks;
    }
    routed := Drained(operations);
  }

  /** One more repetition of a repeat frame that is not exhausted. */
  method StartNext(w: World, p: Program, state: State, below: seq<Frame>, top: Frame, operations: nat) returns (r: Progress)
    requires FramesOK(p, below) && FrameOK(p, top) && top.Repeating? && top.next < top.count && operations < MAX_ROUTING_OPERATIONS
    ensures r == StartRepetition(w, p, below, top,
                   BindRepetition(w, Body(p, top.flow)[top.index], top.next, state, top.scope), operations)
  {
    hide BindRepetition;
    var node := Body(p, top.flow)[top.index];
    var bound := BindRepetition(w, node, top.next, state, top.scope);
    if bound.Err? { return Failed(bound.error); }
    if operations + 1 >= MAX_ROUTING_OPERATIONS { return Failed(RoutingLimit); }
    if node.target.subflow !in p.subflows { return Failed(NativeKeyError); }
    r := Again(PushRepetition(w, p, below, top, bound.value), operations + 2);
  }

  /** The node cases of the loop, after the node has been moved past and ticked. */
  method ActOnNode(w: World, p: Program, state: State, moved: seq<Frame>, top: Frame, ticks: nat) returns (r: Progress)
    requires FramesOK(p, moved) && top.Sequence? && HasFlow(p, top.flow) && top.index < |Body(p, top.flow)|
    requires 0 < ticks <= MAX_ROUTING_OPERATIONS
    ensures r == ActOn(w, p, state, moved, top.flow, top.index, top.scope, top.place, ticks)
  {
    hide CompileStep, Bind, RepeatTimes, Condition;
    var node := Body(p, top.flow)[top.index];
    match node
    case Step(doc) =>
      var spec := CompileStep(w, doc, top.scope);
      if spec.Err? { return Failed(spec.error); }
      return Arrived(moved, Site(spec.value, top.scope, top.place), ticks);
    case Call(id, target) =>
      r := Enter(w, p, moved, id, target, state, top.scope, top.place, ticks);
    case Branch(id, cases, otherwise) =>
      var operations, i, selected := ticks, 0, otherwise;
      while i < |cases|
        invariant 0 <= i <= |cases| && ticks <= operations <= MAX_ROUTING_OPERATIONS && selected == otherwise
        invariant ChooseTicking(w, node, 0, state, top.scope, ticks) == ChooseTicking(w, node, i, state, top.scope, operations)
      {
        if operations >= MAX_ROUTING_OPERATIONS { return Failed(RoutingLimit); }
        operations := operations + 1;
        var hit := Condition(w, cases[i].when, state, top.scope);
        if hit.Err? { return Failed(hit.error); }
        if hit.value {
          selected := Some(cases[i].target);
          break;
        }
        i := i + 1;
      }
      assert ChooseTicking(w, node, 0, state, top.scope, ticks) == Ok((selected, operations));
      if selected.None? { return Again(moved, operations); }
      r := Enter(w, p, moved, id, selected.value, state, top.scope, top.place, operations);
    case Repeat(_, _, _, _, _) =>
      var count := RepeatTimes(w, node, state, top.scope);
      if count.Err? { return Failed(count.error); }
      if ticks >= MAX_ROUTING_OPERATIONS { return Failed(RoutingLimit); }
      r := Again(moved + [Repeating(top.flow, top.index, 0, count.value, top.scope, top.place)], ticks + 1);
  }

  // ---------------------------------------------------------------- Engine 1

  ghost function Lone(w: World, p: Program, rank: map<string, nat>, who: Identity): Ctx<Runner> {
    Ctx(w, p, rank, RunnerMachine(w, who), true)
  }

  /** A method's result and the runner it leaves, against the interpreter's outcome. */
  ghost predicate Reaches(r: Result<()>, after: Runner, o: Outcome<Runner>) {
    after == o.runner && (if o.Done? then r.Ok? else r == Err(o.error))
  }

  /** One executable node: faults against a snapshot, then the guarded step. */
  method ExecuteStep(w: World, who: Identity, spec: StepDoc, scope: Scope, runner: ScenarioRunner) returns (r: Result<()>)
    modifies runner, runner.state, runner.clock, runner.history
    ensures runner.place == old(runner.place)
    ensures var done := ExecuteSite(w, who, Site(spec, scope, runner.place), old(runner.View()));
            match done
            case Ok(next) => r.Ok? && runner.View() == next
            case Err(e) => r == Err(e) && runner.View() == old(runner.View())
  {
    hide ApplyFaults, Perform;
    var faulted := ApplyFaults(w, w.faults, spec, runner.state.value, scope, runner.place);
    if faulted.Err? { return Err(faulted.error); }
    FaultsKeepStep(w, w.faults, spec, runner.state.value, scope, runner.place);
    var done := runner.RunStep(w, who, faulted.value.0, faulted.value.1);
    if done.Err? { return Err(done.error); }
    r := Ok(());
  }

  /** `execute_sequence` from its first node on; the place is the one the runner carries. */
  method ExecuteSequence(w: World, p: Program, ghost rank: map<string, nat>, who: Identity, flow: Flow, scope: Scope, runner: ScenarioRunner)
      returns (r: Result<()>)
    requires Ranked(p, rank) && HasFlow(p, flow)
    modifies runner, runner.state, runner.clock, runner.history
    ensures runner.place == old(runner.place)
    ensures Reaches(r, runner.View(), ExecSequence(Lone(w, p, rank, who), flow, 0, scope, old(runner.place), old(runner.View())))
    decreases Level(p, rank, flow), 3, 0
  {
    hide ExecNode, Ranked;
    ghost var c, place := Lone(w, p, rank, who), runner.place;
    ghost var whole := ExecSequence(c, flow, 0, scope, place, runner.View());
    var nodes := Body(p, flow);
    var i := 0;
    while i < |nodes|
      invariant 0 <= i <= |nodes| && runner.place == place
      invariant whole == ExecSequence(c, flow, i, scope, place, runner.View())
    {
      r := ExecuteNode(w, p, rank, who, flow, i, scope, runner);
      if r.Err? { return; }
      i := i + 1;
    }
    r := Ok(());
  }

  method ExecuteNode(w: World, p: Program, ghost rank: map<string, nat>, who: Identity, flow: Flow, i: nat, scope: Scope, runner: ScenarioRunner)
      returns (r: Result<()>)
    requires Ranked(p, rank) && HasFlow(p, flow) && i < |Body(p, flow)|
    modifies runner, runner.state, runner.clock, runner.history
    ensures runner.place == old(runner.place)
    ensures Reaches(r, runner.View(), ExecNode(Lone(w, p, rank, who), flow, i, scope, old(runner.place), old(runner.View())))
    decreases Level(p, rank, flow), 2, 0
  {
    hide CompileStep, Choose, RepeatTimes, ExecInvocation, ExecRepeat, ExecuteSite, Ranked;
    var node, state := Body(p, flow)[i], runner.state.value;
    match node
    case Step(doc) =>
      var spec := CompileStep(w, doc, scope);
      if spec.Err? { return Err(spec.error); }
      r := ExecuteStep(w, who, spec.value, scope, runner);
    case Call(id, target) =>
      r := ExecuteInvocation(w, p, rank, who, flow, i, id, target, scope, runner);
    case Branch(id, _, _) =>
      ChoiceIsTarget(w, node, 0, state, scope);
      var selected := SelectCase(w, node, state, scope);
      if selected.Err? { return Err(selected.error); }
      if selected.value.None? { return Ok(()); }
      r := ExecuteInvocation(w, p, rank, who, flow, i, id, selected.value.value, scope, runner);
    case Repeat(_, _, _, _, _) =>
      var count := RepeatTimes(w, node, state, scope);
      if count.Err? { return Err(count.error); }
      r := ExecuteRepeat(w, p, rank, who, flow, i, count.value, scope, runner);
  }

  /** The ordered case loop. */
  method SelectCase(w: World, node: Node, state: State, scope: Scope) returns (selected: Result<Option<Invocation>>)
    requires node.Branch?
    ensures selected == Choose(w, node, 0, state, scope)
  {
    hide Condition;
    var i := 0;
    while i < |node.cases|
      invariant 0 <= i <= |node.cases|
      invariant Choose(w, node, 0, state, scope) == Choose(w, node, i, state, scope)
    {
      var hit := Condition(w, node.cases[i].when, state, scope);
      if hit.Err? { return Err(hit.error); }
      if hit.value { return Ok(Some(node.cases[i].target)); }
      i := i + 1;
    }
    selected := Ok(node.otherwise);
  }

  /** `execute_invocation`: the runner's place is moved into the subflow and restored afterwards. */
  method ExecuteInvocation(w: World, p: Program, ghost rank: map<string, nat>, who: Identity, flow: Flow, ghost i: nat, id: string,
                           target: Invocation, scope: Scope, runner: ScenarioRunner) returns (r: Result<()>)
    requires Ranked(p, rank) && HasFlow(p, flow) && i < |Body(p, flow)| && target.subflow in Targets(Body(p, flow)[i])
    modifies runner, runner.state, runner.clock, runner.history
    ensures runner.place == old(runner.place)
    ensures Reaches(r, runner.View(), ExecInvocation(Lone(w, p, rank, who), flow, i, id, target, scope, old(runner.place), old(runner.View())))
    decreases Level(p, rank, flow), 1, 0
  {
    hide Bind, EnterFlow, Ranked;
    TargetsBelow(p, rank, flow, i, target.subflow);
    var child := Bind(w, target, runner.state.value, scope);
    if child.Err? { return Err(child.error); }
    r := ExecuteEntered(w, p, rank, who, target.subflow, child.value, Entered(w, runner.place, id, target.subflow), runner);
  }

  /** Engine 1 compiles the whole entered sequence in its scope before executing any of it. */
  method ExecuteEntered(w: World, p: Program, ghost rank: map<string, nat>, who: Identity, name: string, child: map<string, Value>,
                        place: Place, runner: ScenarioRunner) returns (r: Result<()>)
    requires Ranked(p, rank) && name in p.subflows
    modifies runner, runner.state, runner.clock, runner.history
    ensures runner.place == old(runner.place)
    ensures Reaches(r, runner.View(), EnterFlow(Lone(w, p, rank, who), name, Some(child), place, old(runner.View())))
    decreases rank[name], 4, 0
  {
    hide CompileSequence, ExecSequence, Ranked;
    var before := runner.place;
    runner.SetPlace(place);
    var ahead := CompileSequence(w, p.subflows[name], Some(child));
    if ahead.Err? {
      r := Err(ahead.error);
    } else {
      r := ExecuteSequence(w, p, rank, who, Some(name), Some(child), runner);
    }
    runner.SetPlace(before);
  }

  /** The repetition loop; bindings are evaluated against a fresh snapshot each time. */
  method ExecuteRepeat(w: World, p: Program, ghost rank: map<string, nat>, who: Identity, flow: Flow, i: nat, count: nat,
                       scope: Scope, runner: ScenarioRunner) returns (r: Result<()>)
    requires Ranked(p, rank) && HasFlow(p, flow) && i < |Body(p, flow)| && Body(p, flow)[i].Repeat?
    modifies runner, runner.state, runner.clock, runner.history
    ensures runner.place == old(runner.place)
    ensures Reaches(r, runner.View(), ExecRepeat(Lone(w, p, rank, who), flow, i, 0, count, scope, old(runner.place), old(runner.View())))
    decreases Level(p, rank, flow), 1, 0
  {
    hide BindRepetition, EnterFlow, Ranked;
    ghost var c, place := Lone(w, p, rank, who), runner.place;
    ghost var whole := ExecRepeat(c, flow, i, 0, count, scope, place, runner.View());
    var node := Body(p, flow)[i];
    TargetsBelow(p, rank, flow, i, node.target.subflow);
    var k := 0;
    while k < count
      invariant 0 <= k <= count && runner.place == place
      invariant whole == ExecRepeat(c, flow, i, k, count, scope, place, runner.View())
    {
      var child := BindRepetition(w, node, k, runner.state.value, scope);
      if child.Err? { return Err(child.error); }
      r := ExecuteEntered(w, p, rank, who, node.target.subflow, child.value,
                          EnteredRepetition(w, runner.place, node.id, node.target.subflow, k), runner);
      if r.Err? { return; }
      k := k + 1;
    }
    r := Ok(());
  }

  /** `_execute` on a program the control check has accepted. */
  method RunEngine1(w: World, sc: Scenario, run: nat, p: Program, ghost rank: map<string, nat>) returns (r: Result<()>, runner: ScenarioRunner)
    requires Ranked(p, rank)
    ensures Reaches(r, runner.View(), Engine1(w, sc, run, p, rank))
  {
    hide CompileDocument, ExecSequence, Ranked;
    runner := new ScenarioRunner(sc.initial, sc.start);
    var compiled := CompileDocument(w, p);
    if compiled.Err? {
      return Err(compiled.error), runner;
    }
    r := ExecuteSequence(w, p, rank, Identity(sc.id, run, None), None, None, runner);
  }

  // ---------------------------------------------------------------- execute_actors_internal

  /** The dictionary of routes of one round, in declaration order. */
  method RouteAll(w: World, sc: Scenario, cfg: Config) returns (routes: Result<map<string, Routed>>)
    requires ConfigOK(sc, cfg)
    ensures match RoutingError(w, sc, cfg, Addresses(sc.actors))
            case Some(e) => routes == Err(e)
            case None =>
              routes.Ok? && (forall a :: a in routes.value <==> a in Addresses(sc.actors))
              && forall a :: a in Addresses(sc.actors) ==> a in routes.value && routes.value[a] == RouteOne(w, sc, cfg, a)
  {
    hide RouteOne, Addresses, RoutingError;
    var declared := Addresses(sc.actors);
    var found: map<string, Routed> := map[];
    assert declared[0..] == declared;
    for i := 0 to |declared|
      invariant forall a :: a in found <==> a in declared[..i]
      invariant forall a :: a in found ==> found[a] == RouteOne(w, sc, cfg, a)
      invariant RoutingError(w, sc, cfg, declared) == RoutingError(w, sc, cfg, declared[i..])
    {
      RoutingErrorStep(w, sc, cfg, declared, i);
      assert declared[..i + 1] == declared[..i] + [declared[i]];
      var routed := RouteDeclared(w, sc, cfg, declared[i]);
      if routed.Unroutable? {
        return Err(routed.error);
      }
      found := found[declared[i] := routed];
    }
    NoRoutingError(w, sc, cfg, declared[|declared|..]);
    assert declared[..|declared|] == declared;
    routes := Ok(found);
  }

  lemma RoutingErrorStep(w: World, sc: Scenario, cfg: Config, declared: seq<string>, i: nat)
    requires ConfigOK(sc, cfg) && i < |declared| && forall a :: a in declared ==> a in Addresses(sc.actors)
    ensures RoutingError(w, sc, cfg, declared[i..])
            == (match RouteOne(w, sc, cfg, declared[i]) case Unroutable(e) => Some(e) case _ => RoutingError(w, sc, cfg, declared[i + 1..]))
  {
    hide RouteOne, Addresses;
    assert declared[i..][0] == declared[i] && declared[i..][1..] == declared[i + 1..];
  }

  lemma NoRoutingError(w: World, sc: Scenario, cfg: Config, declared: seq<string>)
    requires ConfigOK(sc, cfg) && declared == []
    ensures RoutingError(w, sc, cfg, declared) == None
  {
  }

  method RouteDeclared(w: World, sc: Scenario, cfg: Config, address: string) returns (routed: Routed)
    requires ConfigOK(sc, cfg) && address in Addresses(sc.actors)
    ensures routed == RouteOne(w, sc, cfg, address)
  {
    hide Route;
    assert address in Elements(Addresses(sc.actors));
    routed := RouteActor(w, ActorAt(sc, address).program, cfg.runner.state, cfg.controls[address]);
  }

  /** One selected step on the shared runner; the actor's control advances only if it commits. */
  method ExecuteSelected(w: World, sc: Scenario, q: Request, runner: ScenarioRunner, cfg: Config, d: Decision,
                         found: Routed, expected: Option<Schedule>) returns (round: Round)
    requires ConfigOK(sc, cfg) && d.actor in Addresses(sc.actors) && found.Found? && found == RouteOne(w, sc, cfg, d.actor)
    requires runner.View() == cfg.runner
    modifies runner, runner.state, runner.clock, runner.history
    ensures round == Execute(w, sc, q, cfg, d, expected)
    ensures round.Continue? ==> runner.View() == round.cfg.runner
  {
    hide RouteOne, ApplyFaults, Perform, FailMove, ConfigOK;
    var site := found.site;
    runner.SetPlace(site.place);
    var faulted := ApplyFaults(w, w.faults, site.spec, runner.state.value, site.scope, site.place);
    if faulted.Err? {
      return End(Aborted(faulted.error));
    }
    FaultsKeepStep(w, w.faults, site.spec, runner.state.value, site.scope, site.place);
    var done := runner.RunStep(w, Who(sc, q, d.actor), faulted.value.0, faulted.value.1);
    if done.Err? {
      return End(FailMove(w, sc, q, cfg, d, done.error, expected));
    }
    var now := Runner(runner.state.value, runner.clock.current, runner.history.records, runner.artifacts, runner.nextStep);
    round := Continue(Config(cfg.controls[d.actor := found.frames], cfg.decisions + [d], now, cfg.moves + [Move(d.actor, site)]));
  }

  /** The scheduling loop: route all, stop when nobody is ready, otherwise select, compare when
      replaying, execute. */
  method RunActors(w: World, sc: Scenario, q: Request, expected: Option<Schedule>) returns (ending: Ending)
    ensures ending == ExecuteActors(w, sc, q, expected)
  {
    hide RouteOne, Decide, Execute, Succeed, RoutingError, ReadySet, RecordAgrees, ConfigOK;
    InitialOK(sc);
    if expected.Some? && !CoordinatesAgree(sc, q, expected.value) {
      return Mismatch;
    }
    var runner := new ScenarioRunner(sc.initial, sc.start);
    var cfg := Initial(sc);
    while true
      invariant fresh(runner) && fresh(runner.state) && fresh(runner.clock) && fresh(runner.history)
      invariant ConfigOK(sc, cfg) && runner.View() == cfg.runner
      invariant ExecuteActors(w, sc, q, expected) == Run(w, sc, q, cfg, expected)
      decreases MAX_SELECTIONS - |cfg.decisions|
    {
      var routes := RouteAll(w, sc, cfg);
      if routes.Err? {
        return Aborted(routes.error);
      }
      ReadyFromRoutes(w, sc, cfg, routes.value);
      var ready := set a | a in routes.value && routes.value[a].Found?;
      if ready == {} {
        return Succeed(w, sc, q, cfg, expected);
      }
      if |cfg.decisions| >= MAX_SELECTIONS {
        return Aborted(SelectionLimit);
      }
      if q.scheduleSeed > MAX_SCHEDULE_SEED {
        return Aborted(SchedulerInvalid);
      }
      DecideIsReady(w, sc, q, cfg);
      var d := Decide(w, sc, q, cfg);
      if !RecordAgrees(expected, d) {
        return Mismatch;
      }
      var round := ExecuteSelected(w, sc, q, runner, cfg, d, routes.value[d.actor], expected);
      match round
      case End(e) => return e;
      case Continue(next) =>
        RoundFrame(w, sc, q, cfg, expected);
        cfg := next;
    }
  }

  lemma ReadyFromRoutes(w: World, sc: Scenario, cfg: Config, routes: map<string, Routed>)
    requires ConfigOK(sc, cfg) && forall a :: a in routes <==> a in Addresses(sc.actors)
    requires forall a :: a in Addresses(sc.actors) ==> a in routes && routes[a] == RouteOne(w, sc, cfg, a)
    ensures (set a | a in routes && routes[a].Found?) == ReadySet(w, sc, cfg)
  {
    hide RouteOne;
  }
}
