/** The recursive reference interpreter over the same programs, and the theorem that the
    frame-stack machine is its defunctionalised form.  The interpreter is stated over an
    arbitrary step semantics, so one theorem serves a lone actor and an actor among others. */
module Interpreter {
  import opened Values
  import opened Expressions
  import opened Steps
  import opened Programs
  import opened Routing

  /** What control flow needs of a step semantics: the state it shows and the effect of a step. */
  datatype Machine<!R> = Machine(view: R -> State, exec: (Site, R) -> Result<R>)

  /** The runner reached: at the end, at a failing step or control decision, or, in the eager engine
      only, on entry to a sequence one of whose steps does not compile. */
  datatype Outcome<R> = Done(runner: R) | Stopped(runner: R, error: Error) | Refused(runner: R, error: Error)

  /** `eager`: compile a whole sequence when it is entered, as Engine 1 does; otherwise each step
      is compiled when it is reached, as the routing machine does. */
  datatype Ctx<!R> = Ctx(w: World, p: Program, rank: map<string, nat>, m: Machine<R>, eager: bool)

  function CompileSequence(w: World, nodes: seq<Node>, scope: Scope): Result<()>
    decreases |nodes|
  {
    if nodes == [] then Ok(())
    else
      var _ :- (match nodes[0] case Step(doc) => CompileStep(w, doc, scope) case _ => Ok(EMPTY_STEP));
      CompileSequence(w, nodes[1..], scope)
  }

  const EMPTY_STEP := StepDoc("", map[], map[], map[], [], 0, None)

  // ---------------------------------------------------------------- the interpreter

  ghost function ExecSequence<R>(c: Ctx<R>, flow: Flow, i: nat, scope: Scope, place: Place, r: R): Outcome<R>
    requires Ranked(c.p, c.rank) && HasFlow(c.p, flow) && i <= |Body(c.p, flow)|
    decreases Level(c.p, c.rank, flow), |Body(c.p, flow)| - i, 2, 0
  {
    if i == |Body(c.p, flow)| then Done(r)
    else
      var o := ExecNode(c, flow, i, scope, place, r);
      if o.Done? then ExecSequence(c, flow, i + 1, scope, place, o.runner) else o
  }

  /** Entering a subflow: the eager engine compiles all of it first. */
  ghost function EnterFlow<R>(c: Ctx<R>, name: string, child: Scope, place: Place, r: R): Outcome<R>
    requires Ranked(c.p, c.rank) && name in c.p.subflows
    decreases c.rank[name], |c.p.subflows[name]| + 1, 0, 0
  {
    var ahead := if c.eager then CompileSequence(c.w, c.p.subflows[name], child) else Ok(());
    match ahead
    case Err(e) => Refused(r, e)
    case Ok(_) => ExecSequence(c, Some(name), 0, child, place, r)
  }

  ghost function ExecNode<R>(c: Ctx<R>, flow: Flow, i: nat, scope: Scope, place: Place, r: R): Outcome<R>
    requires Ranked(c.p, c.rank) && HasFlow(c.p, flow) && i < |Body(c.p, flow)|
    decreases Level(c.p, c.rank, flow), |Body(c.p, flow)| - i, 1, 0
  {
    var node := Body(c.p, flow)[i];
    var state := c.m.view(r);
    match node
    case Step(doc) =>
      (match CompileStep(c.w, doc, scope)
       case Err(e) => Stopped(r, e)
       case Ok(spec) =>
         match c.m.exec(Site(spec, scope, place), r)
         case Err(e) => Stopped(r, e)
         case Ok(r') => Done(r'))
    case Call(id, target) =>
      ExecInvocation(c, flow, i, id, target, scope, place, r)
    case Branch(id, _, _) =>
      (match Choose(c.w, node, 0, state, scope)
       case Err(e) => Stopped(r, e)
       case Ok(None) => Done(r)
       case Ok(Some(target)) =>
         ChoiceIsTarget(c.w, node, 0, state, scope);
         ExecInvocation(c, flow, i, id, target, scope, place, r))
    case Repeat(_, _, _, _, _) =>
      (match RepeatTimes(c.w, node, state, scope)
       case Err(e) => Stopped(r, e)
       case Ok(count) => ExecRepeat(c, flow, i, 0, count, scope, place, r))
  }

  ghost function ExecInvocation<R>(c: Ctx<R>, flow: Flow, i: nat, id: string, target: Invocation, scope: Scope, place: Place, r: R): Outcome<R>
    requires Ranked(c.p, c.rank) && HasFlow(c.p, flow) && i < |Body(c.p, flow)|
    requires target.subflow in Targets(Body(c.p, flow)[i])
    decreases Level(c.p, c.rank, flow), |Body(c.p, flow)| - i, 0, 0
  {
    TargetsBelow(c.p, c.rank, flow, i, target.subflow);
    match Bind(c.w, target, c.m.view(r), scope)
    case Err(e) => Stopped(r, e)
    case Ok(child) => EnterFlow(c, target.subflow, Some(child), Entered(c.w, place, id, target.subflow), r)
  }

  /** Repetitions k, k+1, .. count-1; bindings are evaluated afresh before each. */
  ghost function ExecRepeat<R>(c: Ctx<R>, flow: Flow, i: nat, k: nat, count: nat, scope: Scope, place: Place, r: R): Outcome<R>
    requires Ranked(c.p, c.rank) && HasFlow(c.p, flow) && i < |Body(c.p, flow)|
    requires Body(c.p, flow)[i].Repeat? && k <= count
    decreases Level(c.p, c.rank, flow), |Body(c.p, flow)| - i, 0, count - k
  {
    if k == count then Done(r)
    else
      var node := Body(c.p, flow)[i];
      var name := node.target.subflow;
      TargetsBelow(c.p, c.rank, flow, i, name);
      match BindRepetition(c.w, node, k, c.m.view(r), scope)
      case Err(e) => Stopped(r, e)
      case Ok(child) =>
        var o := EnterFlow(c, name, Some(child), EnteredRepetition(c.w, place, node.id, name, k), r);
        if o.Done? then ExecRepeat(c, flow, i, k + 1, count, scope, place, o.runner) else o
  }

  // ---------------------------------------------------------------- frames as continuations

  /** Running one suspended frame to its end. */
  ghost function Finish<R>(c: Ctx<R>, f: Frame, r: R): Outcome<R>
    requires Ranked(c.p, c.rank) && FrameOK(c.p, f)
  {
    match f
    case Sequence(flow, i, scope, place) => ExecSequence(c, flow, i, scope, place, r)
    case Repeating(flow, i, next, count, scope, place) => ExecRepeat(c, flow, i, next, count, scope, place, r)
  }

  ghost predicate Ready<R>(c: Ctx<R>, frames: seq<Frame>) {
    Ranked(c.p, c.rank) && FramesOK(c.p, frames)
  }

  /** Running a whole stack to its end, innermost frame first. */
  ghost function Resume<R>(c: Ctx<R>, frames: seq<Frame>, r: R): Outcome<R>
    requires Ready(c, frames)
    decreases |frames|, 0
  {
    if frames == [] then Done(r)
    else Then(c, frames[..|frames| - 1], Finish(c, frames[|frames| - 1], r))
  }

  /** Continue with the outer frames unless already stopped. */
  ghost function Then<R>(c: Ctx<R>, below: seq<Frame>, o: Outcome<R>): Outcome<R>
    requires Ready(c, below)
    decreases |below|, 1
  {
    if o.Done? then Resume(c, below, o.runner) else o
  }

  lemma ResumePush<R>(c: Ctx<R>, below: seq<Frame>, f: Frame, r: R)
    requires Ready(c, below) && FrameOK(c.p, f)
    ensures Ready(c, below + [f])
    ensures Resume(c, below + [f], r) == Then(c, below, Finish(c, f, r))
  {
    assert (below + [f])[..|below|] == below;
  }

  /** The rest of a sequence after the outcome of one of its nodes. */
  ghost function Proceed<R>(c: Ctx<R>, flow: Flow, i: nat, scope: Scope, place: Place, o: Outcome<R>): Outcome<R>
    requires Ranked(c.p, c.rank) && HasFlow(c.p, flow) && i <= |Body(c.p, flow)|
  {
    if o.Done? then ExecSequence(c, flow, i, scope, place, o.runner) else o
  }

  /** The remaining repetitions after the outcome of one. */
  ghost function ProceedRepeat<R>(c: Ctx<R>, flow: Flow, i: nat, k: nat, count: nat, scope: Scope, place: Place, o: Outcome<R>): Outcome<R>
    requires Ranked(c.p, c.rank) && HasFlow(c.p, flow) && i < |Body(c.p, flow)|
    requires Body(c.p, flow)[i].Repeat? && k <= count
  {
    if o.Done? then ExecRepeat(c, flow, i, k, count, scope, place, o.runner) else o
  }

  /** Moving past a node pushes the rest of its sequence under the node's own work. */
  lemma MovePast<R>(c: Ctx<R>, below: seq<Frame>, flow: Flow, i: nat, scope: Scope, place: Place, r: R)
    requires Ready(c, below) && HasFlow(c.p, flow) && i < |Body(c.p, flow)|
    ensures Ready(c, below + [Sequence(flow, i + 1, scope, place)])
    ensures Then(c, below, ExecSequence(c, flow, i, scope, place, r))
            == Then(c, below + [Sequence(flow, i + 1, scope, place)], ExecNode(c, flow, i, scope, place, r))
  {
    var next := Sequence(flow, i + 1, scope, place);
    var o := ExecNode(c, flow, i, scope, place, r);
    assert FrameOK(c.p, next);
    assert ExecSequence(c, flow, i, scope, place, r) == Proceed(c, flow, i + 1, scope, place, o);
    if o.Done? { ResumePush(c, below, next, o.runner); }
  }

  lemma MovePastRepetition<R>(c: Ctx<R>, below: seq<Frame>, flow: Flow, i: nat, k: nat, count: nat, scope: Scope, place: Place, o: Outcome<R>)
    requires Ready(c, below) && HasFlow(c.p, flow) && i < |Body(c.p, flow)|
    requires Body(c.p, flow)[i].Repeat? && k <= count <= Body(c.p, flow)[i].max
    ensures Ready(c, below + [Repeating(flow, i, k, count, scope, place)])
    ensures Then(c, below, ProceedRepeat(c, flow, i, k, count, scope, place, o))
            == Then(c, below + [Repeating(flow, i, k, count, scope, place)], o)
  {
    var next := Repeating(flow, i, k, count, scope, place);
    assert FrameOK(c.p, next);
    if o.Done? { ResumePush(c, below, next, o.runner); }
  }

  /** What the interpreter does at a reached step. */
  ghost function AfterStep<R>(c: Ctx<R>, frames: seq<Frame>, site: Site, r: R): Outcome<R>
    requires Ready(c, frames)
  {
    match c.m.exec(site, r) case Err(e) => Stopped(r, e) case Ok(r') => Resume(c, frames, r')
  }

  lemma {:induction false} TickingAgrees(w: World, node: Node, i: nat, state: State, scope: Scope, ops: nat)
    requires node.Branch? && i <= |node.cases| && ops <= MAX_ROUTING_OPERATIONS
    ensures var t := ChooseTicking(w, node, i, state, scope, ops);
            t == Err(RoutingLimit)
            || (t.Ok? && Choose(w, node, i, state, scope) == Ok(t.value.0))
            || (t.Err? && Choose(w, node, i, state, scope) == Err(t.error))
    decreases |node.cases| - i
  {
    if i < |node.cases| && ops < MAX_ROUTING_OPERATIONS {
      TickingAgrees(w, node, i + 1, state, scope, ops + 1);
    }
  }

  /** One round of routing, seen as a rewriting of what remains to be done.  `whole` is the meaning
      of the stack before the round; only the operation limit may lose it. */
  ghost predicate RoundMeaning<R>(c: Ctx<R>, whole: Outcome<R>, r: R, round: Progress)
    requires Ranked(c.p, c.rank)
  {
    match round
    case Again(next, _) => FramesOK(c.p, next) && whole == Resume(c, next, r)
    case Arrived(next, site, _) => FramesOK(c.p, next) && whole == AfterStep(c, next, site, r)
    case Failed(e) => e == RoutingLimit || whole == Stopped(r, e)
  }

  lemma EnterMeaning<R>(c: Ctx<R>, moved: seq<Frame>, flow: Flow, i: nat, id: string, target: Invocation,
                        scope: Scope, place: Place, r: R, ops: nat)
    requires !c.eager && Ready(c, moved) && HasFlow(c.p, flow) && i < |Body(c.p, flow)|
    requires ops <= MAX_ROUTING_OPERATIONS && target.subflow in Targets(Body(c.p, flow)[i])
    ensures RoundMeaning(c, Then(c, moved, ExecInvocation(c, flow, i, id, target, scope, place, r)), r,
                         Enter(c.w, c.p, moved, id, target, c.m.view(r), scope, place, ops))
  {
    TargetsBelow(c.p, c.rank, flow, i, target.subflow);
    var child := Bind(c.w, target, c.m.view(r), scope);
    if child.Ok? {
      var entry := Sequence(Some(target.subflow), 0, Some(child.value), Entered(c.w, place, id, target.subflow));
      assert FrameOK(c.p, entry);
      ResumePush(c, moved, entry, r);
    }
  }

  lemma NodeMeaning<R>(c: Ctx<R>, moved: seq<Frame>, flow: Flow, i: nat, scope: Scope, place: Place, r: R, ops: nat)
    requires !c.eager && Ready(c, moved) && HasFlow(c.p, flow) && i < |Body(c.p, flow)| && 0 < ops <= MAX_ROUTING_OPERATIONS
    ensures RoundMeaning(c, Then(c, moved, ExecNode(c, flow, i, scope, place, r)), r,
                         ActOn(c.w, c.p, c.m.view(r), moved, flow, i, scope, place, ops))
  {
    hide CompileStep, Choose, RepeatTimes, ExecInvocation, Enter, ExecRepeat;
    var node := Body(c.p, flow)[i];
    match node
    case Step(doc) =>
    case Call(id, target) => EnterMeaning(c, moved, flow, i, id, target, scope, place, r, ops);
    case Branch(id, _, _) =>
      TickingAgrees(c.w, node, 0, c.m.view(r), scope, ops);
      ChoiceIsTarget(c.w, node, 0, c.m.view(r), scope);
      var t := ChooseTicking(c.w, node, 0, c.m.view(r), scope, ops);
      if t.Ok? && t.value.0.Some? {
        EnterMeaning(c, moved, flow, i, id, t.value.0.value, scope, place, r, t.value.1);
      }
    case Repeat(_, _, _, _, _) =>
      var count := RepeatTimes(c.w, node, c.m.view(r), scope);
      if count.Ok? {
        RepeatTimesBounded(c.w, node, c.m.view(r), scope);
        ResumePush(c, moved, Repeating(flow, i, 0, count.value, scope, place), r);
      }
  }

  lemma SequenceRoundMeaning<R>(c: Ctx<R>, frames: seq<Frame>, r: R, ops: nat)
    requires !c.eager && Ready(c, frames) && frames != [] && ops <= MAX_ROUTING_OPERATIONS
    requires frames[|frames| - 1].Sequence?
    ensures RoundMeaning(c, Resume(c, frames, r), r, AdvanceSequence(c.w, c.p, c.m.view(r), frames, ops))
  {
    hide ExecNode, ActOn, Resume, RoundMeaning;
    var top, below := frames[|frames| - 1], frames[..|frames| - 1];
    var Sequence(flow, i, scope, place) := top;
    assert FrameOK(c.p, top) && frames == below + [top];
    ResumePush(c, below, top, r);
    if i < |Body(c.p, flow)| && ops < MAX_ROUTING_OPERATIONS {
      MovePast(c, below, flow, i, scope, place, r);
      NodeMeaning(c, below + [Sequence(flow, i + 1, scope, place)], flow, i, scope, place, r, ops + 1);
    } else {
      SequenceEnds(c, frames, below, r, ops);
    }
  }

  lemma SequenceEnds<R>(c: Ctx<R>, frames: seq<Frame>, below: seq<Frame>, r: R, ops: nat)
    requires !c.eager && Ready(c, frames) && frames != [] && ops <= MAX_ROUTING_OPERATIONS
    requires frames[|frames| - 1].Sequence? && below == frames[..|frames| - 1]
    requires FrameOK(c.p, frames[|frames| - 1])
    requires frames[|frames| - 1].index == |Body(c.p, frames[|frames| - 1].flow)| || ops == MAX_ROUTING_OPERATIONS
    ensures RoundMeaning(c, Resume(c, frames, r), r, AdvanceSequence(c.w, c.p, c.m.view(r), frames, ops))
  {
    hide ExecNode, ActOn;
  }

  /** The repetitions from top.next on, given the scope bound for the next one. */
  ghost function RepeatFrom<R>(c: Ctx<R>, top: Frame, bound: Result<map<string, Value>>, r: R): Outcome<R>
    requires Ranked(c.p, c.rank) && FrameOK(c.p, top) && top.Repeating? && top.next < top.count
    requires Body(c.p, top.flow)[top.index].target.subflow in c.p.subflows
  {
    var node := Body(c.p, top.flow)[top.index];
    match bound
    case Err(e) => Stopped(r, e)
    case Ok(child) =>
      ProceedRepeat(c, top.flow, top.index, top.next + 1, top.count, top.scope, top.place,
        EnterFlow(c, node.target.subflow, Some(child), EnteredRepetition(c.w, top.place, node.id, node.target.subflow, top.next), r))
  }

  lemma UnfoldRepeat<R>(c: Ctx<R>, top: Frame, r: R)
    requires Ranked(c.p, c.rank) && FrameOK(c.p, top) && top.Repeating? && top.next < top.count
    ensures var node := Body(c.p, top.flow)[top.index];
            node.target.subflow in c.p.subflows
            && ExecRepeat(c, top.flow, top.index, top.next, top.count, top.scope, top.place, r)
               == RepeatFrom(c, top, BindRepetition(c.w, node, top.next, c.m.view(r), top.scope), r)
  {
    TargetsBelow(c.p, c.rank, top.flow, top.index, Body(c.p, top.flow)[top.index].target.subflow);
  }

  lemma RepetitionMeaning<R>(c: Ctx<R>, below: seq<Frame>, top: Frame, bound: Result<map<string, Value>>, r: R, ops: nat)
    requires !c.eager && Ready(c, below) && FrameOK(c.p, top) && top.Repeating? && top.next < top.count
    requires Body(c.p, top.flow)[top.index].target.subflow in c.p.subflows && ops < MAX_ROUTING_OPERATIONS
    ensures RoundMeaning(c, Then(c, below, RepeatFrom(c, top, bound, r)), r, StartRepetition(c.w, c.p, below, top, bound, ops))
  {
    if bound.Ok? {
      var node := Body(c.p, top.flow)[top.index];
      var name := node.target.subflow;
      var entry := Sequence(Some(name), 0, Some(bound.value), EnteredRepetition(c.w, top.place, node.id, name, top.next));
      assert FrameOK(c.p, entry);
      var o := ExecSequence(c, Some(name), 0, Some(bound.value), entry.place, r);
      MovePastRepetition(c, below, top.flow, top.index, top.next + 1, top.count, top.scope, top.place, o);
      ResumePush(c, below + [Repeating(top.flow, top.index, top.next + 1, top.count, top.scope, top.place)], entry, r);
    }
  }

  lemma RepeatRoundMeaning<R>(c: Ctx<R>, frames: seq<Frame>, r: R, ops: nat)
    requires !c.eager && Ready(c, frames) && frames != [] && ops <= MAX_ROUTING_OPERATIONS
    requires frames[|frames| - 1].Repeating?
    ensures RoundMeaning(c, Resume(c, frames, r), r, AdvanceRepeat(c.w, c.p, c.m.view(r), frames, ops))
  {
    var top, below := frames[|frames| - 1], frames[..|frames| - 1];
    assert FrameOK(c.p, top);
    if top.next < top.count && ops < MAX_ROUTING_OPERATIONS {
      UnfoldRepeat(c, top, r);
      RepetitionMeaning(c, below, top,
        BindRepetition(c.w, Body(c.p, top.flow)[top.index], top.next, c.m.view(r), top.scope), r, ops);
    }
  }

  /** Routing an actor finds exactly the step the recursive interpreter would execute next, drains
      exactly when the interpreter is finished, and fails exactly as the interpreter fails. */
  ghost predicate RouteMeaning<R>(c: Ctx<R>, frames: seq<Frame>, r: R, routed: Routed)
    requires Ready(c, frames)
  {
    match routed
    case Drained(_) => Resume(c, frames, r) == Done(r)
    case Found(next, site, _) => FramesOK(c.p, next) && Resume(c, frames, r) == AfterStep(c, next, site, r)
    case Unroutable(e) => e == RoutingLimit || Resume(c, frames, r) == Stopped(r, e)
  }

  lemma {:induction false} RouteRefines<R>(c: Ctx<R>, frames: seq<Frame>, r: R, ops: nat)
    requires !c.eager && Ready(c, frames) && ops <= MAX_ROUTING_OPERATIONS
    ensures RouteMeaning(c, frames, r, Route(c.w, c.p, c.m.view(r), frames, ops))
    decreases MAX_ROUTING_OPERATIONS - ops, |frames|
  {
    if frames != [] {
      if frames[|frames| - 1].Repeating? {
        RepeatRoundMeaning(c, frames, r, ops);
      } else {
        SequenceRoundMeaning(c, frames, r, ops);
      }
      var round := Advance(c.w, c.p, c.m.view(r), frames, ops);
      if round.Again? {
        RouteRefines(c, round.frames, r, round.operations);
      }
    }
  }
}
