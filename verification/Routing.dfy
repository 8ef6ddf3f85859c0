/** The frame-stack machine that resolves one actor to its next executable step. */
module Routing {
  import opened Values
  import opened Expressions
  import opened Steps
  import opened Programs

  const MAX_ROUTING_OPERATIONS: nat := 4096

  /** The scope is fixed on entry; `index` is the next node and `next` the next repetition. */
  datatype Frame =
    | Sequence(flow: Flow, index: nat, scope: Scope, place: Place)
    | Repeating(flow: Flow, index: nat, next: nat, count: nat, scope: Scope, place: Place)

  predicate FrameOK(p: Program, f: Frame) {
    && HasFlow(p, f.flow)
    && match f
       case Sequence(flow, index, _, _) => index <= |Body(p, flow)|
       case Repeating(flow, index, next, count, _, _) =>
         index < |Body(p, flow)| && Body(p, flow)[index].Repeat? && next <= count <= Body(p, flow)[index].max
  }

  predicate FramesOK(p: Program, frames: seq<Frame>) {
    forall i :: 0 <= i < |frames| ==> FrameOK(p, frames[i])
  }

  function Start(p: Program): seq<Frame> {
    [Sequence(None, 0, None, ROOT_PLACE)]
  }

  datatype Routed =
    | Drained(operations: nat)
    | Found(frames: seq<Frame>, site: Site, operations: nat)
    | Unroutable(error: Error)

  datatype Progress =
    | Again(frames: seq<Frame>, operations: nat)
    | Arrived(frames: seq<Frame>, site: Site, operations: nat)
    | Failed(error: Error)

  /** Ordered branch conditions, one tick each, then nothing or the chosen target. */
  function ChooseTicking(w: World, node: Node, i: nat, state: State, scope: Scope, ops: nat): Result<(Option<Invocation>, nat)>
    requires node.Branch? && i <= |node.cases| && ops <= MAX_ROUTING_OPERATIONS
    ensures var r := ChooseTicking(w, node, i, state, scope, ops);
            r.Ok? ==> ops <= r.value.1 <= MAX_ROUTING_OPERATIONS
    decreases |node.cases| - i
  {
    if i == |node.cases| then Ok((node.otherwise, ops))
    else if ops >= MAX_ROUTING_OPERATIONS then Err(RoutingLimit)
    else
      var hit :- Condition(w, node.cases[i].when, state, scope);
      if hit then Ok((Some(node.cases[i].target), ops + 1))
      else ChooseTicking(w, node, i + 1, state, scope, ops + 1)
  }

  /** Tick, bind the target's scope against the current state, push the subflow's frame. */
  function Enter(w: World, p: Program, frames: seq<Frame>, control: string, target: Invocation,
                 state: State, scope: Scope, place: Place, ops: nat): (r: Progress)
    requires FramesOK(p, frames) && ops <= MAX_ROUTING_OPERATIONS
    ensures r.Again? ==> FramesOK(p, r.frames) && ops < r.operations <= MAX_ROUTING_OPERATIONS
    ensures !r.Arrived?
  {
    if ops >= MAX_ROUTING_OPERATIONS then Failed(RoutingLimit)
    else
      match Bind(w, target, state, scope)
      case Err(e) => Failed(e)
      case Ok(child) =>
        if target.subflow !in p.subflows then Failed(NativeKeyError)
        else Again(frames + [Sequence(Some(target.subflow), 0, Some(child), Entered(w, place, control, target.subflow))], ops + 1)
  }

  /** The advanced repeat frame with the frame of its next repetition on top. */
  function PushRepetition(w: World, p: Program, below: seq<Frame>, top: Frame, child: map<string, Value>): (pushed: seq<Frame>)
    requires FramesOK(p, below) && FrameOK(p, top) && top.Repeating? && top.next < top.count
    requires Body(p, top.flow)[top.index].target.subflow in p.subflows
    ensures FramesOK(p, pushed)
  {
    var node := Body(p, top.flow)[top.index];
    below
    + [Repeating(top.flow, top.index, top.next + 1, top.count, top.scope, top.place)]
    + [Sequence(Some(node.target.subflow), 0, Some(child),
                EnteredRepetition(w, top.place, node.id, node.target.subflow, top.next))]
  }

  /** Second tick of a repetition: its subflow is entered with the scope just bound. */
  function StartRepetition(w: World, p: Program, below: seq<Frame>, top: Frame, bound: Result<map<string, Value>>, ops: nat): (r: Progress)
    requires FramesOK(p, below) && FrameOK(p, top) && top.Repeating? && top.next < top.count && ops < MAX_ROUTING_OPERATIONS
    ensures r.Again? ==> FramesOK(p, r.frames) && r.operations == ops + 2 <= MAX_ROUTING_OPERATIONS
    ensures !r.Arrived?
  {
    if bound.Err? then Failed(bound.error)
    else if ops + 1 >= MAX_ROUTING_OPERATIONS then Failed(RoutingLimit)
    else if Body(p, top.flow)[top.index].target.subflow !in p.subflows then Failed(NativeKeyError)
    else Again(PushRepetition(w, p, below, top, bound.value), ops + 2)
  }

  /** A repeat frame: leave it when exhausted, otherwise start one more repetition. */
  function AdvanceRepeat(w: World, p: Program, state: State, frames: seq<Frame>, ops: nat): (r: Progress)
    requires frames != [] && FramesOK(p, frames) && ops <= MAX_ROUTING_OPERATIONS
    requires frames[|frames| - 1].Repeating?
    ensures r.Again? ==> FramesOK(p, r.frames) && ops <= r.operations <= MAX_ROUTING_OPERATIONS
    ensures r.Again? ==> r.operations > ops || |r.frames| < |frames|
    ensures !r.Arrived?
  {
    var top, below := frames[|frames| - 1], frames[..|frames| - 1];
    assert FrameOK(p, top);
    if top.next >= top.count then Again(below, ops)
    else if ops >= MAX_ROUTING_OPERATIONS then Failed(RoutingLimit)
    else
      var bound := BindRepetition(w, Body(p, top.flow)[top.index], top.next, state, top.scope);
      StartRepetition(w, p, below, top, bound, ops)
  }

  /** Acts on the node just moved past: compile and stop at a step, enter a subflow, or start a repeat. */
  function ActOn(w: World, p: Program, state: State, moved: seq<Frame>, flow: Flow, index: nat, scope: Scope, place: Place, ops: nat): (r: Progress)
    requires FramesOK(p, moved) && HasFlow(p, flow) && index < |Body(p, flow)| && 0 < ops <= MAX_ROUTING_OPERATIONS
    ensures r.Again? ==> FramesOK(p, r.frames) && ops <= r.operations <= MAX_ROUTING_OPERATIONS
    ensures r.Arrived? ==> FramesOK(p, r.frames)
  {
    var node := Body(p, flow)[index];
    match node
    case Step(doc) =>
      (match CompileStep(w, doc, scope)
       case Err(e) => Failed(e)
       case Ok(spec) => Arrived(moved, Site(spec, scope, place), ops))
    case Call(id, target) => Enter(w, p, moved, id, target, state, scope, place, ops)
    case Branch(id, _, _) =>
      (match ChooseTicking(w, node, 0, state, scope, ops)
       case Err(e) => Failed(e)
       case Ok((None, ticks)) => Again(moved, ticks)
       case Ok((Some(target), ticks)) => Enter(w, p, moved, id, target, state, scope, place, ticks))
    case Repeat(_, _, _, _, _) =>
      (match RepeatTimes(w, node, state, scope)
       case Err(e) => Failed(e)
       case Ok(count) =>
         if ops >= MAX_ROUTING_OPERATIONS then Failed(RoutingLimit)
         else Again(moved + [Repeating(flow, index, 0, count, scope, place)], ops + 1))
  }

  /** A sequence frame: leave it at its end, otherwise move past the next node and act on it. */
  function AdvanceSequence(w: World, p: Program, state: State, frames: seq<Frame>, ops: nat): (r: Progress)
    requires frames != [] && FramesOK(p, frames) && ops <= MAX_ROUTING_OPERATIONS
    requires frames[|frames| - 1].Sequence?
    ensures r.Again? ==> FramesOK(p, r.frames) && ops <= r.operations <= MAX_ROUTING_OPERATIONS
    ensures r.Again? ==> r.operations > ops || |r.frames| < |frames|
    ensures r.Arrived? ==> FramesOK(p, r.frames)
  {
    var top, below := frames[|frames| - 1], frames[..|frames| - 1];
    assert FrameOK(p, top);
    if top.index >= |Body(p, top.flow)| then Again(below, ops)
    else if ops >= MAX_ROUTING_OPERATIONS then Failed(RoutingLimit)
    else
      var moved := below + [Sequence(top.flow, top.index + 1, top.scope, top.place)];
      ActOn(w, p, state, moved, top.flow, top.index, top.scope, top.place, ops + 1)
  }

  function Advance(w: World, p: Program, state: State, frames: seq<Frame>, ops: nat): (r: Progress)
    requires frames != [] && FramesOK(p, frames) && ops <= MAX_ROUTING_OPERATIONS
    ensures r.Again? ==> FramesOK(p, r.frames) && ops <= r.operations <= MAX_ROUTING_OPERATIONS
    ensures r.Again? ==> r.operations > ops || |r.frames| < |frames|
    ensures r.Arrived? ==> FramesOK(p, r.frames)
  {
    if frames[|frames| - 1].Repeating? then AdvanceRepeat(w, p, state, frames, ops)
    else AdvanceSequence(w, p, state, frames, ops)
  }

  /** Routing ends on every program, also on one whose subflows call each other in a circle:
      each round spends an operation or drops a frame. */
  function Route(w: World, p: Program, state: State, frames: seq<Frame>, ops: nat): (r: Routed)
    requires FramesOK(p, frames) && ops <= MAX_ROUTING_OPERATIONS
    ensures r.Found? ==> FramesOK(p, r.frames)
    decreases MAX_ROUTING_OPERATIONS - ops, |frames|
  {
    if frames == [] then Drained(ops)
    else
      match Advance(w, p, state, frames, ops)
      case Again(next, ticks) => Route(w, p, state, next, ticks)
      case Arrived(next, site, ticks) => Found(next, site, ticks)
      case Failed(e) => Unroutable(e)
  }
}
