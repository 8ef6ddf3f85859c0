/** What one routing call spends: every round's operations follow from the node it handles, and only
    a round that does not fit the limit fails for it. */
module RoutingCosts {
  import opened Values
  import opened Expressions
  import opened Steps
  import opened Programs
  import opened Routing
  import opened ControlMeaning

  /** Some subflow is entered: a case holds, or none does and there is an else target. */
  ghost predicate Takes(w: World, node: Node, state: State, scope: Scope)
    requires node.Branch?
  {
    || (exists k: nat :: Chosen(w, node, state, scope, 0, k))
    || (AllFalse(w, node, state, scope, 0, |node.cases|) && node.otherwise.Some?)
  }

  /** One operation to move past a node, one for each condition evaluated, one to enter a subflow or
      to open a repeat. */
  ghost predicate Costs(w: World, node: Node, state: State, scope: Scope, spent: nat) {
    match node
    case Step(_) => spent == 1
    case Call(_, _) => spent == 2
    case Branch(_, _, _) =>
      exists n: nat :: Evaluates(w, node, state, scope, n) && spent == 1 + n + if Takes(w, node, state, scope) then 1 else 0
    case Repeat(_, _, _, _, _) => spent == 2
  }

  predicate CannotEnter(w: World, p: Program, target: Invocation, state: State, scope: Scope, x: Error) {
    Bind(w, target, state, scope) == Err(x) || (x == NativeKeyError && target.subflow !in p.subflows)
  }

  /** The node's own failure, whatever the limit. */
  predicate CannotPass(w: World, p: Program, node: Node, state: State, scope: Scope, x: Error) {
    match node
    case Step(doc) => CompileStep(w, doc, scope) == Err(x)
    case Call(_, target) => CannotEnter(w, p, target, state, scope, x)
    case Branch(_, _, _) =>
      (match Choose(w, node, 0, state, scope)
       case Err(y) => x == y
       case Ok(None) => false
       case Ok(Some(target)) => CannotEnter(w, p, target, state, scope, x))
    case Repeat(_, _, _, _, _) => RepeatTimes(w, node, state, scope) == Err(x)
  }

  lemma BranchCost(w: World, node: Node, state: State, scope: Scope, ops: nat) returns (n: nat)
    requires node.Branch? && ops <= MAX_ROUTING_OPERATIONS
    ensures Evaluates(w, node, state, scope, n)
    ensures ChooseTicking(w, node, 0, state, scope, ops)
            == if ops + n > MAX_ROUTING_OPERATIONS then Err(RoutingLimit)
               else match Choose(w, node, 0, state, scope)
                    case Err(x) => Err(x)
                    case Ok(t) => Ok((t, ops + n))
    ensures var t := Choose(w, node, 0, state, scope); t.Ok? ==> (t.value.Some? <==> Takes(w, node, state, scope))
  {
    hide AnswerAt, Choose, ChooseTicking;
    var i := FirstCase(w, node, state, scope, 0);
    n := if i < |node.cases| then i + 1 else i;
    TickingExactly(w, node, state, scope, ops, n);
    var t := Choose(w, node, 0, state, scope);
    BranchExactly(w, node, state, scope, 0, t);
    if AllFalse(w, node, state, scope, 0, |node.cases|) {
      BranchExactly(w, node, state, scope, 0, Ok(node.otherwise));
    }
    if k: nat :| Chosen(w, node, state, scope, 0, k) {
      assert AnswerAt(w, node, state, scope, k) == Ok(Bool(true));
    }
  }

  /** Moving past a node costs what the node does; a round fails by its node, or because that does
      not fit the limit. */
  lemma NodeCosts(w: World, p: Program, state: State, frames: seq<Frame>, ops: nat)
    requires frames != [] && FramesOK(p, frames) && ops <= MAX_ROUTING_OPERATIONS && frames[|frames| - 1].Sequence?
    requires FrameOK(p, frames[|frames| - 1]) && frames[|frames| - 1].index < |Body(p, frames[|frames| - 1].flow)|
    ensures var top := frames[|frames| - 1];
            var node := Body(p, top.flow)[top.index];
            match Advance(w, p, state, frames, ops)
            case Again(_, spent) => !node.Step? && spent >= ops && Costs(w, node, state, top.scope, spent - ops)
            case Arrived(_, _, spent) => node.Step? && spent == ops + 1
            case Failed(x) =>
              || CannotPass(w, p, node, state, top.scope, x)
              || (x == RoutingLimit && exists spent: nat :: Costs(w, node, state, top.scope, spent) && ops + spent > MAX_ROUTING_OPERATIONS)
  {
    hide CompileStep, Choose, ChooseTicking, RepeatTimes, Bind, Evaluates, Takes;
    var top := frames[|frames| - 1];
    var node := Body(p, top.flow)[top.index];
    match node
    case Step(_) => assert Costs(w, node, state, top.scope, 1);
    case Call(_, _) => assert Costs(w, node, state, top.scope, 2);
    case Repeat(_, _, _, _, _) => assert Costs(w, node, state, top.scope, 2);
    case Branch(_, _, _) =>
      var n := BranchCost(w, node, state, top.scope, if ops < MAX_ROUTING_OPERATIONS then ops + 1 else ops);
      assert Costs(w, node, state, top.scope, 1 + n + if Takes(w, node, state, top.scope) then 1 else 0);
  }

  /** Leaving a frame is free; a repetition costs one operation to bind and one to enter. */
  lemma RepetitionCosts(w: World, p: Program, state: State, frames: seq<Frame>, ops: nat)
    requires frames != [] && FramesOK(p, frames) && ops <= MAX_ROUTING_OPERATIONS && FrameOK(p, frames[|frames| - 1])
    ensures var top, r := frames[|frames| - 1], Advance(w, p, state, frames, ops);
            && (top.Sequence? && top.index == |Body(p, top.flow)| ==> r == Again(frames[..|frames| - 1], ops))
            && (top.Repeating? && top.next == top.count ==> r == Again(frames[..|frames| - 1], ops))
            && (top.Repeating? && top.next < top.count ==>
                  && (r.Again? ==> r.operations == ops + 2)
                  && (r.Failed? ==>
                        var node := Body(p, top.flow)[top.index];
                        || BindRepetition(w, node, top.next, state, top.scope) == Err(r.error)
                        || (r.error == NativeKeyError && node.target.subflow !in p.subflows)
                        || (r.error == RoutingLimit && ops + 2 > MAX_ROUTING_OPERATIONS)))
  {
    hide BindRepetition, ActOn;
  }
}
