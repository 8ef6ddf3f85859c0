/** The static weight of a program bounds how many steps any run of it can commit, and the
    level of its sequences bounds how deep its frame stack can grow. */
module Weights {
  import opened Values
  import opened Expressions
  import opened Steps
  import opened Programs
  import opened Routing
  import opened Interpreter

  ghost function Larger(a: nat, b: nat): nat { if a < b then b else a }

  /** A step weighs 1, a call its body, a branch its heaviest case, a repeat max times its body. */
  ghost function SequenceWeight(p: Program, rank: map<string, nat>, flow: Flow, i: nat): nat
    requires Ranked(p, rank) && HasFlow(p, flow) && i <= |Body(p, flow)|
    decreases Level(p, rank, flow), |Body(p, flow)| - i, 2, 0
  {
    if i == |Body(p, flow)| then 0
    else NodeWeight(p, rank, flow, i) + SequenceWeight(p, rank, flow, i + 1)
  }

  ghost function NodeWeight(p: Program, rank: map<string, nat>, flow: Flow, i: nat): nat
    requires Ranked(p, rank) && HasFlow(p, flow) && i < |Body(p, flow)|
    decreases Level(p, rank, flow), |Body(p, flow)| - i, 1, 0
  {
    var node := Body(p, flow)[i];
    match node
    case Step(_) => 1
    case Call(_, _) => HeaviestTarget(p, rank, flow, i, 0)
    case Branch(_, _, _) => HeaviestTarget(p, rank, flow, i, 0)
    case Repeat(_, _, max, _, _) => Times(max, HeaviestTarget(p, rank, flow, i, 0))
  }

  ghost function HeaviestTarget(p: Program, rank: map<string, nat>, flow: Flow, i: nat, j: nat): nat
    requires Ranked(p, rank) && HasFlow(p, flow) && i < |Body(p, flow)| && j <= |Targets(Body(p, flow)[i])|
    decreases Level(p, rank, flow), |Body(p, flow)| - i, 0, |Targets(Body(p, flow)[i])| - j
  {
    var targets := Targets(Body(p, flow)[i]);
    if j == |targets| then 0
    else
      TargetsBelow(p, rank, flow, i, targets[j]);
      Larger(SequenceWeight(p, rank, Some(targets[j]), 0), HeaviestTarget(p, rank, flow, i, j + 1))
  }

  lemma {:induction false} TargetWeight(p: Program, rank: map<string, nat>, flow: Flow, i: nat, j: nat, t: string)
    requires Ranked(p, rank) && HasFlow(p, flow) && i < |Body(p, flow)|
    requires j <= |Targets(Body(p, flow)[i])| && t in Targets(Body(p, flow)[i])[j..]
    ensures t in p.subflows && SequenceWeight(p, rank, Some(t), 0) <= HeaviestTarget(p, rank, flow, i, j)
    decreases |Targets(Body(p, flow)[i])| - j
  {
    hide SequenceWeight;
    var targets := Targets(Body(p, flow)[i]);
    TargetsBelow(p, rank, flow, i, targets[j]);
    if t != targets[j] {
      assert targets[j..][1..] == targets[j + 1..];
      TargetWeight(p, rank, flow, i, j + 1, t);
    }
  }

  /** A step semantics with a counter of committed steps. */
  datatype Meter<!R> = Meter(c: Ctx<R>, count: R -> nat)

  ghost predicate Counts<R(!new)>(m: Meter<R>) {
    Ranked(m.c.p, m.c.rank)
    && forall site, r {:trigger m.c.m.exec(site, r)} ::
         m.c.m.exec(site, r).Ok? ==> m.count(m.c.m.exec(site, r).value) == m.count(r) + 1
  }

  ghost predicate Within<R>(m: Meter<R>, r: R, o: Outcome<R>, weight: nat) {
    m.count(r) <= m.count(o.runner) <= m.count(r) + weight
  }

  lemma {:induction false} SequenceWithin<R(!new)>(m: Meter<R>, flow: Flow, i: nat, scope: Scope, place: Place, r: R)
    requires Counts(m) && HasFlow(m.c.p, flow) && i <= |Body(m.c.p, flow)|
    ensures Within(m, r, ExecSequence(m.c, flow, i, scope, place, r), SequenceWeight(m.c.p, m.c.rank, flow, i))
    decreases Level(m.c.p, m.c.rank, flow), |Body(m.c.p, flow)| - i, 2, 0
  {
    hide ExecNode, NodeWeight;
    if i < |Body(m.c.p, flow)| {
      NodeWithin(m, flow, i, scope, place, r);
      var o := ExecNode(m.c, flow, i, scope, place, r);
      if o.Done? { SequenceWithin(m, flow, i + 1, scope, place, o.runner); }
    }
  }

  lemma {:induction false} EnterWithin<R(!new)>(m: Meter<R>, name: string, child: Scope, place: Place, r: R)
    requires Counts(m) && name in m.c.p.subflows
    ensures Within(m, r, EnterFlow(m.c, name, child, place, r), SequenceWeight(m.c.p, m.c.rank, Some(name), 0))
    decreases m.c.rank[name], |m.c.p.subflows[name]| + 1, 0, 0
  {
    hide CompileSequence, ExecSequence, SequenceWeight;
    SequenceWithin(m, Some(name), 0, child, place, r);
  }

  lemma {:induction false} InvocationWithin<R(!new)>(m: Meter<R>, flow: Flow, i: nat, id: string, target: Invocation, scope: Scope, place: Place, r: R)
    requires Counts(m) && HasFlow(m.c.p, flow) && i < |Body(m.c.p, flow)|
    requires target.subflow in Targets(Body(m.c.p, flow)[i])
    ensures Within(m, r, ExecInvocation(m.c, flow, i, id, target, scope, place, r), HeaviestTarget(m.c.p, m.c.rank, flow, i, 0))
    decreases Level(m.c.p, m.c.rank, flow), |Body(m.c.p, flow)| - i, 0, 0
  {
    hide Bind, EnterFlow, SequenceWeight, HeaviestTarget;
    TargetsBelow(m.c.p, m.c.rank, flow, i, target.subflow);
    TargetWeight(m.c.p, m.c.rank, flow, i, 0, target.subflow);
    var child := Bind(m.c.w, target, m.c.m.view(r), scope);
    if child.Ok? {
      EnterWithin(m, target.subflow, Some(child.value), Entered(m.c.w, place, id, target.subflow), r);
    }
  }

  ghost function Times(n: nat, weight: nat): nat {
    n * weight
  }

  lemma AddOne(n: nat, b: nat)
    requires n > 0
    ensures b + Times(n - 1, b) == Times(n, b)
  {
  }

  lemma {:induction false} RepeatWithin<R(!new)>(m: Meter<R>, flow: Flow, i: nat, k: nat, count: nat, scope: Scope, place: Place, r: R, weight: nat)
    requires Counts(m) && HasFlow(m.c.p, flow) && i < |Body(m.c.p, flow)|
    requires Body(m.c.p, flow)[i].Repeat? && k <= count
    requires weight == HeaviestTarget(m.c.p, m.c.rank, flow, i, 0)
    ensures Within(m, r, ExecRepeat(m.c, flow, i, k, count, scope, place, r), Times(count - k, weight))
    decreases Level(m.c.p, m.c.rank, flow), |Body(m.c.p, flow)| - i, 0, count - k
  {
    hide BindRepetition, EnterFlow, SequenceWeight, HeaviestTarget, Times;
    if k < count {
      var node := Body(m.c.p, flow)[i];
      var name := node.target.subflow;
      TargetsBelow(m.c.p, m.c.rank, flow, i, name);
      TargetWeight(m.c.p, m.c.rank, flow, i, 0, name);
      AddOne(count - k, weight);
      var child := BindRepetition(m.c.w, node, k, m.c.m.view(r), scope);
      if child.Ok? {
        var entered := EnteredRepetition(m.c.w, place, node.id, name, k);
        EnterWithin(m, name, Some(child.value), entered, r);
        var o := EnterFlow(m.c, name, Some(child.value), entered, r);
        if o.Done? { RepeatWithin(m, flow, i, k + 1, count, scope, place, o.runner, weight); }
      }
    }
  }

  lemma ScaleUp(a: nat, b: nat, weight: nat)
    requires a <= b
    ensures Times(a, weight) <= Times(b, weight)
  {
  }

  lemma {:induction false} NodeWithin<R(!new)>(m: Meter<R>, flow: Flow, i: nat, scope: Scope, place: Place, r: R)
    requires Counts(m) && HasFlow(m.c.p, flow) && i < |Body(m.c.p, flow)|
    ensures Within(m, r, ExecNode(m.c, flow, i, scope, place, r), NodeWeight(m.c.p, m.c.rank, flow, i))
    decreases Level(m.c.p, m.c.rank, flow), |Body(m.c.p, flow)| - i, 1, 0
  {
    hide CompileStep, Choose, RepeatTimes, ExecInvocation, ExecRepeat, HeaviestTarget, Times;
    var node, state := Body(m.c.p, flow)[i], m.c.m.view(r);
    match node
    case Step(doc) =>
    case Call(id, target) => InvocationWithin(m, flow, i, id, target, scope, place, r);
    case Branch(id, _, _) =>
      ChoiceIsTarget(m.c.w, node, 0, state, scope);
      var choice := Choose(m.c.w, node, 0, state, scope);
      if choice.Ok? && choice.value.Some? {
        InvocationWithin(m, flow, i, id, choice.value.value, scope, place, r);
      }
    case Repeat(_, _, max, _, _) =>
      var count := RepeatTimes(m.c.w, node, state, scope);
      if count.Ok? {
        RepeatTimesBounded(m.c.w, node, state, scope);
        var weight := HeaviestTarget(m.c.p, m.c.rank, flow, i, 0);
        RepeatWithin(m, flow, i, 0, count.value, scope, place, r, weight);
        ScaleUp(count.value, max, weight);
      }
  }

  /** The static weight of a whole program. */
  ghost function Weight(p: Program, rank: map<string, nat>): nat
    requires Ranked(p, rank)
  {
    SequenceWeight(p, rank, None, 0)
  }

  // ---------------------------------------------------------------- stack height

  /** Levels fall from each frame to the one above it, a repeat frame standing between the
      sequence it belongs to and the sequence it enters. */
  ghost predicate Nested(p: Program, rank: map<string, nat>, frames: seq<Frame>)
    requires Ranked(p, rank)
  {
    && FramesOK(p, frames)
    && (frames != [] ==> frames[0].Sequence?)
    && forall i :: 0 < i < |frames| ==> Above(p, rank, frames[i - 1], frames[i])
  }

  ghost predicate Above(p: Program, rank: map<string, nat>, low: Frame, high: Frame)
    requires Ranked(p, rank)
  {
    && HasFlow(p, low.flow) && HasFlow(p, high.flow)
    && match high
       case Repeating(flow, index, _, _, _, _) =>
         low.Sequence? && low.flow == flow
         && index < |Body(p, flow)| && Body(p, flow)[index].Repeat?
       case Sequence(flow, _, _, _) => Level(p, rank, flow) < Level(p, rank, low.flow)
  }

  /** Height of a nested stack whose top is at a given level. */
  lemma {:induction false} NestedHeight(p: Program, rank: map<string, nat>, frames: seq<Frame>)
    requires Ranked(p, rank) && Nested(p, rank, frames) && frames != []
    ensures var top := frames[|frames| - 1];
            |frames| <= (if top.Sequence? then 1 else 2) + 2 * (|p.subflows| - Level(p, rank, top.flow))
    decreases |frames|
  {
    var top := frames[|frames| - 1];
    assert FrameOK(p, top);
    if |frames| > 1 {
      var below := frames[..|frames| - 1];
      assert Nested(p, rank, below) by {
        forall i | 0 < i < |below| ensures Above(p, rank, below[i - 1], below[i]) {
          assert Above(p, rank, frames[i - 1], frames[i]);
        }
      }
      assert Above(p, rank, frames[|frames| - 2], top);
      NestedHeight(p, rank, below);
    }
  }

  /** No reachable stack is higher than one frame per sequence on a falling chain and one repeat between each. */
  lemma StackHeight(p: Program, rank: map<string, nat>, frames: seq<Frame>)
    requires Ranked(p, rank) && Nested(p, rank, frames)
    ensures |frames| <= 1 + 2 * |p.subflows|
  {
    if frames != [] {
      NestedHeight(p, rank, frames);
      var top := frames[|frames| - 1];
      assert FrameOK(p, top);
      if top.Repeating? {
        TargetsBelow(p, rank, top.flow, top.index, Body(p, top.flow)[top.index].target.subflow);
      }
    }
  }

  lemma PushNested(p: Program, rank: map<string, nat>, frames: seq<Frame>, f: Frame)
    requires Ranked(p, rank) && Nested(p, rank, frames) && FrameOK(p, f)
    requires frames != [] && Above(p, rank, frames[|frames| - 1], f)
    ensures Nested(p, rank, frames + [f])
  {
    var next := frames + [f];
    forall i | 0 < i < |next| ensures Above(p, rank, next[i - 1], next[i]) {
      if i < |frames| { assert Above(p, rank, frames[i - 1], frames[i]); }
    }
  }

  lemma PopNested(p: Program, rank: map<string, nat>, frames: seq<Frame>)
    requires Ranked(p, rank) && Nested(p, rank, frames) && frames != []
    ensures Nested(p, rank, frames[..|frames| - 1])
  {
    var below := frames[..|frames| - 1];
    forall i | 0 < i < |below| ensures Above(p, rank, below[i - 1], below[i]) {
      assert Above(p, rank, frames[i - 1], frames[i]);
    }
  }

  /** Replacing the top frame by one of the same kind in the same sequence. */
  lemma MoveNested(p: Program, rank: map<string, nat>, frames: seq<Frame>, f: Frame)
    requires Ranked(p, rank) && Nested(p, rank, frames) && frames != [] && FrameOK(p, f)
    requires var top := frames[|frames| - 1]; f.flow == top.flow && f.Sequence? == top.Sequence?
                                              && (f.Repeating? ==> f.index == top.index)
    ensures Nested(p, rank, frames[..|frames| - 1] + [f])
  {
    PopNested(p, rank, frames);
    if |frames| > 1 {
      assert Above(p, rank, frames[|frames| - 2], frames[|frames| - 1]);
      PushNested(p, rank, frames[..|frames| - 1], f);
    }
  }

  lemma AdvanceNested(w: World, p: Program, rank: map<string, nat>, state: State, frames: seq<Frame>, ops: nat)
    requires Ranked(p, rank) && Nested(p, rank, frames) && frames != [] && ops <= MAX_ROUTING_OPERATIONS
    ensures var r := Advance(w, p, state, frames, ops);
            (r.Again? || r.Arrived?) ==> Nested(p, rank, r.frames)
  {
    hide AdvanceRepeat, AdvanceSequence;
    if frames[|frames| - 1].Repeating? {
      AdvanceRepeatNested(w, p, rank, state, frames, ops);
    } else {
      AdvanceSequenceNested(w, p, rank, state, frames, ops);
    }
  }

  lemma AdvanceRepeatNested(w: World, p: Program, rank: map<string, nat>, state: State, frames: seq<Frame>, ops: nat)
    requires Ranked(p, rank) && FramesOK(p, frames) && Nested(p, rank, frames) && frames != [] && ops <= MAX_ROUTING_OPERATIONS
    requires frames[|frames| - 1].Repeating?
    ensures var r := AdvanceRepeat(w, p, state, frames, ops);
            r.Again? ==> Nested(p, rank, r.frames)
  {
    hide BindRepetition, Nested, Ranked;
    var top, below := frames[|frames| - 1], frames[..|frames| - 1];
    assert FrameOK(p, top);
    PopNested(p, rank, frames);
    if top.next < top.count {
      var next := Repeating(top.flow, top.index, top.next + 1, top.count, top.scope, top.place);
      MoveNested(p, rank, frames, next);
      var node := Body(p, top.flow)[top.index];
      TargetsBelow(p, rank, top.flow, top.index, node.target.subflow);
      var entry := (child: map<string, Value>) =>
        Sequence(Some(node.target.subflow), 0, Some(child), EnteredRepetition(w, top.place, node.id, node.target.subflow, top.next));
      forall child: map<string, Value> ensures Nested(p, rank, (below + [next]) + [entry(child)]) {
        PushNested(p, rank, below + [next], entry(child));
      }
      var bound := BindRepetition(w, node, top.next, state, top.scope);
      if bound.Ok? { assert PushRepetition(w, p, below, top, bound.value) == (below + [next]) + [entry(bound.value)]; }
    }
  }

  lemma AdvanceSequenceNested(w: World, p: Program, rank: map<string, nat>, state: State, frames: seq<Frame>, ops: nat)
    requires Ranked(p, rank) && FramesOK(p, frames) && Nested(p, rank, frames) && frames != [] && ops <= MAX_ROUTING_OPERATIONS
    requires frames[|frames| - 1].Sequence?
    ensures var r := AdvanceSequence(w, p, state, frames, ops);
            (r.Again? || r.Arrived?) ==> Nested(p, rank, r.frames)
  {
    hide ActOn, Nested, Ranked;
    var top, below := frames[|frames| - 1], frames[..|frames| - 1];
    assert FrameOK(p, top);
    PopNested(p, rank, frames);
    if top.index < |Body(p, top.flow)| && ops < MAX_ROUTING_OPERATIONS {
      var next := Sequence(top.flow, top.index + 1, top.scope, top.place);
      assert FrameOK(p, next);
      MoveNested(p, rank, frames, next);
      ActOnNested(w, p, rank, state, below + [next], top.flow, top.index, top.scope, top.place, ops + 1);
    }
  }

  lemma EnterNested(w: World, p: Program, rank: map<string, nat>, moved: seq<Frame>, i: nat, id: string, target: Invocation,
                    state: State, scope: Scope, place: Place, ops: nat)
    requires Ranked(p, rank) && Nested(p, rank, moved) && moved != [] && ops <= MAX_ROUTING_OPERATIONS
    requires var flow := moved[|moved| - 1].flow;
             HasFlow(p, flow) && i < |Body(p, flow)| && target.subflow in Targets(Body(p, flow)[i])
    ensures var r := Enter(w, p, moved, id, target, state, scope, place, ops);
            r.Again? ==> Nested(p, rank, r.frames)
  {
    hide Bind;
    TargetsBelow(p, rank, moved[|moved| - 1].flow, i, target.subflow);
    var r := Enter(w, p, moved, id, target, state, scope, place, ops);
    if r.Again? { PushNested(p, rank, moved, r.frames[|r.frames| - 1]); }
  }

  lemma ActOnNested(w: World, p: Program, rank: map<string, nat>, state: State, moved: seq<Frame>, flow: Flow, i: nat,
                    scope: Scope, place: Place, ops: nat)
    requires Ranked(p, rank) && Nested(p, rank, moved) && moved != [] && 0 < ops <= MAX_ROUTING_OPERATIONS
    requires moved[|moved| - 1].Sequence? && moved[|moved| - 1].flow == flow && HasFlow(p, flow) && i < |Body(p, flow)|
    ensures var r := ActOn(w, p, state, moved, flow, i, scope, place, ops);
            (r.Again? || r.Arrived?) ==> Nested(p, rank, r.frames)
  {
    hide CompileStep, RepeatTimes, Bind, ChooseTicking, Choose, Enter;
    var node := Body(p, flow)[i];
    match node
    case Step(doc) =>
    case Call(id, target) => EnterNested(w, p, rank, moved, i, id, target, state, scope, place, ops);
    case Branch(id, _, _) =>
      TickingAgrees(w, node, 0, state, scope, ops);
      ChoiceIsTarget(w, node, 0, state, scope);
      var t := ChooseTicking(w, node, 0, state, scope, ops);
      if t.Ok? && t.value.0.Some? {
        EnterNested(w, p, rank, moved, i, id, t.value.0.value, state, scope, place, t.value.1);
      }
    case Repeat(_, _, _, _, _) =>
      var count := RepeatTimes(w, node, state, scope);
      if count.Ok? {
        RepeatTimesBounded(w, node, state, scope);
        PushNested(p, rank, moved, Repeating(flow, i, 0, count.value, scope, place));
      }
  }

  /** The height of the highest stack one routing call passes through. */
  ghost function Peak(w: World, p: Program, state: State, frames: seq<Frame>, ops: nat): nat
    requires FramesOK(p, frames) && ops <= MAX_ROUTING_OPERATIONS
    decreases MAX_ROUTING_OPERATIONS - ops, |frames|
  {
    if frames == [] then 0
    else
      match Advance(w, p, state, frames, ops)
      case Again(next, ticks) => Higher(|frames|, Peak(w, p, state, next, ticks))
      case Arrived(next, _, _) => Higher(|frames|, |next|)
      case Failed(_) => |frames|
  }

  function Higher(a: nat, b: nat): nat {
    if a < b then b else a
  }

  /** Every stack routing passes through, and the one it leaves behind, obeys the height bound. */
  lemma {:induction false} RouteNested(w: World, p: Program, rank: map<string, nat>, state: State, frames: seq<Frame>, ops: nat)
    requires Ranked(p, rank) && Nested(p, rank, frames) && ops <= MAX_ROUTING_OPERATIONS
    ensures |frames| <= 1 + 2 * |p.subflows| && Peak(w, p, state, frames, ops) <= 1 + 2 * |p.subflows|
    ensures var r := Route(w, p, state, frames, ops);
            r.Found? ==> Nested(p, rank, r.frames)
    decreases MAX_ROUTING_OPERATIONS - ops, |frames|
  {
    hide Advance;
    StackHeight(p, rank, frames);
    if frames != [] {
      AdvanceNested(w, p, rank, state, frames, ops);
      var r := Advance(w, p, state, frames, ops);
      if r.Again? {
        RouteNested(w, p, rank, state, r.frames, r.operations);
      } else if r.Arrived? {
        StackHeight(p, rank, r.frames);
      }
    }
  }
}
