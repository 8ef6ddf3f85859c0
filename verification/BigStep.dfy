/** The big-step meaning of structured control, stated as a relation: a sequence runs its nodes one
    after the other along a chain of runners, a repeat its repetitions, an invocation its subflow in
    the scope it binds, and the first node that does not finish ends everything.  The interpreter,
    and with it both engines, computes exactly this relation. */
module BigStep {
  import opened Values
  import opened Expressions
  import opened Steps
  import opened StepMeaning
  import opened Programs
  import opened ControlMeaning
  import opened Interpreter

  /** Some element of the sequence does not compile in this scope; x is the first such failure. */
  ghost predicate CompilationFails(w: World, nodes: seq<Node>, scope: Scope, x: Error) {
    exists i :: 0 <= i < |nodes| && nodes[i].Step? && CompileStep(w, nodes[i].doc, scope) == Err(x)
      && forall j :: 0 <= j < i && nodes[j].Step? ==> CompileStep(w, nodes[j].doc, scope).Ok?
  }

  lemma {:induction false} CompileSequenceExactly(w: World, nodes: seq<Node>, scope: Scope, x: Error)
    ensures CompileSequence(w, nodes, scope) == Err(x) <==> CompilationFails(w, nodes, scope, x)
    decreases |nodes|
  {
    hide CompileStep;
    if nodes != [] {
      CompileSequenceExactly(w, nodes[1..], scope, x);
      assert forall j :: 0 < j < |nodes| ==> nodes[j] == nodes[1..][j - 1];
    }
  }

  /** A step compiles and executes where it stands. */
  ghost predicate StepRuns<R(!new)>(c: Ctx<R>, doc: StepDoc, scope: Scope, place: Place, r: R, o: Outcome<R>) {
    || (exists x :: CompileStep(c.w, doc, scope) == Err(x) && o == Stopped(r, x))
    || exists spec :: CompiledStep(c.w, doc, scope, spec)
         && match c.m.exec(Site(spec, scope, place), r)
            case Err(x) => o == Stopped(r, x)
            case Ok(next) => o == Done(next)
  }

  /** How a chain of runners ends: all done, or at the first outcome that is not. */
  ghost predicate SequenceAlong<R(!new)>(c: Ctx<R>, flow: Flow, i: nat, scope: Scope, place: Place, o: Outcome<R>, runners: seq<R>)
    requires Ranked(c.p, c.rank) && HasFlow(c.p, flow) && i <= |Body(c.p, flow)|
    decreases Level(c.p, c.rank, flow), |Body(c.p, flow)| - i, 2, 0
  {
    && runners != [] && i + |runners| - 1 <= |Body(c.p, flow)|
    && (forall j: nat {:trigger runners[j]} :: j < |runners| - 1 ==> NodeRuns(c, flow, i + j, scope, place, runners[j], Done(runners[j + 1])))
    && if i + |runners| - 1 == |Body(c.p, flow)| then o == Done(runners[|runners| - 1])
       else !o.Done? && NodeRuns(c, flow, i + |runners| - 1, scope, place, runners[|runners| - 1], o)
  }

  /** Nodes i, i+1, .. of a sequence, each starting from the runner the one before left. */
  ghost predicate SequenceRuns<R(!new)>(c: Ctx<R>, flow: Flow, i: nat, scope: Scope, place: Place, r: R, o: Outcome<R>)
    requires Ranked(c.p, c.rank) && HasFlow(c.p, flow) && i <= |Body(c.p, flow)|
    decreases Level(c.p, c.rank, flow), |Body(c.p, flow)| - i, 3, 0
  {
    exists runners: seq<R> :: SequenceAlong(c, flow, i, scope, place, o, runners) && runners[0] == r
  }

  ghost predicate NodeRuns<R(!new)>(c: Ctx<R>, flow: Flow, i: nat, scope: Scope, place: Place, r: R, o: Outcome<R>)
    requires Ranked(c.p, c.rank) && HasFlow(c.p, flow) && i < |Body(c.p, flow)|
    decreases Level(c.p, c.rank, flow), |Body(c.p, flow)| - i, 1, 2
  {
    var node, state := Body(c.p, flow)[i], c.m.view(r);
    match node
    case Step(doc) => StepRuns(c, doc, scope, place, r, o)
    case Call(id, target) => InvocationRuns(c, flow, i, id, target, scope, place, r, o)
    case Branch(id, cases, otherwise) =>
      || (exists k: nat :: Chosen(c.w, node, state, scope, 0, k)
            && (CaseIsTarget(node, k); InvocationRuns(c, flow, i, id, cases[k].target, scope, place, r, o)))
      || (AllFalse(c.w, node, state, scope, 0, |cases|)
          && if otherwise.None? then o == Done(r)
             else (ElseIsTarget(node); InvocationRuns(c, flow, i, id, otherwise.value, scope, place, r, o)))
      || (exists k: nat, x :: Undecided(c.w, node, state, scope, 0, k, x) && o == Stopped(r, x))
    case Repeat(_, count, max, _, _) =>
      match Answer(c.w, count, state, scope)
      case Err(x) => o == Stopped(r, x)
      case Ok(v) =>
        if !v.Int? || v.number < 0 then o == Stopped(r, RepeatCount)
        else if v.number > max then o == Stopped(r, RepeatLimit)
        else RepeatRuns(c, flow, i, 0, v.number, scope, place, r, o)
  }

  /** The target's scope is bound, then its subflow runs one level deeper under the control's name. */
  ghost predicate InvocationRuns<R(!new)>(c: Ctx<R>, flow: Flow, i: nat, id: string, target: Invocation, scope: Scope, place: Place, r: R, o: Outcome<R>)
    requires Ranked(c.p, c.rank) && HasFlow(c.p, flow) && i < |Body(c.p, flow)|
    requires target.subflow in Targets(Body(c.p, flow)[i])
    decreases Level(c.p, c.rank, flow), |Body(c.p, flow)| - i, 1, 1
  {
    TargetsBelow(c.p, c.rank, flow, i, target.subflow);
    || (exists x :: BindFails(c.w, target, c.m.view(r), scope, x) && o == Stopped(r, x))
    || exists child :: Binds(c.w, target, c.m.view(r), scope, child)
         && FlowRuns(c, target.subflow, Some(child),
                     Place(place.invocations + [c.w.invocation(id, target.subflow)], place.repetitions, place.path + [id]), r, o)
  }

  /** A subflow's sequence; the eager engine refuses it when one of its steps does not compile. */
  ghost predicate FlowRuns<R(!new)>(c: Ctx<R>, name: string, child: Scope, place: Place, r: R, o: Outcome<R>)
    requires Ranked(c.p, c.rank) && name in c.p.subflows
    decreases c.rank[name], |c.p.subflows[name]| + 1, 0, 0
  {
    if c.eager && exists x :: CompilationFails(c.w, c.p.subflows[name], child, x) then
      exists x :: CompilationFails(c.w, c.p.subflows[name], child, x) && o == Refused(r, x)
    else SequenceRuns(c, Some(name), 0, child, place, r, o)
  }

  ghost predicate RepeatAlong<R(!new)>(c: Ctx<R>, flow: Flow, i: nat, k: nat, count: nat, scope: Scope, place: Place, o: Outcome<R>, runners: seq<R>)
    requires Ranked(c.p, c.rank) && HasFlow(c.p, flow) && i < |Body(c.p, flow)|
    requires Body(c.p, flow)[i].Repeat? && k <= count
    decreases Level(c.p, c.rank, flow), |Body(c.p, flow)| - i, 0, 1
  {
    && runners != [] && k + |runners| - 1 <= count
    && (forall j: nat {:trigger runners[j]} :: j < |runners| - 1 ==> RepetitionRuns(c, flow, i, k + j, scope, place, runners[j], Done(runners[j + 1])))
    && if k + |runners| - 1 == count then o == Done(runners[|runners| - 1])
       else !o.Done? && RepetitionRuns(c, flow, i, k + |runners| - 1, scope, place, runners[|runners| - 1], o)
  }

  /** Repetitions k, k+1, .. count-1, each starting from the runner the one before left. */
  ghost predicate RepeatRuns<R(!new)>(c: Ctx<R>, flow: Flow, i: nat, k: nat, count: nat, scope: Scope, place: Place, r: R, o: Outcome<R>)
    requires Ranked(c.p, c.rank) && HasFlow(c.p, flow) && i < |Body(c.p, flow)|
    requires Body(c.p, flow)[i].Repeat? && k <= count
    decreases Level(c.p, c.rank, flow), |Body(c.p, flow)| - i, 0, 2
  {
    exists runners: seq<R> :: RepeatAlong(c, flow, i, k, count, scope, place, o, runners) && runners[0] == r
  }

  /** Repetition k binds afresh, and its place records k. */
  ghost predicate RepetitionRuns<R(!new)>(c: Ctx<R>, flow: Flow, i: nat, k: nat, scope: Scope, place: Place, r: R, o: Outcome<R>)
    requires Ranked(c.p, c.rank) && HasFlow(c.p, flow) && i < |Body(c.p, flow)| && Body(c.p, flow)[i].Repeat?
    decreases Level(c.p, c.rank, flow), |Body(c.p, flow)| - i, 0, 0
  {
    var node := Body(c.p, flow)[i];
    var name := node.target.subflow;
    TargetsBelow(c.p, c.rank, flow, i, name);
    || (exists x :: BindFails(c.w, node.target, c.m.view(r), scope, x) && o == Stopped(r, x))
    || exists child :: BindsRepetition(c.w, node, k, c.m.view(r), scope, child)
         && FlowRuns(c, name, Some(child),
                     Place(place.invocations + [c.w.invocation(node.id, name)], place.repetitions + [k], place.path + [node.id]), r, o)
  }

  lemma CaseIsTarget(node: Node, k: nat)
    requires node.Branch? && k < |node.cases|
    ensures node.cases[k].target.subflow in Targets(node)
  {
    assert Targets(node)[k] == node.cases[k].target.subflow;
  }

  lemma ElseIsTarget(node: Node)
    requires node.Branch? && node.otherwise.Some?
    ensures node.otherwise.value.subflow in Targets(node)
  {
    assert Targets(node)[|node.cases|] == node.otherwise.value.subflow;
  }

  // ---------------------------------------------------------------- chains, one link at a time

  lemma SequenceDone<R(!new)>(c: Ctx<R>, flow: Flow, scope: Scope, place: Place, r: R, o: Outcome<R>)
    requires Ranked(c.p, c.rank) && HasFlow(c.p, flow)
    ensures SequenceRuns(c, flow, |Body(c.p, flow)|, scope, place, r, o) <==> o == Done(r)
  {
    hide Ranked, NodeRuns;
    var n := |Body(c.p, flow)|;
    if o == Done(r) { assert SequenceAlong(c, flow, n, scope, place, o, [r]); }
  }

  lemma SequenceStops<R(!new)>(c: Ctx<R>, flow: Flow, i: nat, scope: Scope, place: Place, r: R, o: Outcome<R>)
    requires Ranked(c.p, c.rank) && HasFlow(c.p, flow) && i < |Body(c.p, flow)|
    requires !o.Done? && NodeRuns(c, flow, i, scope, place, r, o)
    ensures SequenceRuns(c, flow, i, scope, place, r, o)
  {
    hide Ranked, NodeRuns;
    assert SequenceAlong(c, flow, i, scope, place, o, [r]);
  }

  lemma SequenceLonger<R(!new)>(c: Ctx<R>, flow: Flow, i: nat, scope: Scope, place: Place, r: R, next: R, o: Outcome<R>)
    requires Ranked(c.p, c.rank) && HasFlow(c.p, flow) && i < |Body(c.p, flow)|
    requires NodeRuns(c, flow, i, scope, place, r, Done(next)) && SequenceRuns(c, flow, i + 1, scope, place, next, o)
    ensures SequenceRuns(c, flow, i, scope, place, r, o)
  {
    hide Ranked, NodeRuns;
    var rest :| SequenceAlong(c, flow, i + 1, scope, place, o, rest) && rest[0] == next;
    var all := [r] + rest;
    forall j: nat | j < |all| - 1 ensures NodeRuns(c, flow, i + j, scope, place, all[j], Done(all[j + 1])) {
      if j > 0 { assert all[j] == rest[j - 1] && all[j + 1] == rest[j - 1 + 1] && i + j == i + 1 + (j - 1); }
    }
    assert SequenceAlong(c, flow, i, scope, place, o, all);
  }

  lemma SequenceTail<R(!new)>(c: Ctx<R>, flow: Flow, i: nat, scope: Scope, place: Place, o: Outcome<R>, all: seq<R>)
    requires Ranked(c.p, c.rank) && HasFlow(c.p, flow) && i < |Body(c.p, flow)|
    requires SequenceAlong(c, flow, i, scope, place, o, all) && |all| > 1
    ensures NodeRuns(c, flow, i, scope, place, all[0], Done(all[1])) && SequenceRuns(c, flow, i + 1, scope, place, all[1], o)
  {
    hide Ranked, NodeRuns;
    var rest := all[1..];
    forall j: nat | j < |rest| - 1 ensures NodeRuns(c, flow, i + 1 + j, scope, place, rest[j], Done(rest[j + 1])) {
      assert rest[j] == all[j + 1] && rest[j + 1] == all[j + 1 + 1] && i + 1 + j == i + (j + 1);
    }
    assert i + 0 == i;
    assert SequenceAlong(c, flow, i + 1, scope, place, o, rest) && rest[0] == all[1];
  }

  lemma SequenceEnd<R(!new)>(c: Ctx<R>, flow: Flow, i: nat, scope: Scope, place: Place, o: Outcome<R>, all: seq<R>)
    requires Ranked(c.p, c.rank) && HasFlow(c.p, flow) && i < |Body(c.p, flow)|
    requires SequenceAlong(c, flow, i, scope, place, o, all) && |all| == 1
    ensures !o.Done? && NodeRuns(c, flow, i, scope, place, all[0], o)
  {
    hide Ranked, NodeRuns;
    assert i + |all| - 1 == i;
  }

  /** The first node of a chain: it ends the sequence, or the rest goes on where it left. */
  lemma SequenceFirst<R(!new)>(c: Ctx<R>, flow: Flow, i: nat, scope: Scope, place: Place, r: R, o: Outcome<R>) returns (next: R)
    requires Ranked(c.p, c.rank) && HasFlow(c.p, flow) && i < |Body(c.p, flow)| && SequenceRuns(c, flow, i, scope, place, r, o)
    ensures || (!o.Done? && NodeRuns(c, flow, i, scope, place, r, o))
            || (NodeRuns(c, flow, i, scope, place, r, Done(next)) && SequenceRuns(c, flow, i + 1, scope, place, next, o))
  {
    hide Ranked, NodeRuns;
    var all :| SequenceAlong(c, flow, i, scope, place, o, all) && all[0] == r;
    next := r;
    if |all| > 1 {
      SequenceTail(c, flow, i, scope, place, o, all);
      next := all[1];
    } else {
      SequenceEnd(c, flow, i, scope, place, o, all);
    }
  }

  lemma RepeatDone<R(!new)>(c: Ctx<R>, flow: Flow, i: nat, count: nat, scope: Scope, place: Place, r: R, o: Outcome<R>)
    requires Ranked(c.p, c.rank) && HasFlow(c.p, flow) && i < |Body(c.p, flow)| && Body(c.p, flow)[i].Repeat?
    ensures RepeatRuns(c, flow, i, count, count, scope, place, r, o) <==> o == Done(r)
  {
    hide Ranked, RepetitionRuns;
    if o == Done(r) { assert RepeatAlong(c, flow, i, count, count, scope, place, o, [r]); }
  }

  lemma RepeatStops<R(!new)>(c: Ctx<R>, flow: Flow, i: nat, k: nat, count: nat, scope: Scope, place: Place, r: R, o: Outcome<R>)
    requires Ranked(c.p, c.rank) && HasFlow(c.p, flow) && i < |Body(c.p, flow)| && Body(c.p, flow)[i].Repeat? && k < count
    requires !o.Done? && RepetitionRuns(c, flow, i, k, scope, place, r, o)
    ensures RepeatRuns(c, flow, i, k, count, scope, place, r, o)
  {
    hide Ranked, RepetitionRuns;
    assert RepeatAlong(c, flow, i, k, count, scope, place, o, [r]);
  }

  lemma RepeatLonger<R(!new)>(c: Ctx<R>, flow: Flow, i: nat, k: nat, count: nat, scope: Scope, place: Place, r: R, next: R, o: Outcome<R>)
    requires Ranked(c.p, c.rank) && HasFlow(c.p, flow) && i < |Body(c.p, flow)| && Body(c.p, flow)[i].Repeat? && k < count
    requires RepetitionRuns(c, flow, i, k, scope, place, r, Done(next)) && RepeatRuns(c, flow, i, k + 1, count, scope, place, next, o)
    ensures RepeatRuns(c, flow, i, k, count, scope, place, r, o)
  {
    hide Ranked, RepetitionRuns;
    var rest :| RepeatAlong(c, flow, i, k + 1, count, scope, place, o, rest) && rest[0] == next;
    var all := [r] + rest;
    forall j: nat | j < |all| - 1 ensures RepetitionRuns(c, flow, i, k + j, scope, place, all[j], Done(all[j + 1])) {
      if j > 0 { assert all[j] == rest[j - 1] && all[j + 1] == rest[j - 1 + 1] && k + j == k + 1 + (j - 1); }
    }
    assert RepeatAlong(c, flow, i, k, count, scope, place, o, all);
  }

  lemma RepeatTail<R(!new)>(c: Ctx<R>, flow: Flow, i: nat, k: nat, count: nat, scope: Scope, place: Place, o: Outcome<R>, all: seq<R>)
    requires Ranked(c.p, c.rank) && HasFlow(c.p, flow) && i < |Body(c.p, flow)| && Body(c.p, flow)[i].Repeat? && k < count
    requires RepeatAlong(c, flow, i, k, count, scope, place, o, all) && |all| > 1
    ensures RepetitionRuns(c, flow, i, k, scope, place, all[0], Done(all[1]))
    ensures RepeatRuns(c, flow, i, k + 1, count, scope, place, all[1], o)
  {
    hide Ranked, RepetitionRuns;
    var rest := all[1..];
    forall j: nat | j < |rest| - 1 ensures RepetitionRuns(c, flow, i, k + 1 + j, scope, place, rest[j], Done(rest[j + 1])) {
      assert rest[j] == all[j + 1] && rest[j + 1] == all[j + 1 + 1] && k + 1 + j == k + (j + 1);
    }
    assert k + 0 == k;
    assert RepeatAlong(c, flow, i, k + 1, count, scope, place, o, rest) && rest[0] == all[1];
  }

  lemma RepeatEnd<R(!new)>(c: Ctx<R>, flow: Flow, i: nat, k: nat, count: nat, scope: Scope, place: Place, o: Outcome<R>, all: seq<R>)
    requires Ranked(c.p, c.rank) && HasFlow(c.p, flow) && i < |Body(c.p, flow)| && Body(c.p, flow)[i].Repeat? && k < count
    requires RepeatAlong(c, flow, i, k, count, scope, place, o, all) && |all| == 1
    ensures !o.Done? && RepetitionRuns(c, flow, i, k, scope, place, all[0], o)
  {
    hide Ranked, RepetitionRuns;
    assert k + |all| - 1 == k;
  }

  lemma RepeatFirst<R(!new)>(c: Ctx<R>, flow: Flow, i: nat, k: nat, count: nat, scope: Scope, place: Place, r: R, o: Outcome<R>) returns (next: R)
    requires Ranked(c.p, c.rank) && HasFlow(c.p, flow) && i < |Body(c.p, flow)| && Body(c.p, flow)[i].Repeat? && k < count
    requires RepeatRuns(c, flow, i, k, count, scope, place, r, o)
    ensures || (!o.Done? && RepetitionRuns(c, flow, i, k, scope, place, r, o))
            || (RepetitionRuns(c, flow, i, k, scope, place, r, Done(next)) && RepeatRuns(c, flow, i, k + 1, count, scope, place, next, o))
  {
    hide Ranked, RepetitionRuns;
    var all :| RepeatAlong(c, flow, i, k, count, scope, place, o, all) && all[0] == r;
    next := r;
    if |all| > 1 {
      RepeatTail(c, flow, i, k, count, scope, place, o, all);
      next := all[1];
    } else {
      RepeatEnd(c, flow, i, k, count, scope, place, o, all);
    }
  }

  // ---------------------------------------------------------------- the interpreter computes the relation

  lemma {:induction false} SequenceExactly<R(!new)>(c: Ctx<R>, flow: Flow, i: nat, scope: Scope, place: Place, r: R, o: Outcome<R>)
    requires Ranked(c.p, c.rank) && HasFlow(c.p, flow) && i <= |Body(c.p, flow)|
    ensures SequenceRuns(c, flow, i, scope, place, r, o) <==> o == ExecSequence(c, flow, i, scope, place, r)
    decreases Level(c.p, c.rank, flow), |Body(c.p, flow)| - i, 3, 0
  {
    hide Ranked, SequenceRuns, NodeRuns, ExecNode;
    if i == |Body(c.p, flow)| {
      SequenceDone(c, flow, scope, place, r, o);
    } else {
      var e := ExecNode(c, flow, i, scope, place, r);
      NodeExactly(c, flow, i, scope, place, r, e);
      if o == ExecSequence(c, flow, i, scope, place, r) {
        if e.Done? {
          SequenceExactly(c, flow, i + 1, scope, place, e.runner, o);
          SequenceLonger(c, flow, i, scope, place, r, e.runner, o);
        } else {
          SequenceStops(c, flow, i, scope, place, r, o);
        }
      }
      if SequenceRuns(c, flow, i, scope, place, r, o) {
        var next := SequenceFirst(c, flow, i, scope, place, r, o);
        NodeExactly(c, flow, i, scope, place, r, o);
        NodeExactly(c, flow, i, scope, place, r, Done(next));
        SequenceExactly(c, flow, i + 1, scope, place, next, o);
      }
    }
  }

  lemma {:induction false} NodeExactly<R(!new)>(c: Ctx<R>, flow: Flow, i: nat, scope: Scope, place: Place, r: R, o: Outcome<R>)
    requires Ranked(c.p, c.rank) && HasFlow(c.p, flow) && i < |Body(c.p, flow)|
    ensures NodeRuns(c, flow, i, scope, place, r, o) <==> o == ExecNode(c, flow, i, scope, place, r)
    decreases Level(c.p, c.rank, flow), |Body(c.p, flow)| - i, 1, 3
  {
    hide Ranked, InvocationRuns, RepeatRuns, ExecInvocation, ExecRepeat, Choose, RepeatTimes, CompileStep, StepRuns, Answer, Chosen, Undecided, AllFalse;
    var node, state := Body(c.p, flow)[i], c.m.view(r);
    match node
    case Step(doc) => StepExactly(c, doc, scope, place, r, o);
    case Call(id, target) => InvocationExactly(c, flow, i, id, target, scope, place, r, o);
    case Branch(_, _, _) => BranchNodeExactly(c, flow, i, scope, place, r, o);
    case Repeat(_, count, max, _, _) =>
      RepeatTimesExactly(c.w, node, state, scope);
      var n := RepeatTimes(c.w, node, state, scope);
      if n.Ok? { RepeatExactly(c, flow, i, 0, n.value, scope, place, r, o); }
  }

  lemma {:induction false} BranchNodeExactly<R(!new)>(c: Ctx<R>, flow: Flow, i: nat, scope: Scope, place: Place, r: R, o: Outcome<R>)
    requires Ranked(c.p, c.rank) && HasFlow(c.p, flow) && i < |Body(c.p, flow)| && Body(c.p, flow)[i].Branch?
    ensures NodeRuns(c, flow, i, scope, place, r, o) <==> o == ExecNode(c, flow, i, scope, place, r)
    decreases Level(c.p, c.rank, flow), |Body(c.p, flow)| - i, 1, 2
  {
    hide Ranked, InvocationRuns, ExecInvocation, Choose, Chosen, Undecided, AllFalse, BranchMeans;
    var node, state := Body(c.p, flow)[i], c.m.view(r);
    var t := Choose(c.w, node, 0, state, scope);
    ChoiceIsTarget(c.w, node, 0, state, scope);
    if t.Ok? && t.value.Some? { InvocationExactly(c, flow, i, node.id, t.value.value, scope, place, r, o); }
    DecisionOnce(c.w, node, state, scope);
    if t.Err? {
      var k: nat :| Undecided(c.w, node, state, scope, 0, k, t.error);
    }
  }

  /** The three ways a branch decides, each with what is then chosen. */
  lemma DecisionOnce(w: World, node: Node, state: State, scope: Scope)
    requires node.Branch?
    ensures forall k: nat :: Chosen(w, node, state, scope, 0, k) ==> Choose(w, node, 0, state, scope) == Ok(Some(node.cases[k].target))
    ensures AllFalse(w, node, state, scope, 0, |node.cases|) ==> Choose(w, node, 0, state, scope) == Ok(node.otherwise)
    ensures forall k: nat, x :: Undecided(w, node, state, scope, 0, k, x) ==> Choose(w, node, 0, state, scope) == Err(x)
    ensures var t := Choose(w, node, 0, state, scope);
            || (exists k: nat :: Chosen(w, node, state, scope, 0, k))
            || AllFalse(w, node, state, scope, 0, |node.cases|)
            || (t.Err? && exists k: nat :: Undecided(w, node, state, scope, 0, k, t.error))
  {
    hide Choose, Undecided, AllFalse, AnswerAt;
    forall r: Result<Option<Invocation>> ensures Choose(w, node, 0, state, scope) == r <==> BranchMeans(w, node, state, scope, 0, r) {
      BranchExactly(w, node, state, scope, 0, r);
    }
    forall k: nat | Chosen(w, node, state, scope, 0, k) ensures Choose(w, node, 0, state, scope) == Ok(Some(node.cases[k].target)) {
      assert BranchMeans(w, node, state, scope, 0, Ok(Some(node.cases[k].target)));
    }
    if AllFalse(w, node, state, scope, 0, |node.cases|) { assert BranchMeans(w, node, state, scope, 0, Ok(node.otherwise)); }
    forall k: nat, x | Undecided(w, node, state, scope, 0, k, x) ensures Choose(w, node, 0, state, scope) == Err(x) {
      assert BranchMeans(w, node, state, scope, 0, Err(x));
    }
    assert BranchMeans(w, node, state, scope, 0, Choose(w, node, 0, state, scope));
  }

  lemma StepExactly<R(!new)>(c: Ctx<R>, doc: StepDoc, scope: Scope, place: Place, r: R, o: Outcome<R>)
    ensures StepRuns(c, doc, scope, place, r, o)
            <==> o == match CompileStep(c.w, doc, scope)
                      case Err(x) => Stopped(r, x)
                      case Ok(spec) => match c.m.exec(Site(spec, scope, place), r) case Err(x) => Stopped(r, x) case Ok(next) => Done(next)
  {
    hide CompileStep, CompiledStep;
    forall spec ensures CompiledStep(c.w, doc, scope, spec) <==> CompileStep(c.w, doc, scope) == Ok(spec) { CompileStepExactly(c.w, doc, scope, spec); }
    var s := CompileStep(c.w, doc, scope);
    if s.Ok? { assert CompiledStep(c.w, doc, scope, s.value); }
  }

  lemma {:induction false} InvocationExactly<R(!new)>(c: Ctx<R>, flow: Flow, i: nat, id: string, target: Invocation, scope: Scope, place: Place, r: R, o: Outcome<R>)
    requires Ranked(c.p, c.rank) && HasFlow(c.p, flow) && i < |Body(c.p, flow)|
    requires target.subflow in Targets(Body(c.p, flow)[i])
    ensures InvocationRuns(c, flow, i, id, target, scope, place, r, o) <==> o == ExecInvocation(c, flow, i, id, target, scope, place, r)
    decreases Level(c.p, c.rank, flow), |Body(c.p, flow)| - i, 1, 1
  {
    hide Ranked, FlowRuns, EnterFlow, Bind, Binds, BindFails;
    TargetsBelow(c.p, c.rank, flow, i, target.subflow);
    BindExactly(c.w, target, c.m.view(r), scope);
    var child := Bind(c.w, target, c.m.view(r), scope);
    if child.Ok? {
      FlowExactly(c, target.subflow, Some(child.value), Entered(c.w, place, id, target.subflow), r, o);
      assert Binds(c.w, target, c.m.view(r), scope, child.value);
    } else {
      assert BindFails(c.w, target, c.m.view(r), scope, child.error);
    }
  }

  lemma {:induction false} FlowExactly<R(!new)>(c: Ctx<R>, name: string, child: Scope, place: Place, r: R, o: Outcome<R>)
    requires Ranked(c.p, c.rank) && name in c.p.subflows
    ensures FlowRuns(c, name, child, place, r, o) <==> o == EnterFlow(c, name, child, place, r)
    decreases c.rank[name], |c.p.subflows[name]| + 1, 0, 0
  {
    hide Ranked, SequenceRuns, ExecSequence, CompileSequence, CompilationFails;
    SequenceExactly(c, Some(name), 0, child, place, r, o);
    var ahead := CompileSequence(c.w, c.p.subflows[name], child);
    forall x ensures CompilationFails(c.w, c.p.subflows[name], child, x) <==> ahead == Err(x) { CompileSequenceExactly(c.w, c.p.subflows[name], child, x); }
    if ahead.Err? { assert CompilationFails(c.w, c.p.subflows[name], child, ahead.error); }
  }

  lemma {:induction false} RepeatExactly<R(!new)>(c: Ctx<R>, flow: Flow, i: nat, k: nat, count: nat, scope: Scope, place: Place, r: R, o: Outcome<R>)
    requires Ranked(c.p, c.rank) && HasFlow(c.p, flow) && i < |Body(c.p, flow)| && Body(c.p, flow)[i].Repeat? && k <= count
    ensures RepeatRuns(c, flow, i, k, count, scope, place, r, o) <==> o == ExecRepeat(c, flow, i, k, count, scope, place, r)
    decreases Level(c.p, c.rank, flow), |Body(c.p, flow)| - i, 0, 2 + count - k
  {
    hide Ranked, RepeatRuns, RepetitionRuns, RepetitionOutcome;
    if k == count {
      RepeatDone(c, flow, i, count, scope, place, r, o);
    } else {
      var e := RepetitionOutcome(c, flow, i, k, scope, place, r);
      RepetitionRunsExactly(c, flow, i, k, scope, place, r, e);
      UnfoldRepetition(c, flow, i, k, count, scope, place, r);
      if o == ExecRepeat(c, flow, i, k, count, scope, place, r) {
        if e.Done? {
          RepeatExactly(c, flow, i, k + 1, count, scope, place, e.runner, o);
          RepeatLonger(c, flow, i, k, count, scope, place, r, e.runner, o);
        } else {
          RepeatStops(c, flow, i, k, count, scope, place, r, o);
        }
      }
      if RepeatRuns(c, flow, i, k, count, scope, place, r, o) {
        var next := RepeatFirst(c, flow, i, k, count, scope, place, r, o);
        RepetitionRunsExactly(c, flow, i, k, scope, place, r, o);
        RepetitionRunsExactly(c, flow, i, k, scope, place, r, Done(next));
        RepeatExactly(c, flow, i, k + 1, count, scope, place, next, o);
      }
    }
  }

  /** What one repetition comes to. */
  ghost function RepetitionOutcome<R(!new)>(c: Ctx<R>, flow: Flow, i: nat, k: nat, scope: Scope, place: Place, r: R): Outcome<R>
    requires Ranked(c.p, c.rank) && HasFlow(c.p, flow) && i < |Body(c.p, flow)| && Body(c.p, flow)[i].Repeat?
  {
    var node := Body(c.p, flow)[i];
    TargetsBelow(c.p, c.rank, flow, i, node.target.subflow);
    match BindRepetition(c.w, node, k, c.m.view(r), scope)
    case Err(x) => Stopped(r, x)
    case Ok(child) => EnterFlow(c, node.target.subflow, Some(child), EnteredRepetition(c.w, place, node.id, node.target.subflow, k), r)
  }

  lemma UnfoldRepetition<R(!new)>(c: Ctx<R>, flow: Flow, i: nat, k: nat, count: nat, scope: Scope, place: Place, r: R)
    requires Ranked(c.p, c.rank) && HasFlow(c.p, flow) && i < |Body(c.p, flow)| && Body(c.p, flow)[i].Repeat? && k < count
    ensures var e := RepetitionOutcome(c, flow, i, k, scope, place, r);
            ExecRepeat(c, flow, i, k, count, scope, place, r)
            == if e.Done? then ExecRepeat(c, flow, i, k + 1, count, scope, place, e.runner) else e
  {
    hide Ranked, EnterFlow, BindRepetition;
  }

  lemma {:induction false} RepetitionRunsExactly<R(!new)>(c: Ctx<R>, flow: Flow, i: nat, k: nat, scope: Scope, place: Place, r: R, o: Outcome<R>)
    requires Ranked(c.p, c.rank) && HasFlow(c.p, flow) && i < |Body(c.p, flow)| && Body(c.p, flow)[i].Repeat?
    ensures RepetitionRuns(c, flow, i, k, scope, place, r, o) <==> o == RepetitionOutcome(c, flow, i, k, scope, place, r)
    decreases Level(c.p, c.rank, flow), |Body(c.p, flow)| - i, 0, 0
  {
    hide Ranked, FlowRuns, EnterFlow, BindRepetition, BindsRepetition, BindFails;
    var node := Body(c.p, flow)[i];
    var name := node.target.subflow;
    TargetsBelow(c.p, c.rank, flow, i, name);
    RepetitionExactly(c.w, node, k, c.m.view(r), scope);
    var child := BindRepetition(c.w, node, k, c.m.view(r), scope);
    if child.Ok? {
      FlowExactly(c, name, Some(child.value), EnteredRepetition(c.w, place, node.id, name, k), r, o);
      assert BindsRepetition(c.w, node, k, c.m.view(r), scope, child.value);
    } else {
      assert BindFails(c.w, node.target, c.m.view(r), scope, child.error);
    }
  }
}
