/** Two step semantics over the same program that stay related keep the whole run related. */
module Simulation {
  import opened Values
  import opened Expressions
  import opened Steps
  import opened Programs
  import opened Interpreter
  import opened Scoping

  /** The left side may be the eager engine; the right side compiles steps when it reaches them.
      `past` says that a left runner is an earlier stage of a right one; `safe` that no entry is refused. */
  datatype Pair<!A, !B> = Pair(left: Ctx<A>, right: Ctx<B>, rel: (A, B) -> bool, past: (A, B) -> bool, safe: bool)

  ghost predicate Related<A(!new), B(!new)>(s: Pair<A, B>) {
    && s.left.w == s.right.w && s.left.p == s.right.p && s.left.rank == s.right.rank && !s.right.eager
    && Ranked(s.left.p, s.left.rank) && (s.safe ==> WellScoped(s.left.w, s.left.p))
    && (forall a, b {:trigger s.rel(a, b)} :: s.rel(a, b) ==> s.left.m.view(a) == s.right.m.view(b) && s.past(a, b))
    && (forall site, a, b {:trigger s.left.m.exec(site, a), s.right.m.exec(site, b)} :: s.rel(a, b) ==>
          RelatedResults(s, s.left.m.exec(site, a), s.right.m.exec(site, b)))
    && (forall site, a, b {:trigger s.past(a, b), s.right.m.exec(site, b)} :: s.past(a, b) && s.right.m.exec(site, b).Ok? ==>
          s.past(a, s.right.m.exec(site, b).value))
  }

  ghost predicate RelatedResults<A, B>(s: Pair<A, B>, x: Result<A>, y: Result<B>) {
    match (x, y)
    case (Ok(a), Ok(b)) => s.rel(a, b)
    case (Err(e), Err(f)) => e == f
    case _ => false
  }

  /** Same ending on related runners; only when the eager side refused a sequence it had yet to run does
      the other go on, and then it fails too, at a later stage of the same run. */
  ghost predicate RelatedOutcomes<A, B>(s: Pair<A, B>, x: Outcome<A>, y: Outcome<B>) {
    match x
    case Done(a) => y.Done? && s.rel(a, y.runner)
    case Stopped(a, e) => y.Stopped? && s.rel(a, y.runner) && e == y.error
    case Refused(a, _) => s.left.eager && !s.safe && y.Stopped? && s.past(a, y.runner)
  }

  /** The right side next to itself, at or after the stage `a`. */
  ghost function Onward<A, B>(s: Pair<A, B>, a: A): Pair<B, B> {
    Pair(s.right, s.right, (x: B, y: B) => x == y && s.past(a, x), (x: B, y: B) => true, false)
  }

  lemma OnwardRelated<A(!new), B(!new)>(s: Pair<A, B>, a: A)
    requires Related(s)
    ensures Related(Onward(s, a))
  {
    hide WellScoped, Ranked;
  }

  lemma {:induction false} SequenceSimulates<A(!new), B(!new)>(s: Pair<A, B>, flow: Flow, i: nat, scope: Scope, place: Place, a: A, b: B)
    requires Related(s) && s.rel(a, b) && HasFlow(s.left.p, flow) && i <= |Body(s.left.p, flow)|
    ensures RelatedOutcomes(s, ExecSequence(s.left, flow, i, scope, place, a), ExecSequence(s.right, flow, i, scope, place, b))
    decreases Level(s.left.p, s.left.rank, flow), |Body(s.left.p, flow)| - i, 2, 0
  {
    hide ExecNode;
    if i < |Body(s.left.p, flow)| {
      NodeSimulates(s, flow, i, scope, place, a, b);
      var x, y := ExecNode(s.left, flow, i, scope, place, a), ExecNode(s.right, flow, i, scope, place, b);
      if x.Done? { SequenceSimulates(s, flow, i + 1, scope, place, x.runner, y.runner); }
    }
  }

  /** A sequence that does not compile as a whole cannot be run to its end either: it stops at the step
      in question or before it, at a later stage than `a`. */
  lemma {:induction false} UncompiledStops<A(!new), B(!new)>(s: Pair<A, B>, flow: Flow, i: nat, scope: Scope, place: Place, a: A, b: B)
    requires Related(s) && s.past(a, b) && HasFlow(s.left.p, flow) && i <= |Body(s.left.p, flow)|
    requires CompileSequence(s.left.w, Body(s.left.p, flow)[i..], scope).Err?
    ensures var y := ExecSequence(s.right, flow, i, scope, place, b);
            y.Stopped? && s.past(a, y.runner)
    decreases Level(s.left.p, s.left.rank, flow), |Body(s.left.p, flow)| - i, 2, 0
  {
    hide CompileStep, WellScoped, Ranked;
    var rest := Body(s.left.p, flow)[i..];
    assert rest[0] == Body(s.left.p, flow)[i] && rest[1..] == Body(s.left.p, flow)[i + 1..];
    OnwardRelated(s, a);
    NodeSimulates(Onward(s, a), flow, i, scope, place, b, b);
    var y := ExecNode(s.right, flow, i, scope, place, b);
    if y.Done? { UncompiledStops(s, flow, i + 1, scope, place, a, y.runner); }
  }

  lemma {:induction false} EnterSimulates<A(!new), B(!new)>(s: Pair<A, B>, name: string, child: Scope, place: Place, a: A, b: B)
    requires Related(s) && s.rel(a, b) && name in s.left.p.subflows
    requires s.safe ==> CompileSequence(s.left.w, s.left.p.subflows[name], child).Ok?
    ensures RelatedOutcomes(s, EnterFlow(s.left, name, child, place, a), EnterFlow(s.right, name, child, place, b))
    decreases s.left.rank[name], |s.left.p.subflows[name]| + 1, 0, 0
  {
    hide CompileSequence, ExecSequence;
    SequenceSimulates(s, Some(name), 0, child, place, a, b);
    if CompileSequence(s.left.w, s.left.p.subflows[name], child).Err? {
      assert s.left.p.subflows[name] == Body(s.left.p, Some(name))[0..];
      UncompiledStops(s, Some(name), 0, child, place, a, b);
    }
  }

  lemma {:induction false} InvocationSimulates<A(!new), B(!new)>(s: Pair<A, B>, flow: Flow, i: nat, id: string, target: Invocation, scope: Scope, place: Place, a: A, b: B)
    requires Related(s) && s.rel(a, b) && HasFlow(s.left.p, flow) && i < |Body(s.left.p, flow)|
    requires !Body(s.left.p, flow)[i].Repeat? && target in Invocations(Body(s.left.p, flow)[i])
    requires target.subflow in Targets(Body(s.left.p, flow)[i])
    ensures RelatedOutcomes(s, ExecInvocation(s.left, flow, i, id, target, scope, place, a),
                               ExecInvocation(s.right, flow, i, id, target, scope, place, b))
    decreases Level(s.left.p, s.left.rank, flow), |Body(s.left.p, flow)| - i, 0, 0
  {
    hide Bind, EnterFlow, WellScoped;
    TargetsBelow(s.left.p, s.left.rank, flow, i, target.subflow);
    var child := Bind(s.left.w, target, s.left.m.view(a), scope);
    if child.Ok? {
      if s.safe { EntryCompiles(s.left.w, s.left.p, flow, i, target, s.left.m.view(a), scope); }
      EnterSimulates(s, target.subflow, Some(child.value), Entered(s.left.w, place, id, target.subflow), a, b);
    }
  }

  lemma {:induction false} RepeatSimulates<A(!new), B(!new)>(s: Pair<A, B>, flow: Flow, i: nat, k: nat, count: nat, scope: Scope, place: Place, a: A, b: B)
    requires Related(s) && s.rel(a, b) && HasFlow(s.left.p, flow) && i < |Body(s.left.p, flow)|
    requires Body(s.left.p, flow)[i].Repeat? && k <= count
    ensures RelatedOutcomes(s, ExecRepeat(s.left, flow, i, k, count, scope, place, a),
                               ExecRepeat(s.right, flow, i, k, count, scope, place, b))
    decreases Level(s.left.p, s.left.rank, flow), |Body(s.left.p, flow)| - i, 0, count - k
  {
    hide BindRepetition, EnterFlow, WellScoped;
    if k < count {
      var node := Body(s.left.p, flow)[i];
      var name := node.target.subflow;
      TargetsBelow(s.left.p, s.left.rank, flow, i, name);
      var child := BindRepetition(s.left.w, node, k, s.left.m.view(a), scope);
      if child.Ok? {
        if s.safe { RepetitionCompiles(s.left.w, s.left.p, flow, i, k, s.left.m.view(a), scope); }
        var entered := EnteredRepetition(s.left.w, place, node.id, name, k);
        EnterSimulates(s, name, Some(child.value), entered, a, b);
        var x, y := EnterFlow(s.left, name, Some(child.value), entered, a), EnterFlow(s.right, name, Some(child.value), entered, b);
        if x.Done? { RepeatSimulates(s, flow, i, k + 1, count, scope, place, x.runner, y.runner); }
      }
    }
  }

  lemma {:induction false} NodeSimulates<A(!new), B(!new)>(s: Pair<A, B>, flow: Flow, i: nat, scope: Scope, place: Place, a: A, b: B)
    requires Related(s) && s.rel(a, b) && HasFlow(s.left.p, flow) && i < |Body(s.left.p, flow)|
    ensures RelatedOutcomes(s, ExecNode(s.left, flow, i, scope, place, a), ExecNode(s.right, flow, i, scope, place, b))
    decreases Level(s.left.p, s.left.rank, flow), |Body(s.left.p, flow)| - i, 1, 0
  {
    hide CompileStep, Choose, RepeatTimes, ExecInvocation, ExecRepeat, WellScoped;
    var node, state := Body(s.left.p, flow)[i], s.left.m.view(a);
    match node
    case Step(doc) =>
      var spec := CompileStep(s.left.w, doc, scope);
      if spec.Ok? {
        var site := Site(spec.value, scope, place);
        assert RelatedResults(s, s.left.m.exec(site, a), s.right.m.exec(site, b));
      }
    case Call(id, target) => InvocationSimulates(s, flow, i, id, target, scope, place, a, b);
    case Branch(id, _, _) =>
      ChoiceIsTarget(s.left.w, node, 0, state, scope);
      ChoiceIsInvocation(s.left.w, node, 0, state, scope);
      var choice := Choose(s.left.w, node, 0, state, scope);
      if choice.Ok? && choice.value.Some? {
        InvocationSimulates(s, flow, i, id, choice.value.value, scope, place, a, b);
      }
    case Repeat(_, _, _, _, _) =>
      var count := RepeatTimes(s.left.w, node, state, scope);
      if count.Ok? { RepeatSimulates(s, flow, i, 0, count.value, scope, place, a, b); }
  }
}
