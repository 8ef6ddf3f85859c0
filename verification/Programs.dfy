/** Structured control shared by both engines: calls, ordered branches and bounded repeats
    over named subflows, and the evaluation of their bindings, conditions and counts. */
module Programs {
  import opened Order
  import opened Values
  import opened Expressions
  import opened Steps

  datatype Invocation = Invocation(subflow: string, bindings: map<string, Expr>)
  datatype Case = Case(when: Expr, target: Invocation)

  datatype Node =
    | Step(doc: StepDoc)
    | Call(id: string, target: Invocation)
    | Branch(id: string, cases: seq<Case>, otherwise: Option<Invocation>)
    | Repeat(id: string, count: Expr, max: nat, target: Invocation, indexAs: Option<string>)

  datatype Program = Program(steps: seq<Node>, subflows: map<string, seq<Node>>)

  /** Which sequence is walked: the program's own steps, or a named subflow. */
  type Flow = Option<string>

  predicate HasFlow(p: Program, flow: Flow) {
    flow.Some? ==> flow.value in p.subflows
  }

  function Body(p: Program, flow: Flow): seq<Node>
    requires HasFlow(p, flow)
  {
    match flow case None => p.steps case Some(name) => p.subflows[name]
  }

  /** `_targets`: the subflows a node may enter, in declaration order. */
  function Targets(node: Node): seq<string> {
    match node
    case Step(_) => []
    case Call(_, t) => [t.subflow]
    case Branch(_, cases, otherwise) =>
      seq(|cases|, i requires 0 <= i < |cases| => cases[i].target.subflow)
      + (if otherwise.Some? then [otherwise.value.subflow] else [])
    case Repeat(_, _, _, t, _) => [t.subflow]
  }

  /** `evaluate_bindings`: compiled without scope, evaluated in it, in sorted name order. */
  function BindNames(w: World, bindings: map<string, Expr>, names: seq<string>, state: State, scope: Scope): Result<map<string, Value>>
    requires forall n :: n in names ==> n in bindings
    decreases |names|
  {
    if names == [] then Ok(map[])
    else
      var e :- Compile(bindings[names[0]], w.resources, None);
      var v :- Eval(w.prims, e, Env(state, map[], map[], scope));
      var rest :- BindNames(w, bindings, names[1..], state, scope);
      Ok(rest[names[0] := v])
  }

  function Bind(w: World, target: Invocation, state: State, scope: Scope): Result<map<string, Value>> {
    BindNames(w, target.bindings, Sorted(target.bindings.Keys), state, scope)
  }

  /** The scope of one repetition: its bindings, and the index under its declared name. */
  function BindRepetition(w: World, node: Node, k: nat, state: State, scope: Scope): Result<map<string, Value>>
    requires node.Repeat?
  {
    var child :- Bind(w, node.target, state, scope);
    Ok(if node.indexAs.Some? then child[node.indexAs.value := Int(k)] else child)
  }

  function Condition(w: World, when: Expr, state: State, scope: Scope): Result<bool> {
    var e :- Compile(when, w.resources, None);
    var v :- Eval(w.prims, e, Env(state, map[], map[], scope));
    if v.Bool? then Ok(v.flag) else Err(BranchCondition)
  }

  function RepeatTimes(w: World, node: Node, state: State, scope: Scope): Result<nat>
    requires node.Repeat?
  {
    var e :- Compile(node.count, w.resources, None);
    var v :- Eval(w.prims, e, Env(state, map[], map[], scope));
    if !v.Int? || v.number < 0 then Err(RepeatCount)
    else if v.number > node.max then Err(RepeatLimit)
    else Ok(v.number)
  }

  lemma RepeatTimesBounded(w: World, node: Node, state: State, scope: Scope)
    requires node.Repeat? && RepeatTimes(w, node, state, scope).Ok?
    ensures RepeatTimes(w, node, state, scope).value <= node.max
  {
  }

  /** First case whose condition holds, from case i on; otherwise the else target, if any. */
  function Choose(w: World, node: Node, i: nat, state: State, scope: Scope): Result<Option<Invocation>>
    requires node.Branch? && i <= |node.cases|
    decreases |node.cases| - i
  {
    if i == |node.cases| then Ok(node.otherwise)
    else
      var hit :- Condition(w, node.cases[i].when, state, scope);
      if hit then Ok(Some(node.cases[i].target)) else Choose(w, node, i + 1, state, scope)
  }

  function Entered(w: World, place: Place, control: string, subflow: string): Place {
    Place(place.invocations + [w.invocation(control, subflow)], place.repetitions, place.path + [control])
  }

  function EnteredRepetition(w: World, place: Place, control: string, subflow: string, k: nat): Place {
    Place(place.invocations + [w.invocation(control, subflow)], place.repetitions + [k], place.path + [control])
  }

  const ROOT_PLACE := Place([], [], [])

  // ---------------------------------------------------------------- programs the static check accepts

  ghost predicate InFlow(p: Program, flow: Flow, node: Node) {
    HasFlow(p, flow) && node in Body(p, flow)
  }

  /** Every target is declared, and ranks fall from each subflow to those it enters. */
  ghost predicate Ranked(p: Program, rank: map<string, nat>) {
    && (forall name :: name in p.subflows ==> name in rank && rank[name] < |p.subflows|)
    && (forall flow: Flow, node, t :: InFlow(p, flow, node) && t in Targets(node) ==>
          t in p.subflows && (flow.Some? ==> rank[t] < rank[flow.value]))
  }

  /** The level of a sequence: above every subflow it can enter. */
  ghost function Level(p: Program, rank: map<string, nat>, flow: Flow): nat
    requires Ranked(p, rank) && HasFlow(p, flow)
  {
    match flow case None => |p.subflows| case Some(name) => rank[name]
  }

  lemma TargetsBelow(p: Program, rank: map<string, nat>, flow: Flow, i: nat, t: string)
    requires Ranked(p, rank) && HasFlow(p, flow) && i < |Body(p, flow)| && t in Targets(Body(p, flow)[i])
    ensures t in p.subflows && rank[t] < Level(p, rank, flow)
  {
    assert InFlow(p, flow, Body(p, flow)[i]);
  }

  lemma {:induction false} ChoiceIsTarget(w: World, node: Node, i: nat, state: State, scope: Scope)
    requires node.Branch? && i <= |node.cases|
    ensures var c := Choose(w, node, i, state, scope);
            c.Ok? && c.value.Some? ==> c.value.value.subflow in Targets(node)
    decreases |node.cases| - i
  {
    if i < |node.cases| {
      assert Targets(node)[i] == node.cases[i].target.subflow;
      ChoiceIsTarget(w, node, i + 1, state, scope);
    } else if node.otherwise.Some? {
      assert Targets(node)[|node.cases|] == node.otherwise.value.subflow;
    }
  }
}
