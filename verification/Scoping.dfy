/** When a whole sequence compiles on entry: a static condition on what each invocation binds and
    what the steps it reaches read from their scope. */
module Scoping {
  import opened Order
  import opened Values
  import opened Expressions
  import opened Steps
  import opened Programs
  import opened Interpreter

  // ---------------------------------------------------------------- what a binding is known to contain

  /** Whatever the state, a value of this expression has something at the path. */
  predicate Provides(e: Expr, path: seq<string>, resources: map<string, Value>) {
    if path == [] then true
    else
      match e
      case Literal(v) => Descend(v, path).Some?
      case ResourceRef(at) => Descend(Dict(resources), at).Some? && Descend(Descend(Dict(resources), at).value, path).Some?
      case Record(parts) => path[0] in parts && Provides(parts[path[0]], path[1..], resources)
      case _ => false
  }

  lemma {:induction false} CompiledPart(e: Expr, names: seq<string>, resources: map<string, Value>, scope: Scope, n: string)
    requires e.Record? && (forall m :: m in names ==> m in e.parts) && n in names
    requires CompileParts(e, names, resources, scope).Ok?
    ensures var compiled := CompileParts(e, names, resources, scope).value;
            n in compiled && Compile(e.parts[n], resources, scope) == Ok(compiled[n])
    decreases |names|
  {
    hide Compile;
    if n in names[1..] { CompiledPart(e, names[1..], resources, scope, n); }
  }

  lemma {:induction false} CompiledKeys(e: Expr, names: seq<string>, resources: map<string, Value>, scope: Scope)
    requires e.Record? && (forall m :: m in names ==> m in e.parts)
    requires CompileParts(e, names, resources, scope).Ok?
    ensures forall n :: n in CompileParts(e, names, resources, scope).value <==> n in names
    decreases |names|
  {
    hide Compile;
    if names != [] { CompiledKeys(e, names[1..], resources, scope); }
  }

  lemma {:induction false} EvaluatedPart(p: Primitives, e: Expr, names: seq<string>, env: Env, n: string)
    requires e.Record? && (forall m :: m in names ==> m in e.parts) && n in names
    requires EvalParts(p, e, names, env).Ok?
    ensures var values := EvalParts(p, e, names, env).value;
            n in values && Eval(p, e.parts[n], env) == Ok(values[n])
    decreases |names|
  {
    hide Eval;
    if n in names[1..] { EvaluatedPart(p, e, names[1..], env, n); }
  }

  lemma {:induction false} ProvidedAtRun(p: Primitives, e: Expr, path: seq<string>, resources: map<string, Value>, env: Env)
    requires Provides(e, path, resources) && Compile(e, resources, None).Ok?
    requires Eval(p, Compile(e, resources, None).value, env).Ok?
    ensures Descend(Eval(p, Compile(e, resources, None).value, env).value, path).Some?
    decreases |path|
  {
    hide EvalParts, CompileParts, Sorted;
    if path != [] && e.Record? {
      var names := Sorted(e.parts.Keys);
      var compiled := CompileParts(e, names, resources, None).value;
      CompiledPart(e, names, resources, None, path[0]);
      CompiledKeys(e, names, resources, None);
      assert compiled.Keys == e.parts.Keys;
      var record := Record(compiled);
      EvaluatedPart(p, record, Sorted(compiled.Keys), env, path[0]);
      ProvidedAtRun(p, e.parts[path[0]], path[1..], resources, env);
    }
  }

  // ---------------------------------------------------------------- what an invocation offers its subflow

  /** The invocations of a node, and the name its repetition index is bound to. */
  function Invocations(node: Node): seq<Invocation> {
    match node
    case Step(_) => []
    case Call(_, t) => [t]
    case Branch(_, cases, otherwise) =>
      seq(|cases|, i requires 0 <= i < |cases| => cases[i].target) + (if otherwise.Some? then [otherwise.value] else [])
    case Repeat(_, _, _, t, _) => [t]
  }

  function IndexName(node: Node): Option<string> {
    if node.Repeat? then node.indexAs else None
  }

  lemma {:induction false} ChoiceIsInvocation(w: World, node: Node, i: nat, state: State, scope: Scope)
    requires node.Branch? && i <= |node.cases|
    ensures var c := Choose(w, node, i, state, scope);
            c.Ok? && c.value.Some? ==> c.value.value in Invocations(node)
    decreases |node.cases| - i
  {
    if i < |node.cases| {
      assert Invocations(node)[i] == node.cases[i].target;
      ChoiceIsInvocation(w, node, i + 1, state, scope);
    } else if node.otherwise.Some? {
      assert Invocations(node)[|node.cases|] == node.otherwise.value;
    }
  }

  /** The scope this invocation builds has something at the path. */
  predicate Offers(target: Invocation, index: Option<string>, resources: map<string, Value>, path: seq<string>) {
    path == []
    || (if index == Some(path[0]) then |path| == 1
        else path[0] in target.bindings && Provides(target.bindings[path[0]], path[1..], resources))
  }

  ghost predicate Covers(target: Invocation, index: Option<string>, resources: map<string, Value>, child: map<string, Value>) {
    forall path: seq<string> :: Offers(target, index, resources, path) ==> Descend(Dict(child), path).Some?
  }

  lemma {:induction false} BoundName(w: World, bindings: map<string, Expr>, names: seq<string>, state: State, scope: Scope, n: string)
    requires (forall m :: m in names ==> m in bindings) && n in names && BindNames(w, bindings, names, state, scope).Ok?
    ensures var child := BindNames(w, bindings, names, state, scope).value;
            && n in child && Compile(bindings[n], w.resources, None).Ok?
            && Eval(w.prims, Compile(bindings[n], w.resources, None).value, Env(state, map[], map[], scope)) == Ok(child[n])
    decreases |names|
  {
    hide Compile, Eval;
    if n in names[1..] { BoundName(w, bindings, names[1..], state, scope, n); }
  }

  lemma BindCovers(w: World, target: Invocation, state: State, scope: Scope)
    requires Bind(w, target, state, scope).Ok?
    ensures Covers(target, None, w.resources, Bind(w, target, state, scope).value)
  {
    hide Compile, Eval, Provides, BindNames;
    var child := Bind(w, target, state, scope).value;
    forall path: seq<string> | Offers(target, None, w.resources, path) ensures Descend(Dict(child), path).Some? {
      if path != [] {
        BoundName(w, target.bindings, Sorted(target.bindings.Keys), state, scope, path[0]);
        ProvidedAtRun(w.prims, target.bindings[path[0]], path[1..], w.resources, Env(state, map[], map[], scope));
      }
    }
  }

  lemma RepetitionCovers(w: World, node: Node, k: nat, state: State, scope: Scope)
    requires node.Repeat? && BindRepetition(w, node, k, state, scope).Ok?
    ensures Covers(node.target, node.indexAs, w.resources, BindRepetition(w, node, k, state, scope).value)
  {
    hide Bind, Provides;
    BindCovers(w, node.target, state, scope);
    var child, bound := BindRepetition(w, node, k, state, scope).value, Bind(w, node.target, state, scope).value;
    forall path: seq<string> | Offers(node.target, node.indexAs, w.resources, path) ensures Descend(Dict(child), path).Some? {
      if path != [] && node.indexAs != Some(path[0]) {
        assert Offers(node.target, None, w.resources, path);
        assert Descend(Dict(bound), path).Some?;
      }
    }
  }

  // ---------------------------------------------------------------- steps that read only what is offered

  /** Every scope path in the expression is offered. */
  predicate Closed(e: Expr, target: Invocation, index: Option<string>, resources: map<string, Value>) {
    match e
    case ScopeRef(path) => Offers(target, index, resources, path)
    case Arith(_, l, r) => Closed(l, target, index, resources) && Closed(r, target, index, resources)
    case Compare(_, l, r) => Closed(l, target, index, resources) && Closed(r, target, index, resources)
    case Equal(l, r) => Closed(l, target, index, resources) && Closed(r, target, index, resources)
    case NotEqual(l, r) => Closed(l, target, index, resources) && Closed(r, target, index, resources)
    case Append(s, x) => Closed(s, target, index, resources) && Closed(x, target, index, resources)
    case Many(operands, _) => forall i :: 0 <= i < |operands| ==> Closed(operands[i], target, index, resources)
    case Not(x) => Closed(x, target, index, resources)
    case Length(x) => Closed(x, target, index, resources)
    case Record(parts) => forall k :: k in parts ==> Closed(parts[k], target, index, resources)
    case SumField(s, _) => Closed(s, target, index, resources)
    case _ => true
  }

  predicate StepClosed(doc: StepDoc, target: Invocation, index: Option<string>, resources: map<string, Value>) {
    && (forall k :: k in doc.generate && doc.generate[k].Plugin? ==> Closed(Record(doc.generate[k].args), target, index, resources))
    && Closed(Record(doc.derive), target, index, resources) && Closed(Record(doc.write), target, index, resources)
    && (forall i :: 0 <= i < |doc.emit| ==> Closed(Record(doc.emit[i].fields), target, index, resources))
  }

  /** What compiles without a scope, and reads only what is offered, compiles with the scope. */
  lemma {:induction false} ClosedCompiles(e: Expr, target: Invocation, index: Option<string>, resources: map<string, Value>, child: map<string, Value>)
    requires Closed(e, target, index, resources) && Covers(target, index, resources, child) && Compile(e, resources, None).Ok?
    ensures Compile(e, resources, Some(child)).Ok?
    decreases e, 1, 0
  {
    hide Covers, Offers, LookupResource, ResolveScope, CompileMany, CompileParts, Sorted;
    match e
    case ScopeRef(path) => OfferResolves(target, index, resources, child, path);
    case Arith(_, l, r) => PairCompiles(e, l, r, target, index, resources, child);
    case Compare(_, l, r) => PairCompiles(e, l, r, target, index, resources, child);
    case Equal(l, r) => PairCompiles(e, l, r, target, index, resources, child);
    case NotEqual(l, r) => PairCompiles(e, l, r, target, index, resources, child);
    case Append(l, r) => PairCompiles(e, l, r, target, index, resources, child);
    case Many(_, _) => ManyCompiles(e, 0, target, index, resources, child);
    case Not(x) => ClosedCompiles(x, target, index, resources, child);
    case Length(x) => ClosedCompiles(x, target, index, resources, child);
    case Record(parts) => PartsCompile(e, Sorted(parts.Keys), target, index, resources, child);
    case SumField(s, _) => ClosedCompiles(s, target, index, resources, child);
    case _ =>
  }

  lemma {:induction false} PairCompiles(e: Expr, l: Expr, r: Expr, target: Invocation, index: Option<string>, resources: map<string, Value>, child: map<string, Value>)
    requires l < e && r < e && Closed(l, target, index, resources) && Closed(r, target, index, resources)
    requires Covers(target, index, resources, child) && Compile(l, resources, None).Ok? && Compile(r, resources, None).Ok?
    ensures Compile(l, resources, Some(child)).Ok? && Compile(r, resources, Some(child)).Ok?
    decreases e, 0, 0
  {
    hide Covers, Closed, Compile;
    ClosedCompiles(l, target, index, resources, child);
    ClosedCompiles(r, target, index, resources, child);
  }

  lemma OfferResolves(target: Invocation, index: Option<string>, resources: map<string, Value>, child: map<string, Value>, path: seq<string>)
    requires Covers(target, index, resources, child) && Offers(target, index, resources, path)
    ensures ResolveScope(Some(child), path).Ok?
  {
    hide Offers;
  }

  lemma {:induction false} ManyCompiles(e: Expr, i: nat, target: Invocation, index: Option<string>, resources: map<string, Value>, child: map<string, Value>)
    requires e.Many? && i <= |e.operands|
    requires Closed(e, target, index, resources) && Covers(target, index, resources, child) && CompileMany(e, i, resources, None).Ok?
    ensures CompileMany(e, i, resources, Some(child)).Ok?
    decreases e, 0, |e.operands| - i
  {
    hide Covers, Compile;
    if i < |e.operands| {
      ClosedCompiles(e.operands[i], target, index, resources, child);
      ManyCompiles(e, i + 1, target, index, resources, child);
    }
  }

  lemma {:induction false} PartsCompile(e: Expr, names: seq<string>, target: Invocation, index: Option<string>, resources: map<string, Value>, child: map<string, Value>)
    requires e.Record? && forall n :: n in names ==> n in e.parts
    requires Closed(e, target, index, resources) && Covers(target, index, resources, child) && CompileParts(e, names, resources, None).Ok?
    ensures CompileParts(e, names, resources, Some(child)).Ok?
    decreases e, 0, |names|
  {
    hide Covers, Compile;
    if names != [] {
      ClosedCompiles(e.parts[names[0]], target, index, resources, child);
      PartsCompile(e, names[1..], target, index, resources, child);
    }
  }

  lemma {:induction false} GeneratorsCompile(w: World, doc: StepDoc, names: seq<string>, target: Invocation, index: Option<string>, child: map<string, Value>)
    requires (forall n :: n in names ==> n in doc.generate) && StepClosed(doc, target, index, w.resources)
    requires Covers(target, index, w.resources, child) && CompileGenerators(w, doc.generate, names, None).Ok?
    ensures CompileGenerators(w, doc.generate, names, Some(child)).Ok?
    decreases |names|
  {
    hide Covers, Closed, CompileParts;
    if names != [] {
      var g := doc.generate[names[0]];
      if g.Plugin? { PartsCompile(Record(g.args), Sorted(g.args.Keys), target, index, w.resources, child); }
      GeneratorsCompile(w, doc, names[1..], target, index, child);
    }
  }

  lemma {:induction false} EmissionsCompile(w: World, emit: seq<Emission>, target: Invocation, index: Option<string>, child: map<string, Value>)
    requires forall i :: 0 <= i < |emit| ==> Closed(Record(emit[i].fields), target, index, w.resources)
    requires Covers(target, index, w.resources, child) && CompileEmissions(w, emit, None).Ok?
    ensures CompileEmissions(w, emit, Some(child)).Ok?
    decreases |emit|
  {
    hide Covers, Closed, CompileParts;
    if emit != [] {
      assert Closed(Record(emit[0].fields), target, index, w.resources);
      PartsCompile(Record(emit[0].fields), Sorted(emit[0].fields.Keys), target, index, w.resources, child);
      EmissionsCompile(w, emit[1..], target, index, child);
    }
  }

  lemma StepCompiles(w: World, doc: StepDoc, target: Invocation, index: Option<string>, child: map<string, Value>)
    requires StepClosed(doc, target, index, w.resources) && Covers(target, index, w.resources, child) && CompileStep(w, doc, None).Ok?
    ensures CompileStep(w, doc, Some(child)).Ok?
  {
    hide Covers, Closed, CompileParts, CompileGenerators, CompileEmissions;
    GeneratorsCompile(w, doc, Sorted(doc.generate.Keys), target, index, child);
    PartsCompile(Record(doc.derive), Sorted(doc.derive.Keys), target, index, w.resources, child);
    PartsCompile(Record(doc.write), Sorted(doc.write.Keys), target, index, w.resources, child);
    EmissionsCompile(w, doc.emit, target, index, child);
  }

  predicate NodesClosed(nodes: seq<Node>, target: Invocation, index: Option<string>, resources: map<string, Value>) {
    forall i :: 0 <= i < |nodes| && nodes[i].Step? ==> StepClosed(nodes[i].doc, target, index, resources)
  }

  lemma {:induction false} SequenceCompiles(w: World, nodes: seq<Node>, target: Invocation, index: Option<string>, child: map<string, Value>)
    requires NodesClosed(nodes, target, index, w.resources) && Covers(target, index, w.resources, child)
    requires CompileSequence(w, nodes, None).Ok?
    ensures CompileSequence(w, nodes, Some(child)).Ok?
    decreases |nodes|
  {
    hide Covers, StepClosed, CompileStep;
    if nodes != [] {
      if nodes[0].Step? { StepCompiles(w, nodes[0].doc, target, index, child); }
      SequenceCompiles(w, nodes[1..], target, index, child);
    }
  }

  // ---------------------------------------------------------------- well-scoped programs

  /** Every sequence compiles without a scope, and every step of a subflow reads from its scope only
      what each invocation entering that subflow offers. */
  ghost predicate WellScoped(w: World, p: Program) {
    && CompileSequence(w, p.steps, None).Ok?
    && (forall name :: name in p.subflows ==> CompileSequence(w, p.subflows[name], None).Ok?)
    && (forall flow: Flow, node, t :: InFlow(p, flow, node) && t in Invocations(node) && t.subflow in p.subflows ==>
          NodesClosed(p.subflows[t.subflow], t, IndexName(node), w.resources))
  }

  /** No entry of a well-scoped program is refused, whatever the state and the scope around it. */
  lemma EntryCompiles(w: World, p: Program, flow: Flow, i: nat, target: Invocation, state: State, scope: Scope)
    requires WellScoped(w, p) && HasFlow(p, flow) && i < |Body(p, flow)| && !Body(p, flow)[i].Repeat?
    requires target in Invocations(Body(p, flow)[i]) && target.subflow in p.subflows && Bind(w, target, state, scope).Ok?
    ensures CompileSequence(w, p.subflows[target.subflow], Some(Bind(w, target, state, scope).value)).Ok?
  {
    hide CompileSequence, NodesClosed, Bind, Covers;
    assert InFlow(p, flow, Body(p, flow)[i]);
    BindCovers(w, target, state, scope);
    SequenceCompiles(w, p.subflows[target.subflow], target, None, Bind(w, target, state, scope).value);
  }

  lemma RepetitionCompiles(w: World, p: Program, flow: Flow, i: nat, k: nat, state: State, scope: Scope)
    requires WellScoped(w, p) && HasFlow(p, flow) && i < |Body(p, flow)| && Body(p, flow)[i].Repeat?
    requires Body(p, flow)[i].target.subflow in p.subflows && BindRepetition(w, Body(p, flow)[i], k, state, scope).Ok?
    ensures CompileSequence(w, p.subflows[Body(p, flow)[i].target.subflow], Some(BindRepetition(w, Body(p, flow)[i], k, state, scope).value)).Ok?
  {
    hide CompileSequence, NodesClosed, BindRepetition, Covers;
    var node := Body(p, flow)[i];
    assert InFlow(p, flow, node) && node.target in Invocations(node);
    RepetitionCovers(w, node, k, state, scope);
    SequenceCompiles(w, p.subflows[node.target.subflow], node.target, node.indexAs, BindRepetition(w, node, k, state, scope).value);
  }
}
