/** Named resources: static dependencies, layered resolution, consumed inputs and path overrides. */
module Resources {
  import opened Order
  import opened Values
  import opened Graphs
  import opened Layering

  // ---------------------------------------------------------------- paths

  /** `text.split(".")`: never empty. */
  function Dots(text: string): (parts: seq<string>)
    ensures parts != []
  {
    if text == [] then [""]
    else
      var rest := Dots(text[1..]);
      if text[0] == '.' then [""] + rest else [[text[0]] + rest[0]] + rest[1..]
  }

  /** `_path`: a nonempty dot-separated path without empty segments. */
  function Path(node: Value): (p: Option<seq<string>>)
    ensures p.Some? ==> p.value != []
  {
    if !node.Str? || node.chars == "" || "" in Dots(node.chars) then None else Some(Dots(node.chars))
  }

  /** An operator node: exactly one entry, holding a path. */
  function Operand(node: Value, operator: string): (p: Option<seq<string>>)
    requires node.Dict? && operator in node.fields
    ensures p.Some? ==> p.value != []
  {
    if |node.fields| != 1 then None else Path(node.fields[operator])
  }

  // ---------------------------------------------------------------- what a declaration mentions

  /** `_dependencies` accepts the node. */
  predicate WellFormed(node: Value) {
    match node
    case Dict(fields) =>
      if "$ref" in fields then Operand(node, "$ref").Some?
      else if "$input" in fields then Operand(node, "$input").Some?
      else forall k :: k in fields ==> WellFormed(fields[k])
    case List(items) => forall i :: 0 <= i < |items| ==> WellFormed(items[i])
    case _ => true
  }

  /** The resources a node refers to, as `_dependencies` collects them. */
  function References(node: Value): set<string> {
    match node
    case Dict(fields) =>
      if "$ref" in fields then (if Operand(node, "$ref").Some? then {Operand(node, "$ref").value[0]} else {})
      else if "$input" in fields then {}
      else set k, n | k in fields && n in References(fields[k]) :: n
    case List(items) => set i, n | 0 <= i < |items| && n in References(items[i]) :: n
    case _ => {}
  }

  /** The external inputs a node names. */
  function Inputs(node: Value): set<string> {
    match node
    case Dict(fields) =>
      if "$input" in fields then (if Operand(node, "$input").Some? then {Operand(node, "$input").value[0]} else {})
      else if "$ref" in fields then {}
      else set k, n | k in fields && n in Inputs(fields[k]) :: n
    case List(items) => set i, n | 0 <= i < |items| && n in Inputs(items[i]) :: n
    case _ => {}
  }

  // ---------------------------------------------------------------- resolution of one node

  function LookupIn(source: map<string, Value>, path: seq<string>): Result<Value>
    requires path != []
  {
    if path[0] !in source then Err(ResourceUnresolved)
    else
      match Descend(source[path[0]], path[1..])
      case None => Err(ResourceUnresolved)
      case Some(v) => Ok(v)
  }

  /** `resolve_node`: every operator replaced by what it refers to; all failures have one class. */
  function Resolve(node: Value, inputs: map<string, Value>, resolved: map<string, Value>): (r: Result<Value>)
    ensures r.Err? ==> r.error == ResourceUnresolved
    decreases node, 1
  {
    match node
    case Dict(fields) =>
      if "$input" in fields then
        match Operand(node, "$input") case None => Err(ResourceUnresolved) case Some(p) => LookupIn(inputs, p)
      else if "$ref" in fields then
        match Operand(node, "$ref") case None => Err(ResourceUnresolved) case Some(p) => LookupIn(resolved, p)
      else if forall k :: k in fields ==> Resolve(fields[k], inputs, resolved).Ok? then
        Ok(Dict(ResolvedFields(node, inputs, resolved)))
      else Err(ResourceUnresolved)
    case List(items) =>
      if forall i :: 0 <= i < |items| ==> Resolve(items[i], inputs, resolved).Ok? then
        Ok(List(ResolvedItems(items, inputs, resolved)))
      else Err(ResourceUnresolved)
    case _ => Ok(node)
  }

  function ResolvedFields(node: Value, inputs: map<string, Value>, resolved: map<string, Value>): (out: map<string, Value>)
    requires node.Dict? && forall k :: k in node.fields ==> Resolve(node.fields[k], inputs, resolved).Ok?
    ensures out.Keys == node.fields.Keys && forall k :: k in node.fields ==> Resolve(node.fields[k], inputs, resolved) == Ok(out[k])
    decreases node, 0
  {
    map k | k in node.fields :: Resolve(node.fields[k], inputs, resolved).value
  }

  function ResolvedItems(items: seq<Value>, inputs: map<string, Value>, resolved: map<string, Value>): (out: seq<Value>)
    requires forall i :: 0 <= i < |items| ==> Resolve(items[i], inputs, resolved).Ok?
    ensures |out| == |items| && forall i :: 0 <= i < |items| ==> Resolve(items[i], inputs, resolved) == Ok(out[i])
    decreases items, 0
  {
    seq(|items|, i requires 0 <= i < |items| => Resolve(items[i], inputs, resolved).value)
  }

  /** Resolution reads only the resources the node refers to and the inputs it names. */
  lemma {:induction false} ResolveReadsOnlyMentioned(node: Value, x: map<string, Value>, y: map<string, Value>, a: map<string, Value>, b: map<string, Value>)
    requires SameOn(Inputs(node), x, y) && SameOn(References(node), a, b)
    ensures Resolve(node, x, a) == Resolve(node, y, b)
    decreases node, 1
  {
    match node
    case Dict(fields) => if "$input" !in fields && "$ref" !in fields { FieldsReadOnlyMentioned(node, x, y, a, b); }
    case List(items) => ItemsReadOnlyMentioned(node, x, y, a, b);
    case _ =>
  }

  lemma {:induction false} FieldsReadOnlyMentioned(node: Value, x: map<string, Value>, y: map<string, Value>, a: map<string, Value>, b: map<string, Value>)
    requires node.Dict? && "$input" !in node.fields && "$ref" !in node.fields
    requires SameOn(Inputs(node), x, y) && SameOn(References(node), a, b)
    ensures Resolve(node, x, a) == Resolve(node, y, b)
    decreases node, 0
  {
    forall k | k in node.fields ensures Resolve(node.fields[k], x, a) == Resolve(node.fields[k], y, b) {
      assert forall n :: n in References(node.fields[k]) ==> n in References(node);
      assert forall n :: n in Inputs(node.fields[k]) ==> n in Inputs(node);
      ResolveReadsOnlyMentioned(node.fields[k], x, y, a, b);
    }
    if forall k :: k in node.fields ==> Resolve(node.fields[k], x, a).Ok? {
      FieldsGive(node, y, b, ResolvedFields(node, x, a));
    }
  }

  lemma {:induction false} ItemsReadOnlyMentioned(node: Value, x: map<string, Value>, y: map<string, Value>, a: map<string, Value>, b: map<string, Value>)
    requires node.List? && SameOn(Inputs(node), x, y) && SameOn(References(node), a, b)
    ensures Resolve(node, x, a) == Resolve(node, y, b)
    decreases node, 0
  {
    forall i | 0 <= i < |node.items| ensures Resolve(node.items[i], x, a) == Resolve(node.items[i], y, b) {
      assert forall n :: n in References(node.items[i]) ==> n in References(node);
      assert forall n :: n in Inputs(node.items[i]) ==> n in Inputs(node);
      ResolveReadsOnlyMentioned(node.items[i], x, y, a, b);
    }
    if forall i :: 0 <= i < |node.items| ==> Resolve(node.items[i], x, a).Ok? {
      ItemsGive(node, y, b, ResolvedItems(node.items, x, a));
    }
  }

  // ---------------------------------------------------------------- the whole system

  function ResourceGraph(declarations: map<string, Value>): Graph {
    map n | n in declarations :: References(declarations[n])
  }

  predicate Declared(declarations: map<string, Value>) {
    && (forall n :: n in declarations ==> WellFormed(declarations[n]))
    && forall n, d :: n in declarations && d in References(declarations[n]) ==> d in declarations
  }

  function ResolveOne(declarations: map<string, Value>, inputs: map<string, Value>, n: string, m: map<string, Value>): Result<Value> {
    if n in declarations then Resolve(declarations[n], inputs, m) else Err(ResourceUnresolved)
  }

  function ResourceRule(declarations: map<string, Value>, inputs: map<string, Value>): Rule<Value> {
    (n: string, m: map<string, Value>) => ResolveOne(declarations, inputs, n, m)
  }

  function Sequence(declarations: map<string, Value>): Result<seq<string>> {
    if !Declared(declarations) then Err(ResourceUnresolved)
    else
      match Layers(ResourceGraph(declarations).Keys, ResourceGraph(declarations))
      case None => Err(ResourceCycle)
      case Some(order) => Ok(order)
  }

  function ResolveAll(declarations: map<string, Value>, inputs: map<string, Value>): Result<map<string, Value>> {
    var order :- Sequence(declarations);
    Solve(ResourceRule(declarations, inputs), order, map[])
  }

  /** Every resource equals its own declaration resolved against the whole result. */
  ghost predicate Consistent(declarations: map<string, Value>, inputs: map<string, Value>, m: map<string, Value>) {
    m.Keys == declarations.Keys && forall n :: n in declarations ==> Resolve(declarations[n], inputs, m) == Ok(m[n])
  }

  /** The cycle error is raised exactly when the references form a closed walk. */
  lemma CycleErrorExactly(declarations: map<string, Value>)
    ensures Declared(declarations) ==> (Sequence(declarations) == Err(ResourceCycle) <==> !Acyclic(ResourceGraph(declarations)))
    ensures Sequence(declarations).Ok? <==> Declared(declarations) && Acyclic(ResourceGraph(declarations))
  {
    LayersExactlyAcyclic(ResourceGraph(declarations));
  }

  lemma RuleRespects(declarations: map<string, Value>, inputs: map<string, Value>)
    ensures Respects(ResourceRule(declarations, inputs), ResourceGraph(declarations))
  {
    var rule, deps := ResourceRule(declarations, inputs), ResourceGraph(declarations);
    forall n, a: map<string, Value>, b: map<string, Value> | n in deps && SameOn(deps[n], a, b)
      ensures rule(n, a) == rule(n, b)
    {
      ResolveReadsOnlyMentioned(declarations[n], inputs, inputs, a, b);
    }
  }

  lemma ConsistentIsSolution(declarations: map<string, Value>, inputs: map<string, Value>, m: map<string, Value>)
    ensures IsSolution(ResourceRule(declarations, inputs), ResourceGraph(declarations).Keys, m) <==> Consistent(declarations, inputs, m)
  {
    hide Resolve;
    var rule := ResourceRule(declarations, inputs);
    assert ResourceGraph(declarations).Keys == declarations.Keys;
    forall n | n in declarations ensures rule(n, m) == Resolve(declarations[n], inputs, m) {
      assert rule(n, m) == ResolveOne(declarations, inputs, n, m);
    }
  }

  /** The resolved resources are the one and only consistent assignment. */
  lemma ResolvedExactlyConsistent(declarations: map<string, Value>, inputs: map<string, Value>, m: map<string, Value>)
    ensures ResolveAll(declarations, inputs) == Ok(m)
       <==> Declared(declarations) && Acyclic(ResourceGraph(declarations)) && Consistent(declarations, inputs, m)
  {
    hide Resolve, WellFormed, References;
    CycleErrorExactly(declarations);
    if Declared(declarations) {
      RuleRespects(declarations, inputs);
      LayeredSolution(ResourceRule(declarations, inputs), ResourceGraph(declarations), m);
      ConsistentIsSolution(declarations, inputs, m);
    }
  }

  // ---------------------------------------------------------------- the resolver with its consumed inputs

  function Restricted(inputs: map<string, Value>, names: set<string>): map<string, Value> {
    map n | n in names && n in inputs :: inputs[n]
  }

  class Resolver {
    const inputs: map<string, Value>
    var resolved: map<string, Value>
    var consumed: map<string, Value>

    constructor (inputs: map<string, Value>)
      ensures this.inputs == inputs && resolved == map[] && consumed == map[]
    {
      this.inputs := inputs;
      resolved, consumed := map[], map[];
    }

    /** `resolve_node`, recording every input it reads. */
    method ResolveNode(node: Value) returns (r: Result<Value>)
      modifies this`consumed
      ensures r == Resolve(node, inputs, resolved)
      ensures r.Ok? ==> consumed == old(consumed) + Restricted(inputs, Inputs(node)) && Inputs(node) <= inputs.Keys
      decreases node, 1
    {
      hide Resolve, Inputs;
      ResolveShape(node, inputs, resolved);
      match node
      case Dict(fields) =>
        if "$input" in fields {
          var operand := Operand(node, "$input");
          if operand == None { return Err(ResourceUnresolved); }
          var name := operand.value[0];
          if name !in inputs { return Err(ResourceUnresolved); }
          consumed := consumed[name := inputs[name]];
          assert consumed == old(consumed) + Restricted(inputs, {name});
          r := LookupIn(inputs, operand.value);
        } else if "$ref" in fields {
          var operand := Operand(node, "$ref");
          if operand == None { return Err(ResourceUnresolved); }
          assert consumed == old(consumed) + Restricted(inputs, {});
          r := LookupIn(resolved, operand.value);
        } else {
          r := ResolveFields(node);
        }
      case List(items) => r := ResolveItems(node);
      case _ =>
        assert consumed == old(consumed) + Restricted(inputs, {});
        r := Ok(node);
    }

    method ResolveFields(node: Value) returns (r: Result<Value>)
      requires node.Dict? && "$input" !in node.fields && "$ref" !in node.fields
      modifies this`consumed
      ensures r == Resolve(node, inputs, resolved)
      ensures r.Ok? ==> consumed == old(consumed) + Restricted(inputs, Inputs(node)) && Inputs(node) <= inputs.Keys
      decreases node, 0
    {
      hide Resolve, Inputs, Restricted, FieldsDone, Sorted;
      var keys := Sorted(node.fields.Keys);
      var out: map<string, Value> := map[];
      ghost var names: set<string> := {};
      RestrictedNothing(inputs);
      NoFieldsDone(node, inputs, resolved, keys[..0]);
      for i := 0 to |keys|
        invariant FieldsDone(node, inputs, resolved, keys[..i], out, names)
        invariant names <= inputs.Keys && consumed == old(consumed) + Restricted(inputs, names)
      {
        var k := keys[i];
        assert k in node.fields.Keys by { assert k in keys; }
        assert keys[..i + 1] == keys[..i] + [k];
        var v := ResolveNode(node.fields[k]);
        if v.Err? {
          FieldFails(node, inputs, resolved, k);
          return v;
        }
        RestrictedJoin(inputs, old(consumed), names, Inputs(node.fields[k]));
        FieldDone(node, inputs, resolved, keys[..i], out, names, k, v.value);
        out, names := out[k := v.value], names + Inputs(node.fields[k]);
      }
      assert keys[..|keys|] == keys;
      AllFieldsDone(node, inputs, resolved, keys, out, names);
      r := Ok(Dict(out));
    }

    method ResolveItems(node: Value) returns (r: Result<Value>)
      requires node.List?
      modifies this`consumed
      ensures r == Resolve(node, inputs, resolved)
      ensures r.Ok? ==> consumed == old(consumed) + Restricted(inputs, Inputs(node)) && Inputs(node) <= inputs.Keys
      decreases node, 0
    {
      hide Resolve, Inputs, Restricted;
      InputsOfItems(node);
      var items := node.items;
      var out: seq<Value> := [];
      ghost var names: set<string> := {};
      RestrictedNothing(inputs);
      for i := 0 to |items|
        invariant |out| == i
        invariant forall j :: 0 <= j < i ==> Resolve(items[j], inputs, resolved) == Ok(out[j]) && Inputs(items[j]) <= names
        invariant forall n :: n in names ==> exists j :: 0 <= j < i && n in Inputs(items[j])
        invariant names <= inputs.Keys && consumed == old(consumed) + Restricted(inputs, names)
      {
        var v := ResolveNode(items[i]);
        if v.Err? {
          ItemFails(node, inputs, resolved, i);
          return v;
        }
        RestrictedJoin(inputs, old(consumed), names, Inputs(items[i]));
        out, names := out + [v.value], names + Inputs(items[i]);
      }
      ItemsGive(node, inputs, resolved, out);
      assert names == Inputs(node);
      r := Ok(List(out));
    }
  }

  /** The fields named so far are resolved, and `names` are the inputs they name. */
  ghost predicate FieldsDone(node: Value, inputs: map<string, Value>, resolved: map<string, Value>, keys: seq<string>, out: map<string, Value>, names: set<string>)
    requires node.Dict?
  {
    && (forall k :: k in keys ==> k in node.fields) && (forall k :: k in out <==> k in keys)
    && (forall k :: k in keys ==> Resolve(node.fields[k], inputs, resolved) == Ok(out[k]))
    && forall n :: n in names <==> exists k :: k in keys && n in Inputs(node.fields[k])
  }

  lemma NoFieldsDone(node: Value, inputs: map<string, Value>, resolved: map<string, Value>, keys: seq<string>)
    requires node.Dict? && keys == []
    ensures FieldsDone(node, inputs, resolved, keys, map[], {})
  {
  }

  lemma FieldDone(node: Value, inputs: map<string, Value>, resolved: map<string, Value>, keys: seq<string>, out: map<string, Value>, names: set<string>, k: string, v: Value)
    requires node.Dict? && FieldsDone(node, inputs, resolved, keys, out, names)
    requires k in node.fields && Resolve(node.fields[k], inputs, resolved) == Ok(v)
    ensures FieldsDone(node, inputs, resolved, keys + [k], out[k := v], names + Inputs(node.fields[k]))
  {
    hide Resolve, Inputs;
  }

  lemma AllFieldsDone(node: Value, inputs: map<string, Value>, resolved: map<string, Value>, keys: seq<string>, out: map<string, Value>, names: set<string>)
    requires node.Dict? && "$input" !in node.fields && "$ref" !in node.fields
    requires FieldsDone(node, inputs, resolved, keys, out, names) && forall k :: k in node.fields ==> k in keys
    ensures Resolve(node, inputs, resolved) == Ok(Dict(out)) && names == Inputs(node)
  {
    hide Resolve, Inputs;
    InputsOfFields(node);
    FieldsGive(node, inputs, resolved, out);
  }

  lemma RestrictedNothing(inputs: map<string, Value>)
    ensures Restricted(inputs, {}) == map[]
  {
  }

  lemma RestrictedJoin(inputs: map<string, Value>, before: map<string, Value>, a: set<string>, b: set<string>)
    ensures before + Restricted(inputs, a) + Restricted(inputs, b) == before + Restricted(inputs, a + b)
  {
  }

  /** `Resolve` and `Inputs` on leaves and operators. */
  lemma ResolveShape(node: Value, inputs: map<string, Value>, resolved: map<string, Value>)
    ensures !node.Dict? && !node.List? ==> Resolve(node, inputs, resolved) == Ok(node) && Inputs(node) == {}
    ensures node.Dict? && "$input" in node.fields ==>
              && Resolve(node, inputs, resolved) == (match Operand(node, "$input") case None => Err(ResourceUnresolved) case Some(p) => LookupIn(inputs, p))
              && Inputs(node) == (match Operand(node, "$input") case None => {} case Some(p) => {p[0]})
    ensures node.Dict? && "$input" !in node.fields && "$ref" in node.fields ==>
              && Resolve(node, inputs, resolved) == (match Operand(node, "$ref") case None => Err(ResourceUnresolved) case Some(p) => LookupIn(resolved, p))
              && Inputs(node) == {}
  {
  }

  lemma InputsOfFields(node: Value)
    requires node.Dict? && "$input" !in node.fields && "$ref" !in node.fields
    ensures forall n :: n in Inputs(node) <==> exists k :: k in node.fields && n in Inputs(node.fields[k])
  {
  }

  lemma InputsOfItems(node: Value)
    requires node.List?
    ensures forall n :: n in Inputs(node) <==> exists i :: 0 <= i < |node.items| && n in Inputs(node.items[i])
  {
  }

  /** A mapping fails with any of its fields, and otherwise holds their resolutions. */
  lemma FieldFails(node: Value, inputs: map<string, Value>, resolved: map<string, Value>, k: string)
    requires node.Dict? && "$input" !in node.fields && "$ref" !in node.fields
    requires k in node.fields && Resolve(node.fields[k], inputs, resolved).Err?
    ensures Resolve(node, inputs, resolved) == Resolve(node.fields[k], inputs, resolved)
  {
  }

  lemma FieldsGive(node: Value, inputs: map<string, Value>, resolved: map<string, Value>, out: map<string, Value>)
    requires node.Dict? && "$input" !in node.fields && "$ref" !in node.fields
    requires out.Keys == node.fields.Keys && forall k :: k in node.fields ==> Resolve(node.fields[k], inputs, resolved) == Ok(out[k])
    ensures Resolve(node, inputs, resolved) == Ok(Dict(out))
  {
    assert ResolvedFields(node, inputs, resolved) == out;
  }

  lemma ItemFails(node: Value, inputs: map<string, Value>, resolved: map<string, Value>, i: nat)
    requires node.List? && i < |node.items| && Resolve(node.items[i], inputs, resolved).Err?
    ensures Resolve(node, inputs, resolved) == Resolve(node.items[i], inputs, resolved)
  {
  }

  lemma ItemsGive(node: Value, inputs: map<string, Value>, resolved: map<string, Value>, out: seq<Value>)
    requires node.List? && |out| == |node.items|
    requires forall i :: 0 <= i < |out| ==> Resolve(node.items[i], inputs, resolved) == Ok(out[i])
    ensures Resolve(node, inputs, resolved) == Ok(List(out))
  {
    assert ResolvedItems(node.items, inputs, resolved) == out;
  }

  // ---------------------------------------------------------------- the whole operation

  function AllInputs(declarations: map<string, Value>): set<string> {
    set n, i | n in declarations && i in Inputs(declarations[n]) :: i
  }

  datatype Resolved = Resolved(values: map<string, Value>, consumed: map<string, Value>)

  /** `resolve_resources`: the consistent values, and exactly the inputs the declarations name. */
  method ResolveResources(declarations: map<string, Value>, inputs: map<string, Value>) returns (r: Result<Resolved>)
    ensures r.Ok? ==>
              && ResolveAll(declarations, inputs) == Ok(r.value.values) && Consistent(declarations, inputs, r.value.values)
              && AllInputs(declarations) <= inputs.Keys && r.value.consumed == Restricted(inputs, AllInputs(declarations))
    ensures r.Err? ==> ResolveAll(declarations, inputs) == Err(r.error)
  {
    hide Resolve, Inputs, AllInputs, References, WellFormed, Restricted, Consistent, Declared, Layers, Solve, Acyclic;
    if !Declared(declarations) { return Err(ResourceUnresolved); }
    var order := LayerLoop(ResourceGraph(declarations));
    if order == None { return Err(ResourceCycle); }
    OrderCovers(declarations);
    var resolver := new Resolver(inputs);
    var done := ResolveInOrder(resolver, declarations, order.value);
    if done.Err? { return Err(done.error); }
    ResolvedExactlyConsistent(declarations, inputs, resolver.resolved);
    r := Ok(Resolved(resolver.resolved, resolver.consumed));
  }

  lemma OrderCovers(declarations: map<string, Value>)
    requires Layers(ResourceGraph(declarations).Keys, ResourceGraph(declarations)).Some?
    ensures forall n :: n in Layers(ResourceGraph(declarations).Keys, ResourceGraph(declarations)).value <==> n in declarations
  {
    hide Layers, References, Before;
    var deps := ResourceGraph(declarations);
    LayersOrder(deps.Keys, deps);
    var order := Layers(deps.Keys, deps).value;
    forall n ensures n in order <==> n in declarations {
      assert n in order <==> n in Elements(order);
      assert n in deps.Keys <==> n in declarations;
    }
  }

  /** The resolution loop over the layered order. */
  method ResolveInOrder(resolver: Resolver, declarations: map<string, Value>, order: seq<string>) returns (done: Result<()>)
    requires resolver.resolved == map[] && resolver.consumed == map[]
    modifies resolver
    ensures var solved := Solve(ResourceRule(declarations, resolver.inputs), order, map[]);
            if done.Ok? then solved == Ok(resolver.resolved) else solved == Err(done.error)
    ensures done.Ok? && (forall n :: n in order <==> n in declarations) ==>
              && AllInputs(declarations) <= resolver.inputs.Keys
              && resolver.consumed == Restricted(resolver.inputs, AllInputs(declarations))
  {
    hide Resolve, Inputs, Restricted, Solve;
    ghost var rule := ResourceRule(declarations, resolver.inputs);
    ghost var names: set<string> := {};
    RestrictedNothing(resolver.inputs);
    assert order[0..] == order;
    for i := 0 to |order|
      invariant Solve(rule, order, map[]) == Solve(rule, order[i..], resolver.resolved)
      invariant names <= resolver.inputs.Keys && resolver.consumed == Restricted(resolver.inputs, names)
      invariant forall n :: n in order[..i] ==> n in declarations && Inputs(declarations[n]) <= names
      invariant names <= AllInputs(declarations)
    {
      var name := order[i];
      SolveStep(rule, order, i, resolver.resolved);
      assert rule(name, resolver.resolved) == ResolveOne(declarations, resolver.inputs, name, resolver.resolved);
      if name !in declarations { return Err(ResourceUnresolved); }
      var v := resolver.ResolveNode(declarations[name]);
      if v.Err? { return Err(v.error); }
      resolver.resolved := resolver.resolved[name := v.value];
      RestrictedMore(resolver.inputs, names, Inputs(declarations[name]));
      names := names + Inputs(declarations[name]);
      assert order[..i + 1] == order[..i] + [name];
    }
    assert order[..|order|] == order;
    if forall n :: n in order <==> n in declarations { assert names == AllInputs(declarations); }
    SolveEnd(rule, order[|order|..], resolver.resolved);
    done := Ok(());
  }

  lemma RestrictedMore(inputs: map<string, Value>, a: set<string>, b: set<string>)
    ensures Restricted(inputs, a) + Restricted(inputs, b) == Restricted(inputs, a + b)
  {
  }

  lemma SolveStep(rule: Rule<Value>, order: seq<string>, i: nat, m: map<string, Value>)
    requires i < |order|
    ensures match rule(order[i], m)
            case Err(e) => Solve(rule, order[i..], m) == Err(e)
            case Ok(v) => Solve(rule, order[i..], m) == Solve(rule, order[i + 1..], m[order[i] := v])
  {
    assert order[i..][0] == order[i] && order[i..][1..] == order[i + 1..];
  }

  lemma SolveEnd(rule: Rule<Value>, order: seq<string>, m: map<string, Value>)
    requires order == []
    ensures Solve(rule, order, m) == Ok(m)
  {
  }

  /** Inputs nobody names change nothing. */
  lemma UnnamedInputsAreIrrelevant(declarations: map<string, Value>, x: map<string, Value>, y: map<string, Value>, m: map<string, Value>)
    requires SameOn(AllInputs(declarations), x, y)
    ensures ResolveAll(declarations, x) == Ok(m) <==> ResolveAll(declarations, y) == Ok(m)
    ensures Restricted(x, AllInputs(declarations)) == Restricted(y, AllInputs(declarations))
  {
    hide Resolve, ResolveAll, Inputs, References, WellFormed;
    ResolvedExactlyConsistent(declarations, x, m);
    ResolvedExactlyConsistent(declarations, y, m);
    forall n | n in declarations ensures Resolve(declarations[n], x, m) == Resolve(declarations[n], y, m) {
      assert SameOn(Inputs(declarations[n]), x, y);
      ResolveReadsOnlyMentioned(declarations[n], x, y, m, m);
    }
  }

  // ---------------------------------------------------------------- overrides

  /** `with_override` on the value at the root: the whole path must already exist. */
  function Override(v: Value, path: seq<string>, x: Value): Result<Value>
    decreases |path|
  {
    if path == [] then Ok(x)
    else if !v.Dict? || path[0] !in v.fields then Err(ResourceUnresolved)
    else
      var child :- Override(v.fields[path[0]], path[1..], x);
      Ok(Dict(v.fields[path[0] := child]))
  }

  /** Neither path continues the other. */
  predicate Apart(p: seq<string>, q: seq<string>) {
    exists i :: 0 <= i < |p| && i < |q| && p[i] != q[i]
  }

  /** An override succeeds exactly on existing paths, is read back there, and leaves every path
      apart from it unchanged. */
  lemma {:induction false} OverrideExactly(v: Value, path: seq<string>, x: Value, other: seq<string>)
    ensures Override(v, path, x).Ok? <==> Descend(v, path).Some?
    ensures Override(v, path, x).Ok? ==> Descend(Override(v, path, x).value, path) == Some(x)
    ensures Override(v, path, x).Ok? && Apart(path, other) ==> Descend(Override(v, path, x).value, other) == Descend(v, other)
    decreases |path|
  {
    if path != [] && v.Dict? && path[0] in v.fields {
      OverrideExactly(v.fields[path[0]], path[1..], x, if other == [] then [] else other[1..]);
      if Override(v, path, x).Ok? && Apart(path, other) && path[0] == other[0] {
        var i :| 0 <= i < |path| && i < |other| && path[i] != other[i];
        assert path[1..][i - 1] != other[1..][i - 1];
      }
    }
  }
}
