/** What an expression means, stated without the evaluator: a relation between an expression, what
    it can see and a value, and another for its failures.  Evaluating finds exactly that value or
    that failure; and a compiled expression means what its source means when resource references
    read the resources and, given a scope, scope references read that scope. */
module Meaning {
  import opened Order
  import opened Values
  import opened Expressions
  import opened Operators

  /** Everything a source expression can read. */
  datatype Sight = Sight(env: Env, resources: Scope)

  predicate Leaf(e: Expr) {
    e.Literal? || e.StateRef? || e.LocalRef? || e.DerivedRef? || e.ScopeRef? || e.ResourceRef?
  }

  /** The operands in the order they are evaluated: left to right, the fields of a record by name. */
  function Operands(e: Expr): (os: seq<Expr>)
    ensures forall i :: 0 <= i < |os| ==> os[i] < e
  {
    match e
    case Arith(_, l, r) => [l, r]
    case Compare(_, l, r) => [l, r]
    case Equal(l, r) => [l, r]
    case NotEqual(l, r) => [l, r]
    case Many(os, _) => os
    case Not(x) => [x]
    case Length(x) => [x]
    case Append(l, r) => [l, r]
    case Record(parts) =>
      var names := Sorted(parts.Keys);
      assert forall k :: k in parts ==> parts[k] < e;
      seq(|names|, i requires 0 <= i < |names| => parts[names[i]])
    case SumField(x, _) => [x]
    case _ => []
  }

  // ---------------------------------------------------------------- the relations

  predicate Named(values: map<string, Value>, name: string, v: Value) {
    name in values && values[name] == v
  }

  ghost predicate LeafMeans(e: Expr, s: Sight, v: Value)
    requires Leaf(e)
  {
    match e
    case Literal(w) => v == w
    case StateRef(n) => Named(s.env.state, n, v)
    case LocalRef(n) => Named(s.env.locals, n, v)
    case DerivedRef(n) => Named(s.env.derived, n, v)
    case ScopeRef(path) => s.env.scope.Some? && Reads(Dict(s.env.scope.value), path, v)
    case ResourceRef(path) => s.resources.Some? && Reads(Dict(s.resources.value), path, v)
  }

  ghost predicate LeafFails(e: Expr, s: Sight, x: Error)
    requires Leaf(e)
  {
    (forall v :: !LeafMeans(e, s, v)) && x == if e.ResourceRef? then ResourceUnresolved else ScopeResolution
  }

  /** The operator's value on the values of its operands. */
  ghost predicate Combines(p: Primitives, e: Expr, vals: seq<Value>, v: Value)
    requires !Leaf(e) && |vals| == |Operands(e)|
  {
    match e
    case Arith(op, _, _) => Computes(p, op, vals[0], vals[1], v)
    case Compare(cmp, _, _) => Ranks(p, cmp, vals[0], vals[1], v)
    case Equal(_, _) => v == Bool(p.bytes(vals[0]) == p.bytes(vals[1]))
    case NotEqual(_, _) => v == Bool(p.bytes(vals[0]) != p.bytes(vals[1]))
    case Many(_, useAnd) =>
      && (forall i :: 0 <= i < |vals| ==> vals[i].Bool?)
      && v == Bool(if useAnd then forall i :: 0 <= i < |vals| ==> vals[i] == Bool(true)
                   else exists i :: 0 <= i < |vals| && vals[i] == Bool(true))
    case Not(_) => vals[0].Bool? && v == Bool(!vals[0].flag)
    case Length(_) => Measures(vals[0], v)
    case Append(_, _) => vals[0].List? && v == List(vals[0].items + [vals[1]])
    case Record(parts) =>
      && v.Dict? && v.fields.Keys == parts.Keys
      && forall i :: 0 <= i < |vals| ==> Named(v.fields, Sorted(parts.Keys)[i], vals[i])
    case SumField(_, field) => Sums(p, vals[0], field, v)
  }

  ghost predicate CannotCombine(p: Primitives, e: Expr, vals: seq<Value>, x: Error)
    requires !Leaf(e) && |vals| == |Operands(e)|
  {
    match e
    case Arith(op, _, _) => CannotCompute(p, op, vals[0], vals[1], x)
    case Compare(cmp, _, _) => CannotRank(p, cmp, vals[0], vals[1], x)
    case Not(_) => !vals[0].Bool? && x == EvaluationFailed
    case Length(_) => CannotMeasure(vals[0], x)
    case Append(_, _) => !vals[0].List? && x == NativeTypeError
    case SumField(_, field) => CannotSum(p, vals[0], field, x)
    case _ => false
  }

  ghost predicate Means(p: Primitives, e: Expr, s: Sight, v: Value)
    decreases e, 1
  {
    if Leaf(e) then LeafMeans(e, s, v)
    else exists vals: seq<Value> :: AllMean(p, e, s, vals) && Combines(p, e, vals, v)
  }

  ghost predicate AllMean(p: Primitives, e: Expr, s: Sight, vals: seq<Value>)
    decreases e, 0
  {
    |vals| == |Operands(e)| && forall i :: 0 <= i < |vals| ==> Means(p, Operands(e)[i], s, vals[i])
  }

  /** `$and` and `$or` refuse an operand that is no boolean before they evaluate the next one. */
  predicate Refuses(e: Expr, v: Value) {
    e.Many? && !v.Bool?
  }

  /** Operand i is evaluated without ending the evaluation. */
  ghost predicate Passes(p: Primitives, e: Expr, s: Sight, i: nat)
    requires i < |Operands(e)|
  {
    exists v :: Means(p, Operands(e)[i], s, v) && !Refuses(e, v)
  }

  /** The first operand that fails, or is refused, gives the failure; otherwise the operator may. */
  ghost predicate Fails(p: Primitives, e: Expr, s: Sight, x: Error) {
    if Leaf(e) then LeafFails(e, s, x)
    else
      || (exists i: nat {:trigger Operands(e)[i]} :: i < |Operands(e)|
            && (forall j: nat :: j < i ==> Passes(p, e, s, j))
            && (Fails(p, Operands(e)[i], s, x) || RefusedAt(p, e, s, i, x)))
      || BreaksWith(p, e, s, x)
  }

  ghost predicate RefusedAt(p: Primitives, e: Expr, s: Sight, i: nat, x: Error)
    requires i < |Operands(e)|
  {
    x == EvaluationFailed && exists v :: Means(p, Operands(e)[i], s, v) && Refuses(e, v)
  }

  ghost predicate BreaksWith(p: Primitives, e: Expr, s: Sight, x: Error)
    requires !Leaf(e)
  {
    exists vals: seq<Value> :: AllMean(p, e, s, vals) && CannotCombine(p, e, vals, x)
  }

  /** The result is exactly what e means seen from s: its value, or its failure. */
  ghost predicate Finds(p: Primitives, found: Result<Value>, e: Expr, s: Sight) {
    && (forall v :: found == Ok(v) <==> Means(p, e, s, v))
    && (forall x :: found == Err(x) <==> Fails(p, e, s, x))
  }

  // ---------------------------------------------------------------- evaluation, operand by operand

  /** Operand j evaluates, and does not end the evaluation. */
  predicate Goes(p: Primitives, e: Expr, env: Env, j: nat)
    requires j < |Operands(e)|
  {
    var r := Eval(p, Operands(e)[j], env);
    r.Ok? && !Refuses(e, r.value)
  }

  function ErrorAt(p: Primitives, e: Expr, env: Env, i: nat): Error
    requires i < |Operands(e)|
  {
    var r := Eval(p, Operands(e)[i], env);
    if r.Err? then r.error else EvaluationFailed
  }

  lemma {:induction false} ManyStops(p: Primitives, e: Expr, env: Env, i: nat, from: nat, result: bool)
    requires e.Many? && from <= i < |e.operands| && !Goes(p, e, env, i) && forall j: nat :: from <= j < i ==> Goes(p, e, env, j)
    ensures EvalMany(p, e, from, result, env) == Err(ErrorAt(p, e, env, i))
    decreases i - from
  {
    hide Eval;
    if from < i {
      assert Goes(p, e, env, from);
      var v := Eval(p, e.operands[from], env).value;
      ManyStops(p, e, env, i, from + 1, if e.useAnd then result && v.flag else result || v.flag);
    }
  }

  lemma {:induction false} ManyAssembles(p: Primitives, e: Expr, env: Env, vals: seq<Value>, from: nat, result: bool)
    requires e.Many? && |vals| == |e.operands| && from <= |vals|
    requires forall i :: 0 <= i < |vals| ==> Eval(p, e.operands[i], env) == Ok(vals[i]) && vals[i].Bool?
    ensures EvalMany(p, e, from, result, env)
            == Ok(Bool(if e.useAnd then result && forall i :: from <= i < |vals| ==> vals[i] == Bool(true)
                       else result || exists i :: from <= i < |vals| && vals[i] == Bool(true)))
    decreases |vals| - from
  {
    hide Eval;
    if from < |vals| {
      ManyAssembles(p, e, env, vals, from + 1, if e.useAnd then result && vals[from].flag else result || vals[from].flag);
    }
  }

  lemma {:induction false} PartsStop(p: Primitives, e: Expr, env: Env, names: seq<string>, i: nat)
    requires e.Record? && (forall n :: n in names ==> n in e.parts) && i < |names|
    requires Eval(p, e.parts[names[i]], env).Err? && forall j :: 0 <= j < i ==> Eval(p, e.parts[names[j]], env).Ok?
    ensures EvalParts(p, e, names, env) == Err(Eval(p, e.parts[names[i]], env).error)
    decreases |names|
  {
    hide Eval;
    if i > 0 {
      assert forall j :: 0 < j <= i ==> names[j] == names[1..][j - 1];
      PartsStop(p, e, env, names[1..], i - 1);
    }
  }

  lemma {:induction false} PartsAssemble(p: Primitives, e: Expr, env: Env, names: seq<string>)
    requires e.Record? && forall n :: n in names ==> n in e.parts && Eval(p, e.parts[n], env).Ok?
    ensures var r := EvalParts(p, e, names, env);
            r.Ok? && r.value.Keys == Elements(names) && forall n :: n in names ==> r.value[n] == Eval(p, e.parts[n], env).value
    decreases |names|
  {
    hide Eval;
    if names != [] {
      PartsAssemble(p, e, env, names[1..]);
      assert forall n :: n in names <==> n == names[0] || n in names[1..];
      assert Elements(names) == {names[0]} + Elements(names[1..]);
    }
  }

  lemma EvalStops(p: Primitives, e: Expr, env: Env, i: nat)
    requires !Leaf(e) && i < |Operands(e)| && !Goes(p, e, env, i) && forall j: nat :: j < i ==> Goes(p, e, env, j)
    ensures Eval(p, e, env) == Err(ErrorAt(p, e, env, i))
  {
    hide EvalMany, EvalParts, ArithValue, CompareValue, LengthValue, SumValue, Sorted;
    if i > 0 { assert Goes(p, e, env, 0); }
    match e
    case Many(_, useAnd) => ManyStops(p, e, env, i, 0, useAnd);
    case Record(parts) =>
      var names := Sorted(parts.Keys);
      forall j: nat | j < i ensures Eval(p, parts[names[j]], env).Ok? { assert Goes(p, e, env, j); }
      PartsStop(p, e, env, names, i);
    case _ =>
  }

  /** The result is exactly what the operator makes of these values. */
  ghost predicate Assembled(p: Primitives, e: Expr, vals: seq<Value>, r: Result<Value>)
    requires !Leaf(e) && |vals| == |Operands(e)|
  {
    && (forall v :: r == Ok(v) <==> Combines(p, e, vals, v))
    && (forall x :: r == Err(x) <==> CannotCombine(p, e, vals, x))
  }

  /** A record's value has its names, each with the value of its part in name order. */
  predicate Filled(names: seq<string>, vals: seq<Value>, keys: set<string>, v: Value)
    requires |vals| == |names|
  {
    v.Dict? && v.fields.Keys == keys && forall i :: 0 <= i < |vals| ==> Named(v.fields, names[i], vals[i])
  }

  lemma RecordCombines(p: Primitives, e: Expr, vals: seq<Value>)
    requires e.Record? && |vals| == |Operands(e)|
    ensures forall v :: Combines(p, e, vals, v) <==> Filled(Sorted(e.parts.Keys), vals, e.parts.Keys, v)
    ensures forall x :: !CannotCombine(p, e, vals, x)
  {
    hide Sorted, Named;
  }

  lemma FilledOnce(keys: set<string>, vals: seq<Value>, m: map<string, Value>, v: Value)
    requires |vals| == |Sorted(keys)| && m.Keys == keys && forall i :: 0 <= i < |vals| ==> m[Sorted(keys)[i]] == vals[i]
    ensures Filled(Sorted(keys), vals, keys, v) <==> v == Dict(m)
  {
    var names := Sorted(keys);
    if Filled(names, vals, keys, v) {
      forall n | n in m ensures v.fields[n] == m[n] {
        var i :| 0 <= i < |names| && names[i] == n;
        assert Named(v.fields, names[i], vals[i]);
      }
      assert v.fields == m;
    }
  }

  /** A record's fields on the values of its parts in name order. */
  lemma FieldsCombine(p: Primitives, e: Expr, vals: seq<Value>, m: map<string, Value>)
    requires e.Record? && |vals| == |Operands(e)| && m.Keys == e.parts.Keys
    requires forall i :: 0 <= i < |vals| ==> m[Sorted(e.parts.Keys)[i]] == vals[i]
    ensures Assembled(p, e, vals, Ok(Dict(m)))
  {
    hide Combines, CannotCombine, Filled, Sorted;
    RecordCombines(p, e, vals);
    forall v ensures Combines(p, e, vals, v) <==> v == Dict(m) { FilledOnce(e.parts.Keys, vals, m, v); }
  }

  lemma RecordAssembles(p: Primitives, e: Expr, env: Env, vals: seq<Value>)
    requires e.Record? && |vals| == |Operands(e)| && forall i :: 0 <= i < |vals| ==> Eval(p, Operands(e)[i], env) == Ok(vals[i])
    ensures Assembled(p, e, vals, Eval(p, e, env))
  {
    hide Eval, EvalParts, Combines, Assembled;
    var names := Sorted(e.parts.Keys);
    forall n | n in names ensures n in e.parts && Eval(p, e.parts[n], env).Ok? {
      var i :| 0 <= i < |names| && names[i] == n;
      assert Operands(e)[i] == e.parts[n];
    }
    PartsAssemble(p, e, env, names);
    var m := EvalParts(p, e, names, env).value;
    forall i | 0 <= i < |vals| ensures m[names[i]] == vals[i] { assert Operands(e)[i] == e.parts[names[i]]; }
    FieldsCombine(p, e, vals, m);
    EvalRecord(p, e, env);
  }

  lemma EvalRecord(p: Primitives, e: Expr, env: Env)
    requires e.Record?
    ensures Eval(p, e, env) == (match EvalParts(p, e, Sorted(e.parts.Keys), env) case Ok(m) => Ok(Dict(m)) case Err(x) => Err(x))
  {
  }

  lemma AppendAssembles(p: Primitives, l: Expr, r: Expr, env: Env, v: Value, item: Value)
    requires Eval(p, l, env) == Ok(v) && Eval(p, r, env) == Ok(item)
    ensures Eval(p, Append(l, r), env) == if v.List? then Ok(List(v.items + [item])) else Err(NativeTypeError)
  {
    hide EvalMany, EvalParts, ArithValue, CompareValue, LengthValue, SumValue, ResolveScope, Lookup, Sorted;
  }

  lemma NotAssembles(p: Primitives, x: Expr, env: Env, v: Value)
    requires Eval(p, x, env) == Ok(v)
    ensures Eval(p, Not(x), env) == if v.Bool? then Ok(Bool(!v.flag)) else Err(EvaluationFailed)
    ensures Eval(p, Length(x), env) == LengthValue(v)
  {
    hide EvalMany, EvalParts, ArithValue, CompareValue, LengthValue, SumValue, ResolveScope, Lookup, Sorted;
  }

  lemma EqualAssembles(p: Primitives, l: Expr, r: Expr, env: Env, a: Value, b: Value)
    requires Eval(p, l, env) == Ok(a) && Eval(p, r, env) == Ok(b)
    ensures Eval(p, Equal(l, r), env) == Ok(Bool(p.bytes(a) == p.bytes(b)))
    ensures Eval(p, NotEqual(l, r), env) == Ok(Bool(p.bytes(a) != p.bytes(b)))
  {
    hide EvalMany, EvalParts, ArithValue, CompareValue, LengthValue, SumValue, ResolveScope, Lookup, Sorted;
  }

  lemma PlainAssembles(p: Primitives, e: Expr, env: Env, vals: seq<Value>)
    requires (e.Equal? || e.NotEqual? || e.Not? || e.Append? || e.Length?) && |vals| == |Operands(e)|
    requires forall i :: 0 <= i < |vals| ==> Eval(p, Operands(e)[i], env) == Ok(vals[i])
    ensures Assembled(p, e, vals, Eval(p, e, env))
  {
    hide Eval, LengthValue, Measures, CannotMeasure;
    assert Eval(p, Operands(e)[0], env) == Ok(vals[0]);
    if |vals| > 1 { assert Eval(p, Operands(e)[1], env) == Ok(vals[1]); }
    match e
    case Length(x) =>
      NotAssembles(p, x, env, vals[0]);
      LengthExactly(vals[0]);
    case Not(x) => NotAssembles(p, x, env, vals[0]);
    case Append(l, r) => AppendAssembles(p, l, r, env, vals[0], vals[1]);
    case Equal(l, r) => EqualAssembles(p, l, r, env, vals[0], vals[1]);
    case NotEqual(l, r) => EqualAssembles(p, l, r, env, vals[0], vals[1]);
    case _ =>
  }

  lemma EvalAssembles(p: Primitives, e: Expr, env: Env, vals: seq<Value>)
    requires !Leaf(e) && |vals| == |Operands(e)|
    requires forall i :: 0 <= i < |vals| ==> Eval(p, Operands(e)[i], env) == Ok(vals[i]) && !Refuses(e, vals[i])
    ensures Assembled(p, e, vals, Eval(p, e, env))
  {
    hide EvalMany, EvalParts, ArithValue, CompareValue, SumValue, LengthValue, Sorted,
         Computes, CannotCompute, Ranks, CannotRank, Sums, CannotSum;
    match e
    case Arith(op, _, _) => ArithExactly(p, op, vals[0], vals[1]);
    case Compare(cmp, _, _) => CompareExactly(p, cmp, vals[0], vals[1]);
    case SumField(_, field) => SumExactly(p, vals[0], field);
    case Many(_, useAnd) => ManyAssembles(p, e, env, vals, 0, useAnd);
    case Record(_) => RecordAssembles(p, e, env, vals);
    case _ => PlainAssembles(p, e, env, vals);
  }

  // ---------------------------------------------------------------- meaning, operand by operand

  /** The same operator with the same parameters, so that operands correspond one to one. */
  predicate SameOperator(c: Expr, e: Expr) {
    match e
    case Arith(op, _, _) => c.Arith? && c.op == op
    case Compare(cmp, _, _) => c.Compare? && c.cmp == cmp
    case Equal(_, _) => c.Equal?
    case NotEqual(_, _) => c.NotEqual?
    case Many(os, useAnd) => c.Many? && c.useAnd == useAnd && |c.operands| == |os|
    case Not(_) => c.Not?
    case Length(_) => c.Length?
    case Append(_, _) => c.Append?
    case Record(parts) => c.Record? && c.parts.Keys == parts.Keys
    case SumField(_, field) => c.SumField? && c.field == field
    case _ => false
  }

  lemma SameCombination(p: Primitives, c: Expr, e: Expr, vals: seq<Value>, v: Value)
    requires !Leaf(e) && SameOperator(c, e) && |vals| == |Operands(e)|
    ensures !Leaf(c) && |Operands(c)| == |Operands(e)|
    ensures Combines(p, c, vals, v) <==> Combines(p, e, vals, v)
  {
    hide Computes, Ranks, Sums, Sorted, Measures, Named;
    match e
    case Many(_, _) =>
    case Record(_) =>
    case _ =>
  }

  lemma SameFailure(p: Primitives, c: Expr, e: Expr, vals: seq<Value>, x: Error)
    requires !Leaf(e) && SameOperator(c, e) && |vals| == |Operands(e)|
    ensures !Leaf(c) && |Operands(c)| == |Operands(e)|
    ensures CannotCombine(p, c, vals, x) <==> CannotCombine(p, e, vals, x)
  {
    hide CannotCompute, CannotRank, CannotSum, Sorted, CannotMeasure;
  }

  lemma SameAssembled(p: Primitives, c: Expr, e: Expr, vals: seq<Value>, r: Result<Value>)
    requires !Leaf(e) && SameOperator(c, e) && |vals| == |Operands(e)|
    ensures !Leaf(c) && |Operands(c)| == |Operands(e)|
    ensures Assembled(p, c, vals, r) ==> Assembled(p, e, vals, r)
  {
    hide Combines, CannotCombine, Operands, SameOperator;
    SameCombination(p, c, e, vals, Null);
    if Assembled(p, c, vals, r) {
      forall v ensures Combines(p, c, vals, v) <==> Combines(p, e, vals, v) { SameCombination(p, c, e, vals, v); }
      forall x ensures CannotCombine(p, c, vals, x) <==> CannotCombine(p, e, vals, x) { SameFailure(p, c, e, vals, x); }
    }
  }

  lemma FoundOnce(p: Primitives, a: Result<Value>, e: Expr, s: Sight)
    requires Finds(p, a, e, s)
    ensures a.Ok? ==> Means(p, e, s, a.value) && forall x :: !Fails(p, e, s, x)
    ensures a.Err? ==> Fails(p, e, s, a.error) && forall v :: !Means(p, e, s, v)
    ensures forall v :: Means(p, e, s, v) ==> a == Ok(v)
    ensures forall x :: Fails(p, e, s, x) ==> a == Err(x)
  {
    hide Means, Fails;
    if a.Ok? { assert a == Ok(a.value); } else { assert a == Err(a.error); }
  }

  /** Evaluating each operand of c finds what the corresponding operand of e means. */
  ghost predicate OperandsFind(p: Primitives, c: Expr, env: Env, e: Expr, s: Sight) {
    && |Operands(c)| == |Operands(e)|
    && forall i :: 0 <= i < |Operands(e)| ==> Finds(p, Eval(p, Operands(c)[i], env), Operands(e)[i], s)
  }

  lemma OperandFound(p: Primitives, c: Expr, env: Env, e: Expr, s: Sight, i: nat)
    requires OperandsFind(p, c, env, e, s) && SameOperator(c, e) && i < |Operands(e)|
    ensures Goes(p, c, env, i) <==> Passes(p, e, s, i)
    ensures Eval(p, Operands(c)[i], env).Ok? ==> Means(p, Operands(e)[i], s, Eval(p, Operands(c)[i], env).value)
    ensures forall v :: Means(p, Operands(e)[i], s, v) ==> Eval(p, Operands(c)[i], env) == Ok(v)
    ensures forall x :: Fails(p, Operands(e)[i], s, x) <==> Eval(p, Operands(c)[i], env) == Err(x)
    ensures forall v :: Refuses(c, v) == Refuses(e, v)
  {
    hide Eval, Means, Fails, Operands;
    FoundOnce(p, Eval(p, Operands(c)[i], env), Operands(e)[i], s);
  }

  /** Operand i ends the evaluation with this failure. */
  ghost predicate Ends(p: Primitives, e: Expr, s: Sight, i: nat, x: Error)
    requires i < |Operands(e)|
  {
    Fails(p, Operands(e)[i], s, x) || RefusedAt(p, e, s, i, x)
  }

  lemma OperandEnds(p: Primitives, c: Expr, env: Env, e: Expr, s: Sight, i: nat, x: Error)
    requires OperandsFind(p, c, env, e, s) && SameOperator(c, e) && i < |Operands(e)|
    ensures |Operands(c)| == |Operands(e)|
    ensures Ends(p, e, s, i, x) <==> !Goes(p, c, env, i) && x == ErrorAt(p, c, env, i)
  {
    hide Eval, Means, Fails, Operands, SameOperator, Refuses, Finds, Passes;
    OperandFound(p, c, env, e, s, i);
    var r := Eval(p, Operands(c)[i], env);
  }

  lemma AllGo(p: Primitives, c: Expr, env: Env, e: Expr, s: Sight, n: nat)
    requires OperandsFind(p, c, env, e, s) && SameOperator(c, e) && n <= |Operands(e)|
    ensures (forall j: nat :: j < n ==> Passes(p, e, s, j)) <==> forall j: nat :: j < n ==> Goes(p, c, env, j)
  {
    hide Eval, Means, Fails, Operands, SameOperator, Passes, Goes, Finds;
    forall j: nat | j < n ensures Goes(p, c, env, j) <==> Passes(p, e, s, j) { OperandFound(p, c, env, e, s, j); }
  }

  /** Values meant by all operands are those evaluated, and they are found as soon as all evaluate. */
  lemma OperandValues(p: Primitives, c: Expr, env: Env, e: Expr, s: Sight, vals: seq<Value>)
    requires OperandsFind(p, c, env, e, s) && SameOperator(c, e)
    ensures AllMean(p, e, s, vals)
            <==> |vals| == |Operands(c)| && forall i :: 0 <= i < |vals| ==> Eval(p, Operands(c)[i], env) == Ok(vals[i])
  {
    hide Eval, Means, Fails, Operands, SameOperator, Refuses, Finds, Passes, Goes;
    forall i: nat | i < |Operands(e)|
      ensures forall v :: Means(p, Operands(e)[i], s, v) <==> Eval(p, Operands(c)[i], env) == Ok(v)
    {
      OperandFound(p, c, env, e, s, i);
    }
  }

  ghost predicate FailsAt(p: Primitives, e: Expr, s: Sight, i: nat, x: Error)
    requires i < |Operands(e)|
  {
    (forall j: nat :: j < i ==> Passes(p, e, s, j)) && Ends(p, e, s, i, x)
  }

  lemma FailingOperand(p: Primitives, e: Expr, s: Sight, x: Error) returns (i: nat)
    requires !Leaf(e) && Fails(p, e, s, x) && !BreaksWith(p, e, s, x)
    ensures i < |Operands(e)| && FailsAt(p, e, s, i, x)
  {
    hide CannotCombine, Operands, BreaksWith, RefusedAt, Passes, Means, AllMean;
    i :| i < |Operands(e)| && (forall j: nat :: j < i ==> Passes(p, e, s, j))
         && (Fails(p, Operands(e)[i], s, x) || RefusedAt(p, e, s, i, x));
  }

  lemma FailsThrough(p: Primitives, e: Expr, s: Sight, i: nat, x: Error)
    requires !Leaf(e) && i < |Operands(e)| && FailsAt(p, e, s, i, x)
    ensures Fails(p, e, s, x)
  {
    hide CannotCombine, Operands, BreaksWith, RefusedAt, Passes, Means, AllMean;
    var o := Operands(e)[i];
  }

  lemma BreaksThrough(p: Primitives, e: Expr, s: Sight, x: Error)
    requires !Leaf(e) && BreaksWith(p, e, s, x)
    ensures Fails(p, e, s, x)
  {
    hide BreaksWith, Operands, Passes;
  }

  lemma FailsHow(p: Primitives, e: Expr, s: Sight, x: Error)
    requires !Leaf(e)
    ensures Fails(p, e, s, x) <==> (exists i: nat :: i < |Operands(e)| && FailsAt(p, e, s, i, x)) || BreaksWith(p, e, s, x)
  {
    hide Operands, BreaksWith, Fails, FailsAt;
    if BreaksWith(p, e, s, x) {
      BreaksThrough(p, e, s, x);
    } else if Fails(p, e, s, x) {
      var i := FailingOperand(p, e, s, x);
    } else if i: nat :| i < |Operands(e)| && FailsAt(p, e, s, i, x) {
      FailsThrough(p, e, s, i, x);
    }
  }

  lemma MeansHow(p: Primitives, e: Expr, s: Sight, v: Value)
    requires !Leaf(e)
    ensures Means(p, e, s, v) <==> exists vals: seq<Value> :: AllMean(p, e, s, vals) && Combines(p, e, vals, v)
  {
    hide AllMean, Combines, Operands;
  }

  lemma FailsAtHow(p: Primitives, c: Expr, env: Env, e: Expr, s: Sight, i: nat, x: Error)
    requires OperandsFind(p, c, env, e, s) && SameOperator(c, e) && i < |Operands(e)|
    ensures FailsAt(p, e, s, i, x)
            <==> ((forall j: nat :: j < i ==> Goes(p, c, env, j)) && !Goes(p, c, env, i) && x == ErrorAt(p, c, env, i))
  {
    hide Means, Fails, Operands, Refuses, Goes, Passes, Ends, Eval, OperandsFind, SameOperator, ErrorAt;
    AllGo(p, c, env, e, s, i);
    OperandEnds(p, c, env, e, s, i, x);
  }

  /** Values all operands mean although one of them ends the evaluation: it is refused by `$and` or
      `$or`, which then make nothing of them. */
  lemma RefusedValues(p: Primitives, c: Expr, env: Env, e: Expr, s: Sight, i: nat, vals: seq<Value>)
    requires !Leaf(e) && SameOperator(c, e) && OperandsFind(p, c, env, e, s)
    requires i < |Operands(c)| && !Goes(p, c, env, i) && AllMean(p, e, s, vals)
    ensures |vals| == |Operands(e)| && (forall v :: !Combines(p, e, vals, v)) && forall x :: !CannotCombine(p, e, vals, x)
  {
    hide Eval, Means, Operands, AllMean, OperandsFind;
    OperandValues(p, c, env, e, s, vals);
    assert Refuses(c, vals[i]);
    SameOperands(c, e);
  }

  lemma SameOperands(c: Expr, e: Expr)
    requires SameOperator(c, e)
    ensures |Operands(c)| == |Operands(e)|
  {
  }

  /** Some operand ends the evaluation: e means nothing, and fails as that operand does. */
  lemma StoppedFinds(p: Primitives, c: Expr, env: Env, e: Expr, s: Sight, i: nat)
    requires !Leaf(e) && SameOperator(c, e) && OperandsFind(p, c, env, e, s)
    requires i < |Operands(c)| && !Goes(p, c, env, i) && forall j: nat :: j < i ==> Goes(p, c, env, j)
    ensures Finds(p, Err(ErrorAt(p, c, env, i)), e, s)
  {
    hide Eval, Means, Fails, Operands, AllMean, FailsAt, ErrorAt, Combines, CannotCombine, OperandsFind, Goes, SameOperator;
    SameOperands(c, e);
    forall vals: seq<Value> | AllMean(p, e, s, vals)
      ensures |vals| == |Operands(e)| && (forall v :: !Combines(p, e, vals, v)) && forall x :: !CannotCombine(p, e, vals, x)
    {
      RefusedValues(p, c, env, e, s, i, vals);
    }
    forall v ensures !Means(p, e, s, v) { MeansHow(p, e, s, v); }
    forall x ensures Fails(p, e, s, x) <==> x == ErrorAt(p, c, env, i) {
      FailsHow(p, e, s, x);
      FailsAtHow(p, c, env, e, s, i, x);
      forall k: nat | k < |Operands(e)| && FailsAt(p, e, s, k, x) ensures k == i { FailsAtHow(p, c, env, e, s, k, x); }
    }
  }

  /** Every operand evaluates: the operator decides. */
  lemma AssembledFinds(p: Primitives, c: Expr, env: Env, e: Expr, s: Sight, vals: seq<Value>)
    requires !Leaf(e) && SameOperator(c, e) && OperandsFind(p, c, env, e, s) && |vals| == |Operands(c)|
    requires forall i: nat :: i < |vals| ==> Goes(p, c, env, i) && Eval(p, Operands(c)[i], env) == Ok(vals[i])
    ensures Finds(p, Eval(p, c, env), e, s)
  {
    hide Eval, Means, Fails, Operands, AllMean, FailsAt, ErrorAt, Combines, CannotCombine, OperandsFind, SameOperator;
    var r := Eval(p, c, env);
    SameOperands(c, e);
    SameCombination(p, c, e, vals, Null);
    EvalAssembles(p, c, env, vals);
    SameAssembled(p, c, e, vals, r);
    OperandValues(p, c, env, e, s, vals);
    forall other: seq<Value> | AllMean(p, e, s, other) ensures other == vals { OperandValues(p, c, env, e, s, other); }
    forall v ensures r == Ok(v) <==> Means(p, e, s, v) { MeansHow(p, e, s, v); }
    forall x ensures r == Err(x) <==> Fails(p, e, s, x) {
      FailsHow(p, e, s, x);
      forall k: nat | k < |Operands(e)| ensures !FailsAt(p, e, s, k, x) { FailsAtHow(p, c, env, e, s, k, x); }
    }
  }

  lemma {:induction false} FirstStop(p: Primitives, e: Expr, env: Env, n: nat) returns (i: nat)
    requires n <= |Operands(e)|
    ensures i <= n && (forall j: nat :: j < i ==> Goes(p, e, env, j)) && (i < n ==> !Goes(p, e, env, i))
  {
    hide Eval, Operands;
    i := 0;
    while i < n && Goes(p, e, env, i)
      invariant i <= n && forall j: nat :: j < i ==> Goes(p, e, env, j)
    {
      i := i + 1;
    }
  }

  /** Meaning is compositional: an operator whose operands find their meanings finds its own. */
  lemma OperatorFinds(p: Primitives, c: Expr, env: Env, e: Expr, s: Sight)
    requires !Leaf(e) && SameOperator(c, e) && OperandsFind(p, c, env, e, s)
    ensures Finds(p, Eval(p, c, env), e, s)
  {
    hide Eval, Operands, OperandsFind, Finds, ErrorAt;
    SameCombination(p, c, e, seq(|Operands(e)|, i => Null), Null);
    var n := |Operands(c)|;
    var i := FirstStop(p, c, env, n);
    if i < n {
      assert !Goes(p, c, env, i);
      EvalStops(p, c, env, i);
      StoppedFinds(p, c, env, e, s, i);
    } else {
      var vals := seq(n, j requires 0 <= j < n => assert Goes(p, c, env, j); Eval(p, Operands(c)[j], env).value);
      forall j: nat | j < n ensures Goes(p, c, env, j) && Eval(p, Operands(c)[j], env) == Ok(vals[j]) {}
      AssembledFinds(p, c, env, e, s, vals);
    }
  }

  // ---------------------------------------------------------------- evaluation finds the meaning

  lemma LeafFinds(p: Primitives, e: Expr, env: Env)
    requires Leaf(e)
    ensures Finds(p, Eval(p, e, env), e, Sight(env, None))
  {
    hide Reads;
    if e.ScopeRef? && env.scope.Some? {
      forall v { DescendExactly(Dict(env.scope.value), e.path, v); }
    }
    LeafOutcome(p, e, Sight(env, None), Eval(p, e, env));
  }

  /** For a leaf it is enough to know the value it means, or that it means none. */
  lemma LeafOutcome(p: Primitives, e: Expr, s: Sight, r: Result<Value>)
    requires Leaf(e) && (forall v :: r == Ok(v) <==> LeafMeans(e, s, v))
    requires r.Err? ==> r.error == if e.ResourceRef? then ResourceUnresolved else ScopeResolution
    ensures Finds(p, r, e, s)
  {
    hide LeafMeans;
    if r.Ok? { assert LeafMeans(e, s, r.value); }
  }

  /** The evaluator finds exactly the meaning of every expression, or exactly its failure. */
  lemma {:induction false} EvalExactly(p: Primitives, e: Expr, env: Env)
    ensures Finds(p, Eval(p, e, env), e, Sight(env, None))
    decreases e
  {
    hide Eval, Operands, Finds;
    if Leaf(e) {
      LeafFinds(p, e, env);
    } else {
      SameAsItself(e);
      forall i | 0 <= i < |Operands(e)| ensures Finds(p, Eval(p, Operands(e)[i], env), Operands(e)[i], Sight(env, None)) {
        EvalExactly(p, Operands(e)[i], env);
      }
      OperatorFinds(p, e, env, e, Sight(env, None));
    }
  }

  lemma SameAsItself(e: Expr)
    requires !Leaf(e)
    ensures SameOperator(e, e)
  {
  }

  // ---------------------------------------------------------------- compilation keeps the meaning

  /** What the source of a compiled expression sees: the resources, and the scope it was compiled in. */
  function Seen(env: Env, resources: map<string, Value>, scope: Scope): Sight {
    Sight(if scope.Some? then env.(scope := scope) else env, Some(resources))
  }

  lemma CompiledLeaf(p: Primitives, e: Expr, resources: map<string, Value>, scope: Scope, env: Env)
    requires Leaf(e) && Compile(e, resources, scope).Ok?
    ensures Finds(p, Eval(p, Compile(e, resources, scope).value, env), e, Seen(env, resources, scope))
  {
    hide Reads;
    var s := Seen(env, resources, scope);
    var c := Compile(e, resources, scope).value;
    if e.ScopeRef? && s.env.scope.Some? {
      forall v { DescendExactly(Dict(s.env.scope.value), e.path, v); }
    }
    if e.ResourceRef? {
      forall v { DescendExactly(Dict(resources), e.path, v); }
    }
    LeafOutcome(p, e, s, Eval(p, c, env));
  }

  lemma {:induction false} CompiledMany(e: Expr, i: nat, resources: map<string, Value>, scope: Scope)
    requires e.Many? && i <= |e.operands| && CompileMany(e, i, resources, scope).Ok?
    ensures var q := CompileMany(e, i, resources, scope).value;
            |q| == |e.operands| - i && forall j :: i <= j < |e.operands| ==> Compile(e.operands[j], resources, scope) == Ok(q[j - i])
    decreases |e.operands| - i
  {
    hide Compile;
    if i < |e.operands| { CompiledMany(e, i + 1, resources, scope); }
  }

  lemma {:induction false} CompiledParts(e: Expr, names: seq<string>, resources: map<string, Value>, scope: Scope)
    requires e.Record? && (forall n :: n in names ==> n in e.parts) && CompileParts(e, names, resources, scope).Ok?
    ensures var q := CompileParts(e, names, resources, scope).value;
            q.Keys == Elements(names) && forall n :: n in names ==> Compile(e.parts[n], resources, scope) == Ok(q[n])
    decreases |names|
  {
    hide Compile;
    if names != [] {
      CompiledParts(e, names[1..], resources, scope);
      assert Elements(names) == {names[0]} + Elements(names[1..]) by {
        assert forall n :: n in names <==> n == names[0] || n in names[1..];
      }
    }
  }

  /** Compilation keeps the operator and compiles each operand. */
  ghost predicate Rebuilt(e: Expr, resources: map<string, Value>, scope: Scope, c: Expr) {
    && SameOperator(c, e) && |Operands(c)| == |Operands(e)|
    && forall i :: 0 <= i < |Operands(e)| ==> Compile(Operands(e)[i], resources, scope) == Ok(Operands(c)[i])
  }

  lemma RebuiltMany(e: Expr, resources: map<string, Value>, scope: Scope)
    requires e.Many? && Compile(e, resources, scope).Ok?
    ensures Rebuilt(e, resources, scope, Compile(e, resources, scope).value)
  {
    hide CompileMany;
    CompiledMany(e, 0, resources, scope);
  }

  lemma RebuiltRecord(e: Expr, resources: map<string, Value>, scope: Scope)
    requires e.Record? && Compile(e, resources, scope).Ok?
    ensures Rebuilt(e, resources, scope, Compile(e, resources, scope).value)
  {
    hide CompileParts, Sorted;
    CompiledParts(e, Sorted(e.parts.Keys), resources, scope);
    assert Elements(Sorted(e.parts.Keys)) == e.parts.Keys;
  }

  lemma RebuiltPair(e: Expr, resources: map<string, Value>, scope: Scope)
    requires (e.Arith? || e.Compare? || e.Equal? || e.NotEqual? || e.Append?) && Compile(e, resources, scope).Ok?
    ensures Rebuilt(e, resources, scope, Compile(e, resources, scope).value)
  {
  }

  lemma RebuiltSingle(e: Expr, resources: map<string, Value>, scope: Scope)
    requires (e.Not? || e.Length? || e.SumField?) && Compile(e, resources, scope).Ok?
    ensures Rebuilt(e, resources, scope, Compile(e, resources, scope).value)
  {
  }

  lemma CompiledOperands(e: Expr, resources: map<string, Value>, scope: Scope)
    requires !Leaf(e) && Compile(e, resources, scope).Ok?
    ensures Rebuilt(e, resources, scope, Compile(e, resources, scope).value)
  {
    hide Compile, Rebuilt, Operands;
    match e
    case Many(_, _) => RebuiltMany(e, resources, scope);
    case Record(_) => RebuiltRecord(e, resources, scope);
    case Not(_) => RebuiltSingle(e, resources, scope);
    case Length(_) => RebuiltSingle(e, resources, scope);
    case SumField(_, _) => RebuiltSingle(e, resources, scope);
    case _ => RebuiltPair(e, resources, scope);
  }

  /** A compiled expression evaluates to exactly what its source means with the resources, and the
      scope it was compiled in, in sight. */
  lemma {:induction false} CompiledExactly(p: Primitives, e: Expr, resources: map<string, Value>, scope: Scope, env: Env)
    requires Compile(e, resources, scope).Ok?
    ensures Finds(p, Eval(p, Compile(e, resources, scope).value, env), e, Seen(env, resources, scope))
    decreases e
  {
    hide Eval, Operands, Finds, Compile, SameOperator;
    if Leaf(e) {
      CompiledLeaf(p, e, resources, scope, env);
    } else {
      CompiledOperands(e, resources, scope);
      var c := Compile(e, resources, scope).value;
      forall i | 0 <= i < |Operands(e)| ensures Finds(p, Eval(p, Operands(c)[i], env), Operands(e)[i], Seen(env, resources, scope)) {
        CompiledExactly(p, Operands(e)[i], resources, scope, env);
      }
      OperatorFinds(p, c, env, e, Seen(env, resources, scope));
    }
  }

  /** The first reference, in evaluation order, that the resources or the given scope cannot answer. */
  ghost predicate Unresolved(e: Expr, resources: map<string, Value>, scope: Scope, x: Error)
    decreases e
  {
    if Leaf(e) then
      || (e.ResourceRef? && !Readable(Dict(resources), e.path) && x == ResourceUnresolved)
      || (e.ScopeRef? && scope.Some? && !Readable(Dict(scope.value), e.path) && x == ScopeResolution)
    else
      exists i: nat {:trigger Operands(e)[i]} :: i < |Operands(e)| && Unresolved(Operands(e)[i], resources, scope, x)
        && forall j: nat, y :: j < i ==> !Unresolved(Operands(e)[j], resources, scope, y)
  }

  lemma {:induction false} ManyUncompiled(e: Expr, from: nat, resources: map<string, Value>, scope: Scope, i: nat)
    requires e.Many? && from <= i <= |e.operands|
    requires forall j: nat :: from <= j < i ==> Compile(e.operands[j], resources, scope).Ok?
    requires i < |e.operands| ==> Compile(e.operands[i], resources, scope).Err?
    ensures var r := CompileMany(e, from, resources, scope);
            if i < |e.operands| then r == Err(Compile(e.operands[i], resources, scope).error) else r.Ok?
    decreases |e.operands| - from
  {
    hide Compile;
    if from < i { ManyUncompiled(e, from + 1, resources, scope, i); }
  }

  lemma {:induction false} PartsUncompiled(e: Expr, names: seq<string>, resources: map<string, Value>, scope: Scope, i: nat)
    requires e.Record? && (forall n :: n in names ==> n in e.parts) && i <= |names|
    requires forall j: nat :: j < i ==> Compile(e.parts[names[j]], resources, scope).Ok?
    requires i < |names| ==> Compile(e.parts[names[i]], resources, scope).Err?
    ensures var r := CompileParts(e, names, resources, scope);
            if i < |names| then r == Err(Compile(e.parts[names[i]], resources, scope).error) else r.Ok?
    decreases |names|
  {
    hide Compile;
    if i > 0 {
      assert forall j: nat :: 0 < j < |names| ==> names[j] == names[1..][j - 1];
      assert Compile(e.parts[names[0]], resources, scope).Ok?;
      PartsUncompiled(e, names[1..], resources, scope, i - 1);
    }
  }

  /** Compilation fails with its first operand that does, and succeeds when none does. */
  lemma UncompiledOperand(e: Expr, resources: map<string, Value>, scope: Scope, i: nat)
    requires !Leaf(e) && i <= |Operands(e)|
    requires forall j: nat :: j < i ==> Compile(Operands(e)[j], resources, scope).Ok?
    requires i < |Operands(e)| ==> Compile(Operands(e)[i], resources, scope).Err?
    ensures var r := Compile(e, resources, scope);
            if i < |Operands(e)| then r == Err(Compile(Operands(e)[i], resources, scope).error) else r.Ok?
  {
    hide CompileMany, CompileParts, Sorted;
    if i > 0 { assert Compile(Operands(e)[0], resources, scope).Ok?; }
    if i > 1 { assert Compile(Operands(e)[1], resources, scope).Ok?; }
    match e
    case Many(_, _) => ManyUncompiled(e, 0, resources, scope, i);
    case Record(parts) =>
      var names := Sorted(parts.Keys);
      forall j: nat | j < i ensures Compile(parts[names[j]], resources, scope).Ok? { assert Compile(Operands(e)[j], resources, scope).Ok?; }
      PartsUncompiled(e, names, resources, scope, i);
    case _ =>
  }

  lemma LeafUncompiled(e: Expr, resources: map<string, Value>, scope: Scope, x: Error)
    requires Leaf(e)
    ensures Compile(e, resources, scope) == Err(x) <==> Unresolved(e, resources, scope, x)
  {
    hide Readable;
    if e.ResourceRef? { ReadableExactly(Dict(resources), e.path); }
    if e.ScopeRef? && scope.Some? { ReadableExactly(Dict(scope.value), e.path); }
  }

  /** Each operand's compilation fails with exactly its first unresolved reference. */
  ghost predicate OperandsDecided(e: Expr, resources: map<string, Value>, scope: Scope) {
    forall j: nat, x :: j < |Operands(e)| ==> Decided(Operands(e)[j], resources, scope, x)
  }

  ghost predicate Decided(e: Expr, resources: map<string, Value>, scope: Scope, x: Error) {
    Compile(e, resources, scope) == Err(x) <==> Unresolved(e, resources, scope, x)
  }

  lemma OperandResolved(e: Expr, resources: map<string, Value>, scope: Scope, j: nat, y: Error)
    requires j < |Operands(e)| && OperandsDecided(e, resources, scope) && Compile(Operands(e)[j], resources, scope).Ok?
    ensures !Unresolved(Operands(e)[j], resources, scope, y)
  {
    hide Compile, Operands, Unresolved;
    assert Decided(Operands(e)[j], resources, scope, y);
  }

  lemma UnresolvedFirst(e: Expr, resources: map<string, Value>, scope: Scope, x: Error, i: nat)
    requires !Leaf(e) && i < |Operands(e)| && OperandsDecided(e, resources, scope)
    requires forall j: nat :: j < i ==> Compile(Operands(e)[j], resources, scope).Ok?
    ensures Compile(Operands(e)[i], resources, scope) == Err(x) ==> Unresolved(e, resources, scope, x)
  {
    hide Compile, Operands;
    assert Decided(Operands(e)[i], resources, scope, x);
    forall j: nat, y | j < i ensures !Unresolved(Operands(e)[j], resources, scope, y) { OperandResolved(e, resources, scope, j, y); }
  }

  lemma UnresolvedStop(e: Expr, resources: map<string, Value>, scope: Scope, i: nat)
    requires i < |Operands(e)| && OperandsDecided(e, resources, scope) && Compile(Operands(e)[i], resources, scope).Err?
    ensures exists y :: Unresolved(Operands(e)[i], resources, scope, y)
  {
    hide Compile, Operands, Unresolved;
    assert Decided(Operands(e)[i], resources, scope, Compile(Operands(e)[i], resources, scope).error);
  }

  lemma UnresolvedThere(e: Expr, resources: map<string, Value>, scope: Scope, x: Error, i: nat)
    requires !Leaf(e) && i <= |Operands(e)| && OperandsDecided(e, resources, scope)
    requires forall j: nat :: j < i ==> Compile(Operands(e)[j], resources, scope).Ok?
    requires i < |Operands(e)| ==> Compile(Operands(e)[i], resources, scope).Err?
    requires Unresolved(e, resources, scope, x)
    ensures i < |Operands(e)| && Compile(Operands(e)[i], resources, scope) == Err(x)
  {
    hide Compile, Operands;
    var k: nat :| k < |Operands(e)| && Unresolved(Operands(e)[k], resources, scope, x)
                  && forall j: nat, y :: j < k ==> !Unresolved(Operands(e)[j], resources, scope, y);
    assert Decided(Operands(e)[k], resources, scope, x);
    if i < k {
      UnresolvedStop(e, resources, scope, i);
      assert false;
    }
  }

  /** Compilation fails exactly with the first reference that cannot be answered. */
  lemma {:induction false} CompileFailsExactly(e: Expr, resources: map<string, Value>, scope: Scope)
    ensures forall x :: Compile(e, resources, scope) == Err(x) <==> Unresolved(e, resources, scope, x)
    decreases e
  {
    hide Compile, Operands, Unresolved;
    if Leaf(e) {
      forall x { LeafUncompiled(e, resources, scope, x); }
    } else {
      var n, i := |Operands(e)|, 0;
      while i < n && Compile(Operands(e)[i], resources, scope).Ok?
        invariant i <= n && forall j: nat :: j < i ==> Compile(Operands(e)[j], resources, scope).Ok?
      {
        i := i + 1;
      }
      UncompiledOperand(e, resources, scope, i);
      forall j: nat | j < n
        ensures forall x :: Decided(Operands(e)[j], resources, scope, x)
      {
        CompileFailsExactly(Operands(e)[j], resources, scope);
      }
      forall x ensures Compile(e, resources, scope) == Err(x) <==> Unresolved(e, resources, scope, x) {
        if i < n { UnresolvedFirst(e, resources, scope, x, i); }
        if Unresolved(e, resources, scope, x) { UnresolvedThere(e, resources, scope, x, i); }
      }
    }
  }

  // ---------------------------------------------------------------- consequences

  /** A compiled resource reference is the resource's own value, in every environment. */
  lemma ReferenceReadsResource(p: Primitives, path: seq<string>, resources: map<string, Value>, scope: Scope, env: Env, v: Value)
    ensures Reads(Dict(resources), path, v)
            <==> Compile(ResourceRef(path), resources, scope).Ok?
                 && Eval(p, Compile(ResourceRef(path), resources, scope).value, env) == Ok(v)
  {
    hide Reads;
    DescendExactly(Dict(resources), path, v);
  }

  predicate BooleanAt(p: Primitives, operands: seq<Expr>, env: Env, i: nat)
    requires i < |operands|
  {
    var v := Eval(p, operands[i], env);
    v.Ok? && v.value.Bool?
  }

  /** `$and` and `$or` give a boolean exactly when every operand does: whether all are true, or some is. */
  lemma ManyExactly(p: Primitives, operands: seq<Expr>, useAnd: bool, env: Env)
    ensures var r := Eval(p, Many(operands, useAnd), env);
            if forall i: nat :: i < |operands| ==> BooleanAt(p, operands, env, i) then
              r == Ok(Bool(if useAnd then forall i :: 0 <= i < |operands| ==> Eval(p, operands[i], env) == Ok(Bool(true))
                           else exists i :: 0 <= i < |operands| && Eval(p, operands[i], env) == Ok(Bool(true))))
            else r.Err?
  {
    hide Eval;
    var e := Many(operands, useAnd);
    var i := FirstStop(p, e, env, |operands|);
    forall j: nat | j < |operands| ensures Goes(p, e, env, j) <==> BooleanAt(p, operands, env, j) {}
    if i < |operands| {
      EvalStops(p, e, env, i);
    } else {
      var vals := seq(|operands|, j requires 0 <= j < |operands| => assert Goes(p, e, env, j); Eval(p, operands[j], env).value);
      forall j: nat | j < |operands| ensures Eval(p, operands[j], env) == Ok(vals[j]) && vals[j].Bool? { assert Goes(p, e, env, j); }
      ManyAssembles(p, e, env, vals, 0, useAnd);
      EvalMore(p, operands, useAnd, env);
    }
  }

  lemma EvalMore(p: Primitives, operands: seq<Expr>, useAnd: bool, env: Env)
    ensures Eval(p, Many(operands, useAnd), env) == EvalMany(p, Many(operands, useAnd), 0, useAnd, env)
  {
  }

  /** When some operand fails or is no boolean, the failure is that of the first such operand. */
  lemma ManyFailsFirst(p: Primitives, operands: seq<Expr>, useAnd: bool, env: Env, i: nat)
    requires i < |operands| && !BooleanAt(p, operands, env, i) && forall j: nat :: j < i ==> BooleanAt(p, operands, env, j)
    ensures var v := Eval(p, operands[i], env);
            Eval(p, Many(operands, useAnd), env) == Err(if v.Err? then v.error else EvaluationFailed)
  {
    hide Eval;
    var e := Many(operands, useAnd);
    forall j: nat | j < |operands| ensures Goes(p, e, env, j) <==> BooleanAt(p, operands, env, j) {}
    EvalStops(p, e, env, i);
  }

  // ---------------------------------------------------------------- derived names

  /** Some derived reference inside the expression has this name. */
  ghost predicate Mentions(e: Expr, n: string)
    decreases e
  {
    e == DerivedRef(n) || (!Leaf(e) && exists i {:trigger Operands(e)[i]} :: 0 <= i < |Operands(e)| && Mentions(Operands(e)[i], n))
  }

  lemma OperandMentions(e: Expr, n: string)
    requires !Leaf(e)
    ensures n in Dependencies(e) <==> exists i :: 0 <= i < |Operands(e)| && n in Dependencies(Operands(e)[i])
  {
    hide Dependencies, Operands, Sorted;
    if e.Record? { RecordMentions(e, n); } else if e.Many? { ManyMentions(e, n); } else { PlainMentions(e, n); }
  }

  lemma RecordMentions(e: Expr, n: string)
    requires e.Record?
    ensures n in Dependencies(e) <==> exists i :: 0 <= i < |Operands(e)| && n in Dependencies(Operands(e)[i])
  {
    var names := Sorted(e.parts.Keys);
    if k :| k in e.parts && n in Dependencies(e.parts[k]) {
      var i :| 0 <= i < |names| && names[i] == k;
      assert Operands(e)[i] == e.parts[k];
    }
  }

  lemma ManyMentions(e: Expr, n: string)
    requires e.Many?
    ensures n in Dependencies(e) <==> exists i :: 0 <= i < |Operands(e)| && n in Dependencies(Operands(e)[i])
  {
    assert Operands(e) == e.operands;
  }

  lemma PlainMentions(e: Expr, n: string)
    requires !Leaf(e) && !e.Record? && !e.Many?
    ensures n in Dependencies(e) <==> exists i :: 0 <= i < |Operands(e)| && n in Dependencies(Operands(e)[i])
  {
    if |Operands(e)| > 1 {
      var first, second := Operands(e)[0], Operands(e)[1];
    } else {
      var only := Operands(e)[0];
    }
  }

  /** `dependencies()` is exactly the set of derived names inside the expression. */
  lemma {:induction false} DependenciesExactly(e: Expr, n: string)
    ensures n in Dependencies(e) <==> Mentions(e, n)
    decreases e
  {
    hide Dependencies, Operands;
    if Leaf(e) {
      LeafDependencies(e, n);
    } else {
      OperandMentions(e, n);
      forall i | 0 <= i < |Operands(e)| ensures n in Dependencies(Operands(e)[i]) <==> Mentions(Operands(e)[i], n) {
        DependenciesExactly(Operands(e)[i], n);
      }
    }
  }

  lemma LeafDependencies(e: Expr, n: string)
    requires Leaf(e)
    ensures n in Dependencies(e) <==> e == DerivedRef(n)
  {
  }
}
