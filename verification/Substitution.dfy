/** Compiling an expression with its scope at hand and evaluating the compiled expression means the
    same as compiling it without the scope and evaluating it inside that scope. */
module Substitution {
  import opened Order
  import opened Values
  import opened Expressions

  /** The environment with the scope made visible to scope references. */
  function Inside(env: Env, s: map<string, Value>): Env {
    env.(scope := Some(s))
  }

  /** The two compilations of one expression agree in meaning. */
  predicate Agrees(p: Primitives, e: Expr, resources: map<string, Value>, s: map<string, Value>, env: Env) {
    && Compile(e, resources, Some(s)).Ok? && Compile(e, resources, None).Ok?
    && Eval(p, Compile(e, resources, Some(s)).value, env) == Eval(p, Compile(e, resources, None).value, Inside(env, s))
  }

  lemma {:induction false} ScopeSubstitution(p: Primitives, e: Expr, resources: map<string, Value>, s: map<string, Value>, env: Env)
    requires Compile(e, resources, Some(s)).Ok?
    ensures Agrees(p, e, resources, s, env)
    decreases e, 1, 0
  {
    hide Agrees, Eval;
    match e
    case Many(_, _) => ManySubstitution(p, e, resources, s, env);
    case Record(_) => RecordSubstitution(p, e, resources, s, env);
    case Not(x) => UnarySubstitution(p, e, x, resources, s, env);
    case Length(x) => UnarySubstitution(p, e, x, resources, s, env);
    case SumField(x, _) => UnarySubstitution(p, e, x, resources, s, env);
    case Arith(_, l, r) => PairSubstitution(p, e, l, r, resources, s, env);
    case Compare(_, l, r) => PairSubstitution(p, e, l, r, resources, s, env);
    case Equal(l, r) => PairSubstitution(p, e, l, r, resources, s, env);
    case NotEqual(l, r) => PairSubstitution(p, e, l, r, resources, s, env);
    case Append(l, r) => PairSubstitution(p, e, l, r, resources, s, env);
    case _ => LeafSubstitution(p, e, resources, s, env);
  }

  lemma LeafSubstitution(p: Primitives, e: Expr, resources: map<string, Value>, s: map<string, Value>, env: Env)
    requires e.Literal? || e.StateRef? || e.LocalRef? || e.DerivedRef? || e.ScopeRef? || e.ResourceRef?
    requires Compile(e, resources, Some(s)).Ok?
    ensures Agrees(p, e, resources, s, env)
  {
    hide LookupResource, ResolveScope;
  }

  lemma {:induction false} UnarySubstitution(p: Primitives, e: Expr, x: Expr, resources: map<string, Value>, s: map<string, Value>, env: Env)
    requires e == Not(x) || e == Length(x) || (e.SumField? && e.source == x)
    requires Compile(e, resources, Some(s)).Ok?
    ensures Agrees(p, e, resources, s, env)
    decreases e, 0, 0
  {
    hide LengthValue, SumValue;
    ScopeSubstitution(p, x, resources, s, env);
  }

  lemma {:induction false} PairSubstitution(p: Primitives, e: Expr, l: Expr, r: Expr, resources: map<string, Value>, s: map<string, Value>, env: Env)
    requires e == Equal(l, r) || e == NotEqual(l, r) || e == Append(l, r)
             || (e.Arith? && e.left == l && e.right == r) || (e.Compare? && e.left == l && e.right == r)
    requires Compile(e, resources, Some(s)).Ok?
    ensures Agrees(p, e, resources, s, env)
    decreases e, 0, 0
  {
    hide Agrees, Eval;
    ScopeSubstitution(p, l, resources, s, env);
    ScopeSubstitution(p, r, resources, s, env);
    match e
    case Arith(op, _, _) => ArithAgrees(p, op, l, r, resources, s, env);
    case Compare(op, _, _) => CompareAgrees(p, op, l, r, resources, s, env);
    case Equal(_, _) => EqualAgrees(p, l, r, resources, s, env);
    case NotEqual(_, _) => NotEqualAgrees(p, l, r, resources, s, env);
    case Append(_, _) => AppendAgrees(p, l, r, resources, s, env);
  }

  lemma ArithAgrees(p: Primitives, op: ArithOp, l: Expr, r: Expr, resources: map<string, Value>, s: map<string, Value>, env: Env)
    requires Agrees(p, l, resources, s, env) && Agrees(p, r, resources, s, env)
    ensures Agrees(p, Arith(op, l, r), resources, s, env)
  {
    hide ArithValue, CompareValue;
  }

  lemma CompareAgrees(p: Primitives, op: CompareOp, l: Expr, r: Expr, resources: map<string, Value>, s: map<string, Value>, env: Env)
    requires Agrees(p, l, resources, s, env) && Agrees(p, r, resources, s, env)
    ensures Agrees(p, Compare(op, l, r), resources, s, env)
  {
    hide ArithValue, CompareValue;
  }

  lemma EqualAgrees(p: Primitives, l: Expr, r: Expr, resources: map<string, Value>, s: map<string, Value>, env: Env)
    requires Agrees(p, l, resources, s, env) && Agrees(p, r, resources, s, env)
    ensures Agrees(p, Equal(l, r), resources, s, env)
  {
    hide ArithValue, CompareValue;
  }

  lemma NotEqualAgrees(p: Primitives, l: Expr, r: Expr, resources: map<string, Value>, s: map<string, Value>, env: Env)
    requires Agrees(p, l, resources, s, env) && Agrees(p, r, resources, s, env)
    ensures Agrees(p, NotEqual(l, r), resources, s, env)
  {
    hide ArithValue, CompareValue;
  }

  lemma AppendAgrees(p: Primitives, l: Expr, r: Expr, resources: map<string, Value>, s: map<string, Value>, env: Env)
    requires Agrees(p, l, resources, s, env) && Agrees(p, r, resources, s, env)
    ensures Agrees(p, Append(l, r), resources, s, env)
  {
    hide ArithValue, CompareValue;
  }

  lemma {:induction false} ManySubstitution(p: Primitives, e: Expr, resources: map<string, Value>, s: map<string, Value>, env: Env)
    requires e.Many? && Compile(e, resources, Some(s)).Ok?
    ensures Agrees(p, e, resources, s, env)
    decreases e, 0, |e.operands| + 1
  {
    hide EvalMany, CompileMany;
    var a := CompileMany(e, 0, resources, Some(s)).value;
    ManyFrom(p, e, 0, resources, s, env, a);
    var b := CompileMany(e, 0, resources, None).value;
    ManyAlike(p, e.useAnd, a, b, 0, e.useAnd, env, Inside(env, s));
  }

  /** Operand by operand, the two compilations have the same length and the same meaning. */
  lemma {:induction false} ManyFrom(p: Primitives, e: Expr, i: nat, resources: map<string, Value>, s: map<string, Value>, env: Env, a: seq<Expr>)
    requires e.Many? && i <= |e.operands| && CompileMany(e, i, resources, Some(s)) == Ok(a)
    ensures CompileMany(e, i, resources, None).Ok?
    ensures var b := CompileMany(e, i, resources, None).value;
            |a| == |b| && forall k :: 0 <= k < |a| ==> Eval(p, a[k], env) == Eval(p, b[k], Inside(env, s))
    decreases e, 0, |e.operands| - i
  {
    if i < |e.operands| {
      ScopeSubstitution(p, e.operands[i], resources, s, env);
      ManyFrom(p, e, i + 1, resources, s, env, CompileMany(e, i + 1, resources, Some(s)).value);
    }
  }

  lemma {:induction false} ManyAlike(p: Primitives, useAnd: bool, a: seq<Expr>, b: seq<Expr>, i: nat, result: bool, here: Env, there: Env)
    requires |a| == |b| && i <= |a| && forall k :: 0 <= k < |a| ==> Eval(p, a[k], here) == Eval(p, b[k], there)
    ensures EvalMany(p, Many(a, useAnd), i, result, here) == EvalMany(p, Many(b, useAnd), i, result, there)
    decreases |a| - i
  {
    hide Eval;
    if i < |a| {
      var v := Eval(p, a[i], here);
      if v.Ok? && v.value.Bool? {
        ManyAlike(p, useAnd, a, b, i + 1, if useAnd then result && v.value.flag else result || v.value.flag, here, there);
      }
    }
  }

  lemma {:induction false} RecordSubstitution(p: Primitives, e: Expr, resources: map<string, Value>, s: map<string, Value>, env: Env)
    requires e.Record? && Compile(e, resources, Some(s)).Ok?
    ensures Agrees(p, e, resources, s, env)
    decreases e, 0, |e.parts| + 1
  {
    hide EvalParts, CompileParts, Sorted;
    var names := Sorted(e.parts.Keys);
    var a := CompileParts(e, names, resources, Some(s)).value;
    PartsFrom(p, e, names, resources, s, env, a);
    var b := CompileParts(e, names, resources, None).value;
    assert a.Keys == b.Keys;
    PartsAlike(p, a, b, Sorted(a.Keys), env, Inside(env, s));
  }

  lemma {:induction false} PartsFrom(p: Primitives, e: Expr, names: seq<string>, resources: map<string, Value>, s: map<string, Value>, env: Env, a: map<string, Expr>)
    requires e.Record? && (forall n :: n in names ==> n in e.parts) && CompileParts(e, names, resources, Some(s)) == Ok(a)
    ensures CompileParts(e, names, resources, None).Ok?
    ensures var b := CompileParts(e, names, resources, None).value;
            && (forall n :: n in a <==> n in names) && (forall n :: n in b <==> n in names)
            && forall n :: n in names ==> Eval(p, a[n], env) == Eval(p, b[n], Inside(env, s))
    decreases e, 0, |names|
  {
    if names != [] {
      ScopeSubstitution(p, e.parts[names[0]], resources, s, env);
      PartsFrom(p, e, names[1..], resources, s, env, CompileParts(e, names[1..], resources, Some(s)).value);
    }
  }

  lemma {:induction false} PartsAlike(p: Primitives, a: map<string, Expr>, b: map<string, Expr>, names: seq<string>, here: Env, there: Env)
    requires forall n :: n in names ==> n in a && n in b && Eval(p, a[n], here) == Eval(p, b[n], there)
    ensures EvalParts(p, Record(a), names, here) == EvalParts(p, Record(b), names, there)
    decreases |names|
  {
    hide Eval;
    if names != [] { PartsAlike(p, a, b, names[1..], here, there); }
  }

  /** The converse fails only on scope paths: without a scope a reference compiles even when the
      scope lacks its path, and the error then surfaces at evaluation instead. */
  lemma MissingPathSurfacesLate(p: Primitives, path: seq<string>, resources: map<string, Value>, s: map<string, Value>, env: Env)
    requires ResolveScope(Some(s), path).Err?
    ensures Compile(ScopeRef(path), resources, Some(s)).Err?
    ensures Compile(ScopeRef(path), resources, None) == Ok(ScopeRef(path))
    ensures Eval(p, ScopeRef(path), Inside(env, s)) == Compile(ScopeRef(path), resources, Some(s)).PropagateFailure()
  {
  }
}
