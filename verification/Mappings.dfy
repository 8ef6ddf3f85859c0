/** Mappings of expressions, as bindings, patches, records and emissions hold them: they compile and
    evaluate name by name, and fail with the least failing name. */
module Mappings {
  import opened Order
  import opened Values
  import opened Expressions
  import opened Meaning

  /** The least name with this property. */
  ghost predicate First(names: set<string>, k: string, stops: string -> bool) {
    k in names && stops(k) && forall n :: n in names && Less(n, k) ==> !stops(n)
  }

  /** How many of these names come before the first one that stops. */
  lemma Until(names: seq<string>, stops: string -> bool) returns (i: nat)
    ensures i <= |names| && (forall j: nat :: j < i ==> !stops(names[j])) && (i < |names| ==> stops(names[i]))
  {
    i := 0;
    while i < |names| && !stops(names[i])
      invariant i <= |names| && forall j: nat :: j < i ==> !stops(names[j])
    {
      i := i + 1;
    }
  }

  lemma FirstIndex(names: set<string>, k: string, stops: string -> bool) returns (i: nat)
    requires First(names, k, stops)
    ensures i < |Sorted(names)| && Sorted(names)[i] == k && forall j: nat :: j < i ==> !stops(Sorted(names)[j])
  {
    hide Less;
    SortedAscending(names);
    i :| i < |Sorted(names)| && Sorted(names)[i] == k;
  }

  lemma UntilFirst(names: set<string>, stops: string -> bool, i: nat)
    requires i < |Sorted(names)| && stops(Sorted(names)[i]) && forall j: nat :: j < i ==> !stops(Sorted(names)[j])
    ensures First(names, Sorted(names)[i], stops)
  {
    hide Less;
    var q := Sorted(names);
    SortedAscending(names);
    forall n | n in names && Less(n, q[i]) ensures !stops(n) {
      var j: nat :| j < |q| && q[j] == n;
      LessAsymmetric(n, q[i]);
    }
  }

  /** Each name has its own expression's value. */
  lemma EvalMapExactly(p: Primitives, parts: map<string, Expr>, env: Env, m: map<string, Value>)
    ensures EvalMap(p, parts, env) == Ok(m)
            <==> m.Keys == parts.Keys && forall n :: n in parts ==> Eval(p, parts[n], env) == Ok(m[n])
  {
    hide Eval, EvalParts;
    var names := Sorted(parts.Keys);
    var i := Until(names, n => n in parts && Eval(p, parts[n], env).Err?);
    if i < |names| {
      PartsStop(p, Record(parts), env, names, i);
    } else {
      forall n | n in names ensures Eval(p, parts[n], env).Ok? { var j: nat :| j < |names| && names[j] == n; }
      PartsAssemble(p, Record(parts), env, names);
      SameMap(m, EvalMap(p, parts, env).value);
    }
  }

  /** A failure is that of the least name whose expression fails. */
  lemma EvalMapFails(p: Primitives, parts: map<string, Expr>, env: Env, k: string)
    requires First(parts.Keys, k, n => n in parts && Eval(p, parts[n], env).Err?)
    ensures EvalMap(p, parts, env) == Err(Eval(p, parts[k], env).error)
  {
    hide Eval, EvalParts;
    var i := FirstIndex(parts.Keys, k, n => n in parts && Eval(p, parts[n], env).Err?);
    PartsStop(p, Record(parts), env, Sorted(parts.Keys), i);
  }

  lemma SameMap<V>(m: map<string, V>, q: map<string, V>)
    ensures m.Keys == q.Keys && (forall n :: n in q ==> n in m && m[n] == q[n]) <==> m == q
  {
  }

  lemma CompileMapExactly(parts: map<string, Expr>, resources: map<string, Value>, scope: Scope, m: map<string, Expr>)
    ensures CompileMap(parts, resources, scope) == Ok(m)
            <==> m.Keys == parts.Keys && forall n :: n in parts ==> Compile(parts[n], resources, scope) == Ok(m[n])
  {
    hide Compile, CompileParts;
    var names := Sorted(parts.Keys);
    var i := Until(names, n => n in parts && Compile(parts[n], resources, scope).Err?);
    PartsUncompiled(Record(parts), names, resources, scope, i);
    if i < |names| {
    } else {
      CompiledParts(Record(parts), names, resources, scope);
      SameMap(m, CompileMap(parts, resources, scope).value);
    }
  }

  lemma CompileMapFails(parts: map<string, Expr>, resources: map<string, Value>, scope: Scope, k: string)
    requires First(parts.Keys, k, n => n in parts && Compile(parts[n], resources, scope).Err?)
    ensures CompileMap(parts, resources, scope) == Err(Compile(parts[k], resources, scope).error)
  {
    hide Compile, CompileParts;
    var i := FirstIndex(parts.Keys, k, n => n in parts && Compile(parts[n], resources, scope).Err?);
    PartsUncompiled(Record(parts), Sorted(parts.Keys), resources, scope, i);
  }
}
