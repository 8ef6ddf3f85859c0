/** `resolve_derivations`: ordering by static dependencies, then evaluation in that order. */
module Derivations {
  import opened Values
  import opened Expressions
  import opened Graphs
  import opened Layering

  function DependencyGraph(exprs: map<string, Expr>): Graph {
    map n | n in exprs :: Dependencies(exprs[n])
  }

  predicate Known(exprs: map<string, Expr>) {
    forall n, d :: n in exprs && d in Dependencies(exprs[n]) ==> d in exprs
  }

  /** The ordering phase. */
  function Plan(exprs: map<string, Expr>): Result<seq<string>> {
    if !Known(exprs) then Err(ScopeResolution)
    else
      var deps := DependencyGraph(exprs);
      match Layers(deps.Keys, deps)
      case None => Err(DerivationCycle)
      case Some(order) => Ok(order)
  }

  /** One derived value against the values derived so far. */
  function DeriveOne(p: Primitives, exprs: map<string, Expr>, env: Env, n: string, m: map<string, Value>): Result<Value> {
    if n in exprs then Eval(p, exprs[n], Env(env.state, env.locals, m, None)) else Err(ScopeResolution)
  }

  function DeriveRule(p: Primitives, exprs: map<string, Expr>, env: Env): Rule<Value> {
    (n: string, m: map<string, Value>) => DeriveOne(p, exprs, env, n, m)
  }

  function Derive(p: Primitives, exprs: map<string, Expr>, env: Env): Result<map<string, Value>> {
    var order :- Plan(exprs);
    Solve(DeriveRule(p, exprs, env), order, map[])
  }

  /** Every derived value equals its own expression evaluated against the whole result. */
  ghost predicate Solves(p: Primitives, exprs: map<string, Expr>, env: Env, m: map<string, Value>) {
    m.Keys == exprs.Keys
    && forall n :: n in exprs ==> Eval(p, exprs[n], Env(env.state, env.locals, m, None)) == Ok(m[n])
  }

  /** Ordering fails with a cycle error exactly when some closed walk of derived references exists. */
  lemma PlanFailsExactlyOnCycles(exprs: map<string, Expr>)
    ensures Plan(exprs) == Err(ScopeResolution) <==> !Known(exprs)
    ensures Known(exprs) ==> (Plan(exprs) == Err(DerivationCycle) <==> !Acyclic(DependencyGraph(exprs)))
    ensures Plan(exprs).Ok? <==> Known(exprs) && Acyclic(DependencyGraph(exprs))
  {
    LayersExactlyAcyclic(DependencyGraph(exprs));
  }

  lemma DeriveRuleRespects(p: Primitives, exprs: map<string, Expr>, env: Env)
    ensures Respects(DeriveRule(p, exprs, env), DependencyGraph(exprs))
  {
    var rule, deps := DeriveRule(p, exprs, env), DependencyGraph(exprs);
    forall n, a: map<string, Value>, b: map<string, Value> | n in deps && SameOn(deps[n], a, b)
      ensures rule(n, a) == rule(n, b)
    {
      EvalReadsOnlyDependencies(p, exprs[n], Env(env.state, env.locals, a, None), b);
    }
  }

  /** The result is the one and only solution of the derived equations, and it is found whenever
      the references are known and acyclic and a solution exists at all. */
  lemma DeriveExactlySolution(p: Primitives, exprs: map<string, Expr>, env: Env, m: map<string, Value>)
    ensures Derive(p, exprs, env) == Ok(m)
            <==> Known(exprs) && Acyclic(DependencyGraph(exprs)) && Solves(p, exprs, env, m)
  {
    var rule, deps := DeriveRule(p, exprs, env), DependencyGraph(exprs);
    PlanFailsExactlyOnCycles(exprs);
    if Known(exprs) {
      DeriveRuleRespects(p, exprs, env);
      LayeredSolution(rule, deps, m);
      SolvesIsSolution(p, exprs, env, m);
    }
  }

  lemma SolvesIsSolution(p: Primitives, exprs: map<string, Expr>, env: Env, m: map<string, Value>)
    ensures IsSolution(DeriveRule(p, exprs, env), DependencyGraph(exprs).Keys, m) <==> Solves(p, exprs, env, m)
  {
    var rule := DeriveRule(p, exprs, env);
    assert DependencyGraph(exprs).Keys == exprs.Keys;
    forall n | n in exprs
      ensures rule(n, m) == Eval(p, exprs[n], Env(env.state, env.locals, m, None))
    {
      assert rule(n, m) == DeriveOne(p, exprs, env, n, m);
    }
  }

  /** The loops of `resolve_derivations`. */
  method ResolveDerivations(p: Primitives, exprs: map<string, Expr>, env: Env) returns (r: Result<map<string, Value>>)
    ensures r == Derive(p, exprs, env)
    ensures r.Ok? ==> Solves(p, exprs, env, r.value)
  {
    var deps := DependencyGraph(exprs);
    if !Known(exprs) {
      return Err(ScopeResolution);
    }
    var order := LayerLoop(deps);
    if order.None? {
      return Err(DerivationCycle);
    }
    r := EvaluateInOrder(p, exprs, env, order.value);
    if r.Ok? {
      DeriveExactlySolution(p, exprs, env, r.value);
    }
  }

  method EvaluateInOrder(p: Primitives, exprs: map<string, Expr>, env: Env, order: seq<string>)
      returns (r: Result<map<string, Value>>)
    ensures r == Solve(DeriveRule(p, exprs, env), order, map[])
  {
    ghost var rule := DeriveRule(p, exprs, env);
    var result: map<string, Value> := map[];
    var i := 0;
    while i < |order|
      invariant 0 <= i <= |order|
      invariant Solve(rule, order, map[]) == Solve(rule, order[i..], result)
    {
      var value := DeriveOne(p, exprs, env, order[i], result);
      assert order[i..][0] == order[i] && order[i..][1..] == order[i + 1..];
      assert rule(order[i], result) == value;
      if value.Err? {
        return Err(value.error);
      }
      result := result[order[i] := value.value];
      i := i + 1;
    }
    r := Ok(result);
  }
}
