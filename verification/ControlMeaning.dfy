/** What the decisions of structured control mean, stated without the functions that take them:
    which target a branch takes, how often a repeat runs, what an invocation binds, and how many
    routing operations a branch spends. */
module ControlMeaning {
  import opened Order
  import opened Values
  import opened Expressions
  import opened Meaning
  import opened Mappings
  import opened Steps
  import opened Programs
  import opened Routing

  /** A control expression sees the state, the resources and the scope of its sequence. */
  function Answer(w: World, e: Expr, state: State, scope: Scope): Result<Value> {
    match Compile(e, w.resources, None)
    case Err(x) => Err(x)
    case Ok(c) => Eval(w.prims, c, Env(state, map[], map[], scope))
  }

  /** The answer is the expression's meaning, once all its references can be read. */
  lemma AnswerMeans(w: World, e: Expr, state: State, scope: Scope, v: Value)
    ensures Answer(w, e, state, scope) == Ok(v)
            <==> (forall x :: !Unresolved(e, w.resources, None, x))
                 && Means(w.prims, e, Sight(Env(state, map[], map[], scope), Some(w.resources)), v)
  {
    hide Compile, Eval, Unresolved, Means, Fails;
    CompileFailsExactly(e, w.resources, None);
    var c := Compile(e, w.resources, None);
    if c.Ok? {
      CompiledExactly(w.prims, e, w.resources, None, Env(state, map[], map[], scope));
    } else {
      assert Unresolved(e, w.resources, None, c.error);
    }
  }

  // ---------------------------------------------------------------- branches

  function AnswerAt(w: World, node: Node, state: State, scope: Scope, i: nat): Result<Value>
    requires node.Branch? && i < |node.cases|
  {
    Answer(w, node.cases[i].when, state, scope)
  }

  /** Every case from `from` up to i answers false. */
  ghost predicate AllFalse(w: World, node: Node, state: State, scope: Scope, from: nat, i: nat)
    requires node.Branch? && i <= |node.cases|
  {
    forall j: nat :: from <= j < i ==> AnswerAt(w, node, state, scope, j) == Ok(Bool(false))
  }

  /** Case i is the first to answer true. */
  ghost predicate Chosen(w: World, node: Node, state: State, scope: Scope, from: nat, i: nat)
    requires node.Branch?
  {
    from <= i < |node.cases| && AllFalse(w, node, state, scope, from, i) && AnswerAt(w, node, state, scope, i) == Ok(Bool(true))
  }

  /** Case i is the first that does not answer false, and it answers no boolean at all. */
  ghost predicate Undecided(w: World, node: Node, state: State, scope: Scope, from: nat, i: nat, x: Error)
    requires node.Branch?
  {
    && from <= i < |node.cases| && AllFalse(w, node, state, scope, from, i)
    && match AnswerAt(w, node, state, scope, i)
       case Err(y) => x == y
       case Ok(v) => !v.Bool? && x == BranchCondition
  }

  /** A branch takes the first case that holds, the else target exactly when none holds, and fails
      with the first case that answers no boolean. */
  ghost predicate BranchMeans(w: World, node: Node, state: State, scope: Scope, from: nat, r: Result<Option<Invocation>>)
    requires node.Branch? && from <= |node.cases|
  {
    match r
    case Ok(t) =>
      || (exists i: nat :: Chosen(w, node, state, scope, from, i) && t == Some(node.cases[i].target))
      || (AllFalse(w, node, state, scope, from, |node.cases|) && t == node.otherwise)
    case Err(x) => exists i: nat :: Undecided(w, node, state, scope, from, i, x)
  }

  lemma ConditionExactly(w: World, when: Expr, state: State, scope: Scope)
    ensures var a, r := Answer(w, when, state, scope), Condition(w, when, state, scope);
            match a
            case Err(x) => r == Err(x)
            case Ok(v) => r == if v.Bool? then Ok(v.flag) else Err(BranchCondition)
  {
    hide Compile, Eval;
  }

  /** The first case that does not answer false, if any. */
  lemma FirstCase(w: World, node: Node, state: State, scope: Scope, from: nat) returns (i: nat)
    requires node.Branch? && from <= |node.cases|
    ensures from <= i <= |node.cases| && AllFalse(w, node, state, scope, from, i)
    ensures i < |node.cases| ==> AnswerAt(w, node, state, scope, i) != Ok(Bool(false))
  {
    hide AnswerAt;
    i := from;
    while i < |node.cases| && AnswerAt(w, node, state, scope, i) == Ok(Bool(false))
      invariant from <= i <= |node.cases| && AllFalse(w, node, state, scope, from, i)
    {
      i := i + 1;
    }
  }

  lemma {:induction false} ChooseAt(w: World, node: Node, state: State, scope: Scope, from: nat, i: nat)
    requires node.Branch? && from <= i <= |node.cases| && AllFalse(w, node, state, scope, from, i)
    ensures Choose(w, node, from, state, scope) == Choose(w, node, i, state, scope)
    decreases i - from
  {
    hide Answer, Condition;
    if from < i {
      ConditionExactly(w, node.cases[from].when, state, scope);
      assert AnswerAt(w, node, state, scope, from) == Ok(Bool(false));
      ChooseAt(w, node, state, scope, from + 1, i);
    }
  }

  lemma BranchExactly(w: World, node: Node, state: State, scope: Scope, from: nat, r: Result<Option<Invocation>>)
    requires node.Branch? && from <= |node.cases|
    ensures Choose(w, node, from, state, scope) == r <==> BranchMeans(w, node, state, scope, from, r)
  {
    hide Answer, Condition;
    var i := FirstCase(w, node, state, scope, from);
    ChooseAt(w, node, state, scope, from, i);
    if i < |node.cases| { ConditionExactly(w, node.cases[i].when, state, scope); }
    var t := Choose(w, node, i, state, scope);
    if i < |node.cases| {
      if t.Ok? { assert Chosen(w, node, state, scope, from, i); } else { assert Undecided(w, node, state, scope, from, i, t.error); }
    }
    forall j: nat, x | Undecided(w, node, state, scope, from, j, x) ensures j == i { assert AnswerAt(w, node, state, scope, j) != Ok(Bool(false)); }
    forall j: nat | Chosen(w, node, state, scope, from, j) ensures j == i { assert AnswerAt(w, node, state, scope, j) != Ok(Bool(false)); }
  }

  /** The conditions a branch evaluates: up to and including the first that does not answer false. */
  ghost predicate Evaluates(w: World, node: Node, state: State, scope: Scope, n: nat)
    requires node.Branch?
  {
    && n <= |node.cases|
    && ((n == |node.cases| && AllFalse(w, node, state, scope, 0, n))
        || (n > 0 && AllFalse(w, node, state, scope, 0, n - 1) && AnswerAt(w, node, state, scope, n - 1) != Ok(Bool(false))))
  }

  lemma {:induction false} TickingAt(w: World, node: Node, state: State, scope: Scope, from: nat, i: nat, ops: nat)
    requires node.Branch? && from <= i <= |node.cases| && AllFalse(w, node, state, scope, from, i) && ops <= MAX_ROUTING_OPERATIONS
    ensures ChooseTicking(w, node, from, state, scope, ops)
            == if ops + (i - from) <= MAX_ROUTING_OPERATIONS then ChooseTicking(w, node, i, state, scope, ops + (i - from)) else Err(RoutingLimit)
    decreases i - from
  {
    hide Answer, Condition;
    if from < i {
      ConditionExactly(w, node.cases[from].when, state, scope);
      assert AnswerAt(w, node, state, scope, from) == Ok(Bool(false));
      if ops < MAX_ROUTING_OPERATIONS { TickingAt(w, node, state, scope, from + 1, i, ops + 1); }
    }
  }

  /** Routing spends one operation on each condition evaluated, and stops at the limit when they do
      not all fit; otherwise it decides as the branch does. */
  lemma TickingExactly(w: World, node: Node, state: State, scope: Scope, ops: nat, n: nat)
    requires node.Branch? && Evaluates(w, node, state, scope, n) && ops <= MAX_ROUTING_OPERATIONS
    ensures ChooseTicking(w, node, 0, state, scope, ops)
            == if ops + n > MAX_ROUTING_OPERATIONS then Err(RoutingLimit)
               else match Choose(w, node, 0, state, scope)
                    case Err(x) => Err(x)
                    case Ok(t) => Ok((t, ops + n))
  {
    hide Answer, Condition;
    var i := if n == |node.cases| && AllFalse(w, node, state, scope, 0, n) then n else n - 1;
    TickingAt(w, node, state, scope, 0, i, ops);
    ChooseAt(w, node, state, scope, 0, i);
    if i < |node.cases| { ConditionExactly(w, node.cases[i].when, state, scope); }
  }

  // ---------------------------------------------------------------- repeats and bindings

  /** The count is the whole, not negative, answer of the count expression within the declared maximum. */
  lemma RepeatTimesExactly(w: World, node: Node, state: State, scope: Scope)
    requires node.Repeat?
    ensures var a, r := Answer(w, node.count, state, scope), RepeatTimes(w, node, state, scope);
            && (forall n: nat :: r == Ok(n) <==> a == Ok(Int(n)) && n <= node.max)
            && (a.Err? ==> r == Err(a.error))
            && (a.Ok? && a.value.Int? && a.value.number > node.max ==> r == Err(RepeatLimit))
            && (a.Ok? && !(a.value.Int? && a.value.number >= 0) ==> r == Err(RepeatCount))
  {
    hide Compile, Eval;
  }

  /** Exactly the bound names, each with the answer of its own expression. */
  ghost predicate Binds(w: World, target: Invocation, state: State, scope: Scope, child: map<string, Value>) {
    && child.Keys == target.bindings.Keys
    && forall n :: n in target.bindings ==> Answer(w, target.bindings[n], state, scope) == Ok(child[n])
  }

  predicate Unbound(w: World, target: Invocation, state: State, scope: Scope, n: string) {
    n in target.bindings && Answer(w, target.bindings[n], state, scope).Err?
  }

  /** The first bound name, in name order, without an answer. */
  ghost predicate BindFails(w: World, target: Invocation, state: State, scope: Scope, x: Error) {
    exists k :: First(target.bindings.Keys, k, n => Unbound(w, target, state, scope, n))
      && k in target.bindings && Answer(w, target.bindings[k], state, scope) == Err(x)
  }

  lemma BindNamesStep(w: World, bindings: map<string, Expr>, names: seq<string>, state: State, scope: Scope)
    requires names != [] && forall n :: n in names ==> n in bindings
    ensures BindNames(w, bindings, names, state, scope)
            == match Answer(w, bindings[names[0]], state, scope)
               case Err(x) => Err(x)
               case Ok(v) =>
                 match BindNames(w, bindings, names[1..], state, scope)
                 case Err(x) => Err(x)
                 case Ok(m) => Ok(m[names[0] := v])
  {
    hide Compile, Eval;
  }

  lemma {:induction false} BindNamesFound(w: World, bindings: map<string, Expr>, names: seq<string>, state: State, scope: Scope)
    requires forall n :: n in names ==> n in bindings && Answer(w, bindings[n], state, scope).Ok?
    ensures var r := BindNames(w, bindings, names, state, scope);
            r.Ok? && r.value.Keys == Elements(names) && forall n :: n in names ==> Answer(w, bindings[n], state, scope) == Ok(r.value[n])
    decreases |names|
  {
    hide Answer;
    if names != [] {
      BindNamesStep(w, bindings, names, state, scope);
      BindNamesFound(w, bindings, names[1..], state, scope);
      assert Elements(names) == {names[0]} + Elements(names[1..]) by { assert forall m :: m in names <==> m == names[0] || m in names[1..]; }
    }
  }

  lemma {:induction false} BindNamesFails(w: World, bindings: map<string, Expr>, names: seq<string>, state: State, scope: Scope, i: nat)
    requires (forall n :: n in names ==> n in bindings) && i < |names|
    requires forall j: nat :: j < i ==> Answer(w, bindings[names[j]], state, scope).Ok?
    requires Answer(w, bindings[names[i]], state, scope).Err?
    ensures BindNames(w, bindings, names, state, scope) == Err(Answer(w, bindings[names[i]], state, scope).error)
    decreases |names|
  {
    hide Answer;
    BindNamesStep(w, bindings, names, state, scope);
    if i > 0 {
      assert forall j: nat :: 0 < j < |names| ==> names[j] == names[1..][j - 1];
      BindNamesFails(w, bindings, names[1..], state, scope, i - 1);
    }
  }

  lemma BindExactly(w: World, target: Invocation, state: State, scope: Scope)
    ensures forall child :: Bind(w, target, state, scope) == Ok(child) <==> Binds(w, target, state, scope, child)
    ensures forall x :: Bind(w, target, state, scope) == Err(x) <==> BindFails(w, target, state, scope, x)
  {
    hide Answer, BindNames, First;
    var names := Sorted(target.bindings.Keys);
    var stops := n => Unbound(w, target, state, scope, n);
    var i := Until(names, stops);
    if i < |names| {
      forall j: nat | j < i ensures Answer(w, target.bindings[names[j]], state, scope).Ok? { assert !stops(names[j]); }
      assert Unbound(w, target, state, scope, names[i]);
      BindNamesFails(w, target.bindings, names, state, scope, i);
      UntilFirst(target.bindings.Keys, stops, i);
      forall x | BindFails(w, target, state, scope, x) ensures Bind(w, target, state, scope) == Err(x) { FirstUnbound(w, target, state, scope, x); }
    } else {
      forall n | n in names ensures Answer(w, target.bindings[n], state, scope).Ok? {
        var j: nat :| j < |names| && names[j] == n;
        assert !stops(names[j]);
      }
      BindNamesFound(w, target.bindings, names, state, scope);
      forall child | Binds(w, target, state, scope, child) ensures Bind(w, target, state, scope) == Ok(child) {
        SameMap(child, Bind(w, target, state, scope).value);
      }
      forall x | BindFails(w, target, state, scope, x) ensures Bind(w, target, state, scope) == Err(x) { FirstUnbound(w, target, state, scope, x); }
    }
  }

  lemma FirstUnbound(w: World, target: Invocation, state: State, scope: Scope, x: Error)
    requires BindFails(w, target, state, scope, x)
    ensures Bind(w, target, state, scope) == Err(x)
  {
    hide Answer, BindNames, First;
    var stops := n => Unbound(w, target, state, scope, n);
    var k :| First(target.bindings.Keys, k, stops) && k in target.bindings && Answer(w, target.bindings[k], state, scope) == Err(x);
    var j := FirstIndex(target.bindings.Keys, k, stops);
    forall l: nat | l < j ensures Answer(w, target.bindings[Sorted(target.bindings.Keys)[l]], state, scope).Ok? {
      assert !stops(Sorted(target.bindings.Keys)[l]);
    }
    BindNamesFails(w, target.bindings, Sorted(target.bindings.Keys), state, scope, j);
  }

  /** A scope with k under the index name, if one is declared, and every other name as bound. */
  predicate Indexed(node: Node, k: nat, bound: map<string, Value>, child: map<string, Value>)
    requires node.Repeat?
  {
    && child.Keys == bound.Keys + (if node.indexAs.Some? then {node.indexAs.value} else {})
    && forall n :: n in child ==> child[n] == if node.indexAs == Some(n) then Int(k) else bound[n]
  }

  /** Repetition k binds the declared names, and k itself under the index name, which wins. */
  ghost predicate BindsRepetition(w: World, node: Node, k: nat, state: State, scope: Scope, child: map<string, Value>)
    requires node.Repeat?
  {
    exists bound :: Binds(w, node.target, state, scope, bound) && Indexed(node, k, bound, child)
  }

  lemma IndexedOnce(node: Node, k: nat, bound: map<string, Value>, child: map<string, Value>)
    requires node.Repeat?
    ensures Indexed(node, k, bound, child) <==> child == if node.indexAs.Some? then bound[node.indexAs.value := Int(k)] else bound
  {
    SameMap(child, if node.indexAs.Some? then bound[node.indexAs.value := Int(k)] else bound);
  }

  lemma RepetitionExactly(w: World, node: Node, k: nat, state: State, scope: Scope)
    requires node.Repeat?
    ensures forall child :: BindRepetition(w, node, k, state, scope) == Ok(child) <==> BindsRepetition(w, node, k, state, scope, child)
    ensures forall x :: BindRepetition(w, node, k, state, scope) == Err(x) <==> BindFails(w, node.target, state, scope, x)
  {
    hide Bind, Binds, BindFails, Indexed;
    BindExactly(w, node.target, state, scope);
    var b := Bind(w, node.target, state, scope);
    if b.Ok? {
      assert Binds(w, node.target, state, scope, b.value);
      forall child ensures Indexed(node, k, b.value, child) <==> BindRepetition(w, node, k, state, scope) == Ok(child) {
        IndexedOnce(node, k, b.value, child);
      }
    }
  }
}
