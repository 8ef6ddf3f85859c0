/** The expression language: compilation against resources and scope, evaluation, and
    the static dependency set on which derivation ordering rests. */
module Expressions {
  import opened Order
  import opened Values

  datatype ArithOp = Add | Subtract | Multiply | Divide
  datatype CompareOp = LessThan | LessOrEqual | GreaterThan | GreaterOrEqual

  datatype Expr =
    | Literal(value: Value)
    | StateRef(name: string)
    | LocalRef(name: string)
    | DerivedRef(name: string)
    | ScopeRef(path: seq<string>)
    | ResourceRef(path: seq<string>)
    | Arith(op: ArithOp, left: Expr, right: Expr)
    | Compare(cmp: CompareOp, left: Expr, right: Expr)
    | Equal(left: Expr, right: Expr)
    | NotEqual(left: Expr, right: Expr)
    | Many(operands: seq<Expr>, useAnd: bool)
    | Not(operand: Expr)
    | Length(operand: Expr)
    | Append(source: Expr, item: Expr)
    | Record(parts: map<string, Expr>)
    | SumField(source: Expr, field: string)

  /** Decimal arithmetic, decimal comparison and canonical bytes stay abstract functions. */
  datatype Primitives = Primitives(
    decimal: (ArithOp, Value, Value) -> Result<Value>,
    decimalCompare: (CompareOp, Value, Value) -> Result<bool>,
    decimalIsZero: string -> bool,
    bytes: Value -> seq<int>
  )

  type Scope = Option<map<string, Value>>

  datatype Env = Env(state: State, locals: map<string, Value>, derived: map<string, Value>, scope: Scope)

  // ---------------------------------------------------------------- evaluation

  function ResolveScope(scope: Scope, path: seq<string>): Result<Value> {
    match scope
    case None => Err(ScopeResolution)
    case Some(values) =>
      match Descend(Dict(values), path)
      case None => Err(ScopeResolution)
      case Some(v) => Ok(v)
  }

  function Lookup(values: map<string, Value>, name: string): Result<Value> {
    if name in values then Ok(values[name]) else Err(ScopeResolution)
  }

  predicate Numeric(v: Value) {
    v.Int? || v.Dec?
  }

  function Plain(op: ArithOp, a: int, b: int): int
    requires op != Divide
  {
    match op
    case Add => a + b
    case Subtract => a - b
    case Multiply => a * b
  }

  function IsZero(p: Primitives, v: Value): bool
    requires Numeric(v)
  {
    match v
    case Int(n) => n == 0
    case Dec(t) => p.decimalIsZero(t)
  }

  function ArithValue(p: Primitives, op: ArithOp, a: Value, b: Value): Result<Value> {
    if !Numeric(a) || !Numeric(b) then Err(EvaluationFailed)
    else if op == Divide then (if IsZero(p, b) then Err(EvaluationFailed) else p.decimal(Divide, a, b))
    else if a.Dec? || b.Dec? then p.decimal(op, a, b)
    else Ok(Int(Plain(op, a.number, b.number)))
  }

  function CompareHolds(op: CompareOp, below: bool, same: bool): bool {
    match op
    case LessThan => below
    case LessOrEqual => below || same
    case GreaterThan => !below && !same
    case GreaterOrEqual => !below
  }

  function CompareValue(p: Primitives, op: CompareOp, a: Value, b: Value): Result<Value> {
    if a.Int? && b.Int? then Ok(Bool(CompareHolds(op, a.number < b.number, a.number == b.number)))
    else if Numeric(a) && Numeric(b) then
      match p.decimalCompare(op, a, b)
      case Ok(r) => Ok(Bool(r))
      case Err(e) => Err(e)
    else if a.Str? && b.Str? then Ok(Bool(CompareHolds(op, Less(a.chars, b.chars), a.chars == b.chars)))
    else if a.Time? && b.Time? then Ok(Bool(CompareHolds(op, a.instant < b.instant, a.instant == b.instant)))
    else Err(EvaluationFailed)
  }

  function LengthValue(v: Value): Result<Value> {
    match v
    case Str(s) => Ok(Int(|s|))
    case List(items) => Ok(Int(|items|))
    case Dict(fields) => Ok(Int(|fields|))
    case _ => Err(EvaluationFailed)
  }

  /** The loop of `$sum_field`: left to right, exact on integers, decimal once a decimal is met. */
  function SumItems(p: Primitives, items: seq<Value>, field: string, total: Value): Result<Value>
    decreases |items|
  {
    if items == [] then Ok(total)
    else if !items[0].Dict? then Err(NativeTypeError)
    else if field !in items[0].fields then Err(NativeKeyError)
    else
      var next :- ArithValue(p, Add, total, items[0].fields[field]);
      SumItems(p, items[1..], field, next)
  }

  /** Python iterates the keys of a mapping and the characters of a string; indexing either fails. */
  function SumValue(p: Primitives, v: Value, field: string): Result<Value> {
    match v
    case List(items) => SumItems(p, items, field, Int(0))
    case Dict(fields) => if fields == map[] then Ok(Int(0)) else Err(NativeTypeError)
    case Str(s) => if s == "" then Ok(Int(0)) else Err(NativeTypeError)
    case _ => Err(NativeTypeError)
  }

  function Eval(p: Primitives, e: Expr, env: Env): Result<Value>
    decreases e, 1, 0
  {
    match e
    case Literal(v) => Ok(v)
    case StateRef(n) => Lookup(env.state, n)
    case LocalRef(n) => Lookup(env.locals, n)
    case DerivedRef(n) => Lookup(env.derived, n)
    case ScopeRef(path) => ResolveScope(env.scope, path)
    case ResourceRef(_) => Err(ResourceUnresolved)
    case Arith(op, l, r) =>
      var a :- Eval(p, l, env);
      var b :- Eval(p, r, env);
      ArithValue(p, op, a, b)
    case Compare(op, l, r) =>
      var a :- Eval(p, l, env);
      var b :- Eval(p, r, env);
      CompareValue(p, op, a, b)
    case Equal(l, r) =>
      var a :- Eval(p, l, env);
      var b :- Eval(p, r, env);
      Ok(Bool(p.bytes(a) == p.bytes(b)))
    case NotEqual(l, r) =>
      var a :- Eval(p, l, env);
      var b :- Eval(p, r, env);
      Ok(Bool(p.bytes(a) != p.bytes(b)))
    case Many(operands, useAnd) => EvalMany(p, e, 0, useAnd, env)
    case Not(x) =>
      var v :- Eval(p, x, env);
      if v.Bool? then Ok(Bool(!v.flag)) else Err(EvaluationFailed)
    case Length(x) =>
      var v :- Eval(p, x, env);
      LengthValue(v)
    case Append(s, x) =>
      var v :- Eval(p, s, env);
      var item :- Eval(p, x, env);
      if v.List? then Ok(List(v.items + [item])) else Err(NativeTypeError)
    case Record(parts) =>
      var values :- EvalParts(p, e, Sorted(parts.Keys), env);
      Ok(Dict(values))
    case SumField(s, field) =>
      var v :- Eval(p, s, env);
      SumValue(p, v, field)
  }

  /** Every operand is evaluated, also after the outcome is settled. */
  function EvalMany(p: Primitives, e: Expr, i: nat, result: bool, env: Env): Result<Value>
    requires e.Many? && i <= |e.operands|
    decreases e, 0, |e.operands| - i
  {
    if i == |e.operands| then Ok(Bool(result))
    else
      var v :- Eval(p, e.operands[i], env);
      if !v.Bool? then Err(EvaluationFailed)
      else EvalMany(p, e, i + 1, if e.useAnd then result && v.flag else result || v.flag, env)
  }

  function EvalParts(p: Primitives, e: Expr, names: seq<string>, env: Env): Result<map<string, Value>>
    requires e.Record? && forall n :: n in names ==> n in e.parts
    decreases e, 0, |names|
  {
    if names == [] then Ok(map[])
    else
      var v :- Eval(p, e.parts[names[0]], env);
      var rest :- EvalParts(p, e, names[1..], env);
      Ok(rest[names[0] := v])
  }

  /** Evaluates a mapping of expressions in sorted name order, as bindings, patches and emissions do. */
  function EvalMap(p: Primitives, parts: map<string, Expr>, env: Env): Result<map<string, Value>> {
    EvalParts(p, Record(parts), Sorted(parts.Keys), env)
  }

  // ---------------------------------------------------------------- dependencies

  function Dependencies(e: Expr): set<string> {
    match e
    case DerivedRef(n) => {n}
    case Arith(_, l, r) => Dependencies(l) + Dependencies(r)
    case Compare(_, l, r) => Dependencies(l) + Dependencies(r)
    case Equal(l, r) => Dependencies(l) + Dependencies(r)
    case NotEqual(l, r) => Dependencies(l) + Dependencies(r)
    case Many(operands, _) => set i, n | 0 <= i < |operands| && n in Dependencies(operands[i]) :: n
    case Not(x) => Dependencies(x)
    case Length(x) => Dependencies(x)
    case Append(s, x) => Dependencies(s) + Dependencies(x)
    case Record(parts) => set k, n | k in parts && n in Dependencies(parts[k]) :: n
    case SumField(s, _) => Dependencies(s)
    case _ => {}
  }

  /** Two derived environments that answer every name in `names` alike. */
  predicate Agree(names: set<string>, a: map<string, Value>, b: map<string, Value>) {
    forall n :: n in names ==> (n in a <==> n in b) && (n in a ==> a[n] == b[n])
  }

  /** `dependencies()` is sound for `evaluate`: nothing outside it can influence the value. */
  lemma {:induction false} EvalReadsOnlyDependencies(p: Primitives, e: Expr, env: Env, other: map<string, Value>)
    requires Agree(Dependencies(e), env.derived, other)
    ensures Eval(p, e, env) == Eval(p, e, env.(derived := other))
    decreases e, 1, 0
  {
    hide ArithValue, CompareValue, LengthValue, SumValue, ResolveScope, Sorted, EvalMany, EvalParts, Agree, Dependencies, Lookup;
    OperandDependencies(e, env.derived, other);
    match e
    case DerivedRef(n) => LookupAgrees(e, n, env.derived, other);
    case Many(operands, useAnd) => ManyReadsOnlyDependencies(p, e, 0, useAnd, env, other);
    case Record(parts) => PartsReadOnlyDependencies(p, e, Sorted(parts.Keys), env, other);
    case Arith(_, l, r) => PairReadsOnlyDependencies(p, e, l, r, env, other);
    case Compare(_, l, r) => PairReadsOnlyDependencies(p, e, l, r, env, other);
    case Equal(l, r) => PairReadsOnlyDependencies(p, e, l, r, env, other);
    case NotEqual(l, r) => PairReadsOnlyDependencies(p, e, l, r, env, other);
    case Append(s, x) => PairReadsOnlyDependencies(p, e, s, x, env, other);
    case Not(x) => EvalReadsOnlyDependencies(p, x, env, other);
    case Length(x) => EvalReadsOnlyDependencies(p, x, env, other);
    case SumField(s, _) => EvalReadsOnlyDependencies(p, s, env, other);
    case _ =>
  }

  lemma {:induction false} PairReadsOnlyDependencies(p: Primitives, e: Expr, l: Expr, r: Expr, env: Env, other: map<string, Value>)
    requires Agree(Dependencies(l), env.derived, other) && Agree(Dependencies(r), env.derived, other) && l < e && r < e
    ensures Eval(p, l, env) == Eval(p, l, env.(derived := other)) && Eval(p, r, env) == Eval(p, r, env.(derived := other))
    decreases e, 0, 0
  {
    EvalReadsOnlyDependencies(p, l, env, other);
    EvalReadsOnlyDependencies(p, r, env, other);
  }

  lemma LookupAgrees(e: Expr, n: string, a: map<string, Value>, b: map<string, Value>)
    requires e == DerivedRef(n) && Agree(Dependencies(e), a, b)
    ensures Lookup(a, n) == Lookup(b, n)
  {
    assert n in Dependencies(e);
  }

  /** Agreement on an expression's dependencies gives agreement on those of its operands. */
  lemma OperandDependencies(e: Expr, a: map<string, Value>, b: map<string, Value>)
    requires Agree(Dependencies(e), a, b)
    ensures e.Arith? || e.Compare? || e.Equal? || e.NotEqual? ==> Agree(Dependencies(e.left), a, b) && Agree(Dependencies(e.right), a, b)
    ensures e.Append? ==> Agree(Dependencies(e.source), a, b) && Agree(Dependencies(e.item), a, b)
    ensures e.SumField? ==> Agree(Dependencies(e.source), a, b)
    ensures e.Not? || e.Length? ==> Agree(Dependencies(e.operand), a, b)
  {
  }

  lemma {:induction false} ManyReadsOnlyDependencies(p: Primitives, e: Expr, i: nat, result: bool, env: Env, other: map<string, Value>)
    requires e.Many? && i <= |e.operands|
    requires Agree(Dependencies(e), env.derived, other)
    ensures EvalMany(p, e, i, result, env) == EvalMany(p, e, i, result, env.(derived := other))
    decreases e, 0, |e.operands| - i
  {
    if i < |e.operands| {
      EvalReadsOnlyDependencies(p, e.operands[i], env, other);
      var v := Eval(p, e.operands[i], env);
      if v.Ok? && v.value.Bool? {
        ManyReadsOnlyDependencies(p, e, i + 1,
          if e.useAnd then result && v.value.flag else result || v.value.flag, env, other);
      }
    }
  }

  lemma {:induction false} PartsReadOnlyDependencies(p: Primitives, e: Expr, names: seq<string>, env: Env, other: map<string, Value>)
    requires e.Record? && forall n :: n in names ==> n in e.parts
    requires Agree(Dependencies(e), env.derived, other)
    ensures EvalParts(p, e, names, env) == EvalParts(p, e, names, env.(derived := other))
    decreases e, 0, |names|
  {
    if names != [] {
      EvalReadsOnlyDependencies(p, e.parts[names[0]], env, other);
      PartsReadOnlyDependencies(p, e, names[1..], env, other);
    }
  }

  // ---------------------------------------------------------------- compilation

  function LookupResource(resources: map<string, Value>, path: seq<string>): Result<Value> {
    match Descend(Dict(resources), path)
    case None => Err(ResourceUnresolved)
    case Some(v) => Ok(v)
  }

  /** Replaces resource references, and scope references when a scope is given, by literals. */
  function Compile(e: Expr, resources: map<string, Value>, scope: Scope): Result<Expr>
    decreases e, 1, 0
  {
    match e
    case ResourceRef(path) =>
      var v :- LookupResource(resources, path);
      Ok(Literal(v))
    case ScopeRef(path) =>
      if scope.None? then Ok(e)
      else
        var v :- ResolveScope(scope, path);
        Ok(Literal(v))
    case Arith(op, l, r) =>
      var a :- Compile(l, resources, scope);
      var b :- Compile(r, resources, scope);
      Ok(Arith(op, a, b))
    case Compare(op, l, r) =>
      var a :- Compile(l, resources, scope);
      var b :- Compile(r, resources, scope);
      Ok(Compare(op, a, b))
    case Equal(l, r) =>
      var a :- Compile(l, resources, scope);
      var b :- Compile(r, resources, scope);
      Ok(Equal(a, b))
    case NotEqual(l, r) =>
      var a :- Compile(l, resources, scope);
      var b :- Compile(r, resources, scope);
      Ok(NotEqual(a, b))
    case Many(operands, useAnd) =>
      var parts :- CompileMany(e, 0, resources, scope);
      Ok(Many(parts, useAnd))
    case Not(x) =>
      var a :- Compile(x, resources, scope);
      Ok(Not(a))
    case Length(x) =>
      var a :- Compile(x, resources, scope);
      Ok(Length(a))
    case Append(s, x) =>
      var a :- Compile(s, resources, scope);
      var b :- Compile(x, resources, scope);
      Ok(Append(a, b))
    case Record(parts) =>
      var compiled :- CompileParts(e, Sorted(parts.Keys), resources, scope);
      Ok(Record(compiled))
    case SumField(s, field) =>
      var a :- Compile(s, resources, scope);
      Ok(SumField(a, field))
    case _ => Ok(e)
  }

  function CompileMany(e: Expr, i: nat, resources: map<string, Value>, scope: Scope): Result<seq<Expr>>
    requires e.Many? && i <= |e.operands|
    decreases e, 0, |e.operands| - i
  {
    if i == |e.operands| then Ok([])
    else
      var head :- Compile(e.operands[i], resources, scope);
      var rest :- CompileMany(e, i + 1, resources, scope);
      Ok([head] + rest)
  }

  function CompileParts(e: Expr, names: seq<string>, resources: map<string, Value>, scope: Scope): Result<map<string, Expr>>
    requires e.Record? && forall n :: n in names ==> n in e.parts
    decreases e, 0, |names|
  {
    if names == [] then Ok(map[])
    else
      var head :- Compile(e.parts[names[0]], resources, scope);
      var rest :- CompileParts(e, names[1..], resources, scope);
      Ok(rest[names[0] := head])
  }

  function CompileMap(parts: map<string, Expr>, resources: map<string, Value>, scope: Scope): Result<map<string, Expr>> {
    CompileParts(Record(parts), Sorted(parts.Keys), resources, scope)
  }
}
