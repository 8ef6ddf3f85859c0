/** Bounded matrix expansion: the pre-filter cardinality, odometer order, raw indexes, filters and
    duplicate detection. */
module Matrix {
  import opened Values

  const MAX_RAW_CARDINALITY: nat := 100000
  const MAX_RETAINED_CASES: nat := 10000

  datatype Dimension = Dimension(name: string, values: seq<Value>)

  type Assignment = map<string, Value>

  /** How one filter judges an assignment; `Bad` raises. */
  datatype Verdict = Keep | Drop | Bad

  /** Filters are functions of the assignment; `canon` gives the canonical bytes of a value. */
  datatype Plan = Plan(dimensions: seq<Dimension>, filters: seq<Assignment -> Verdict>, canon: Value -> string) {
    /** What the plan's constructor checks. */
    predicate Valid() {
      && (forall d :: 0 <= d < |dimensions| ==> dimensions[d].values != [])
      && forall d, e :: 0 <= d < e < |dimensions| ==> dimensions[d].name != dimensions[e].name
    }

    function Sizes(): (sizes: seq<nat>)
      ensures |sizes| == |dimensions| && forall d :: 0 <= d < |sizes| ==> sizes[d] == |dimensions[d].values|
    {
      seq(|dimensions|, d requires 0 <= d < |dimensions| => |dimensions[d].values|)
    }
  }

  // ---------------------------------------------------------------- mixed-radix positions

  predicate Positive(sizes: seq<nat>) {
    forall d :: 0 <= d < |sizes| ==> sizes[d] > 0
  }

  /** The product of the sizes from `i` on. */
  function Product(sizes: seq<nat>, i: nat): nat
    requires i <= |sizes|
    decreases |sizes| - i
  {
    if i == |sizes| then 1 else sizes[i] * Product(sizes, i + 1)
  }

  predicate Within(sizes: seq<nat>, digits: seq<nat>) {
    |digits| == |sizes| && forall d :: 0 <= d < |sizes| ==> digits[d] < sizes[d]
  }

  /** The mixed-radix number the digits from `i` on stand for. */
  function Position(sizes: seq<nat>, digits: seq<nat>, i: nat): nat
    requires |digits| == |sizes| && i <= |sizes|
    decreases |sizes| - i
  {
    if i == |sizes| then 0 else digits[i] * Product(sizes, i + 1) + Position(sizes, digits, i + 1)
  }

  lemma {:induction false} ProductPositive(sizes: seq<nat>, i: nat)
    requires i <= |sizes| && Positive(sizes)
    ensures Product(sizes, i) >= 1
    decreases |sizes| - i
  {
    if i < |sizes| {
      ProductPositive(sizes, i + 1);
      Grows(sizes[i], Product(sizes, i + 1));
    }
  }

  lemma Grows(a: nat, b: nat)
    requires a >= 1 && b >= 1
    ensures a * b >= b && a * b >= a && a * b >= 1
  {
  }

  lemma {:induction false} PositionBelow(sizes: seq<nat>, digits: seq<nat>, i: nat)
    requires i <= |sizes| && Within(sizes, digits)
    ensures Position(sizes, digits, i) < Product(sizes, i)
    decreases |sizes| - i
  {
    if i < |sizes| {
      PositionBelow(sizes, digits, i + 1);
      DigitBelow(digits[i], sizes[i], Product(sizes, i + 1), Position(sizes, digits, i + 1));
    }
  }

  lemma DigitBelow(d: nat, s: nat, p: nat, x: nat)
    requires d < s && x < p
    ensures d * p + x < s * p
  {
    assert (d + 1) * p <= s * p;
  }

  lemma SameDigit(a: nat, b: nat, p: nat, x: nat, y: nat)
    requires x < p && y < p && a * p + x == b * p + y
    ensures a == b && x == y
  {
    if a < b { DigitBelow(a, b, p, x); }
    if b < a { DigitBelow(b, a, p, y); }
  }

  /** Digits are determined by the number they stand for. */
  lemma {:induction false} PositionInjective(sizes: seq<nat>, a: seq<nat>, b: seq<nat>, i: nat)
    requires i <= |sizes| && Within(sizes, a) && Within(sizes, b)
    requires Position(sizes, a, i) == Position(sizes, b, i)
    ensures forall d :: i <= d < |sizes| ==> a[d] == b[d]
    decreases |sizes| - i
  {
    if i < |sizes| {
      PositionBelow(sizes, a, i + 1);
      PositionBelow(sizes, b, i + 1);
      SameDigit(a[i], b[i], Product(sizes, i + 1), Position(sizes, a, i + 1), Position(sizes, b, i + 1));
      PositionInjective(sizes, a, b, i + 1);
    }
  }

  /** The mixed-radix digits of a raw index. */
  function Radix(sizes: seq<nat>, c: nat): (digits: seq<nat>)
    requires Positive(sizes)
    ensures Within(sizes, digits)
  {
    seq(|sizes|, d requires 0 <= d < |sizes| => (ProductPositive(sizes, d + 1); (c / Product(sizes, d + 1)) % sizes[d]))
  }

  lemma {:induction false} RadixPosition(sizes: seq<nat>, c: nat, i: nat)
    requires Positive(sizes) && i <= |sizes|
    ensures Product(sizes, i) > 0 && Position(sizes, Radix(sizes, c), i) == c % Product(sizes, i)
    decreases |sizes| - i
  {
    ProductPositive(sizes, i);
    if i < |sizes| {
      RadixPosition(sizes, c, i + 1);
      SplitRemainder(c, sizes[i], Product(sizes, i + 1));
    }
  }

  lemma SplitRemainder(c: nat, s: nat, p: nat)
    requires s > 0 && p > 0
    ensures s * p > 0 && c % (s * p) == ((c / p) % s) * p + c % p
  {
    Grows(s, p);
    var q, x := c / p, c % p;
    var k, d := q / s, q % s;
    DivMod(c, p);
    DivMod(q, s);
    DigitBelow(d, s, p, x);
    Regroup(k, s, d, p, x);
    Remainder(c, s * p, k, d * p + x);
  }

  lemma DivMod(a: nat, b: nat)
    requires b > 0
    ensures a == (a / b) * b + a % b && a % b < b
  {
  }

  lemma Regroup(k: nat, s: nat, d: nat, p: nat, x: nat)
    ensures (k * s + d) * p + x == k * (s * p) + (d * p + x)
  {
  }

  lemma Remainder(c: nat, n: nat, k: nat, m: nat)
    requires n > 0 && c == k * n + m && m < n
    ensures c % n == m
  {
    DivMod(c, n);
    SameDigit(c / n, k, n, c % n, m);
  }

  // ---------------------------------------------------------------- the cardinality check

  type Bounded = n: nat | n <= MAX_RAW_CARDINALITY

  /** `raw_cardinality`: raises exactly when the true product exceeds the cap.  The running product
      has type `Bounded`, so no larger number is ever formed. */
  method RawCardinality(plan: Plan) returns (cardinality: Option<Bounded>)
    requires plan.Valid()
    ensures cardinality == if Product(plan.Sizes(), 0) <= MAX_RAW_CARDINALITY then Some(Product(plan.Sizes(), 0)) else None
  {
    var sizes := plan.Sizes();
    var running: Bounded := 1;
    for i := 0 to |plan.dimensions|
      invariant running >= 1 && running * Product(sizes, i) == Product(sizes, 0)
    {
      var count := |plan.dimensions[i].values|;
      ProductPositive(sizes, i + 1);
      OverCap(running, count, Product(sizes, i + 1));
      if running > MAX_RAW_CARDINALITY / count { return None; }
      Grows(running, count);
      running := running * count;
    }
    cardinality := Some(running);
  }

  lemma OverCap(running: nat, count: nat, rest: nat)
    requires running >= 1 && count >= 1 && rest >= 1
    ensures running > MAX_RAW_CARDINALITY / count <==> running * count > MAX_RAW_CARDINALITY
    ensures running * (count * rest) == (running * count) * rest >= running * count
  {
    Quotient(MAX_RAW_CARDINALITY, count, running);
    Grows(running, count);
    Grows(rest, running * count);
  }

  lemma Quotient(cap: nat, count: nat, running: nat)
    requires count >= 1
    ensures running > cap / count <==> running * count > cap
  {
    var q := cap / count;
    assert q * count <= cap < (q + 1) * count;
    if running > q {
      assert running * count >= (q + 1) * count;
    } else {
      assert running * count <= q * count;
    }
  }

  // ---------------------------------------------------------------- the odometer

  /** The product of the value axes, one combination after another, the last axis fastest. */
  class Odometer {
    const sizes: seq<nat>
    const digits: array<nat>

    ghost predicate Valid()
      reads this, digits
    {
      Positive(sizes) && Within(sizes, digits[..])
    }

    ghost function Index(): nat
      reads this, digits
      requires Valid()
    {
      Position(sizes, digits[..], 0)
    }

    constructor (sizes: seq<nat>)
      requires Positive(sizes)
      ensures Valid() && this.sizes == sizes && fresh(digits) && Index() == 0
    {
      this.sizes := sizes;
      digits := new nat[|sizes|](_ => 0);
      new;
      ZeroPosition(sizes, digits[..], 0);
    }

    /** Moves to the next combination; false when the last one was reached, after wrapping to zero. */
    method Advance() returns (more: bool)
      requires Valid()
      modifies digits
      ensures Valid()
      ensures more ==> Index() == old(Index()) + 1
      ensures !more ==> old(Index()) + 1 == Product(sizes, 0) && Index() == 0
    {
      ghost var before := digits[..];
      var i: nat := digits.Length;
      while i > 0 && digits[i - 1] + 1 == sizes[i - 1]
        invariant 0 <= i <= digits.Length && Within(sizes, digits[..])
        invariant forall d :: i <= d < digits.Length ==> digits[d] == 0 && before[d] == sizes[d] - 1
        invariant forall d :: 0 <= d < i ==> digits[d] == before[d]
      {
        digits[i - 1] := 0;
        i := i - 1;
      }
      FullPosition(sizes, before, i);
      if i == 0 {
        ZeroPosition(sizes, digits[..], 0);
        return false;
      }
      digits[i - 1] := digits[i - 1] + 1;
      ghost var after := digits[..];
      ZeroPosition(sizes, after, i);
      NextDigit(before[i - 1], Product(sizes, i));
      SamePrefix(sizes, before, after, 0, i - 1);
      more := true;
    }
  }

  lemma NextDigit(d: nat, p: nat)
    ensures (d + 1) * p == d * p + p
  {
  }

  lemma {:induction false} ZeroPosition(sizes: seq<nat>, digits: seq<nat>, i: nat)
    requires |digits| == |sizes| && i <= |sizes| && forall d :: i <= d < |sizes| ==> digits[d] == 0
    ensures Position(sizes, digits, i) == 0
    decreases |sizes| - i
  {
    if i < |sizes| { ZeroPosition(sizes, digits, i + 1); }
  }

  lemma {:induction false} FullPosition(sizes: seq<nat>, digits: seq<nat>, i: nat)
    requires i <= |sizes| && Within(sizes, digits) && forall d :: i <= d < |sizes| ==> digits[d] == sizes[d] - 1
    ensures Position(sizes, digits, i) + 1 == Product(sizes, i)
    decreases |sizes| - i
  {
    if i < |sizes| {
      FullPosition(sizes, digits, i + 1);
      NextDigit(digits[i], Product(sizes, i + 1));
    }
  }

  /** Changing digits from `k` on by one unit of weight changes the whole number by as much. */
  lemma {:induction false} SamePrefix(sizes: seq<nat>, a: seq<nat>, b: seq<nat>, i: nat, k: nat)
    requires |a| == |b| == |sizes| && i <= k <= |sizes| && forall d :: i <= d < k ==> a[d] == b[d]
    requires Position(sizes, b, k) == Position(sizes, a, k) + 1
    ensures Position(sizes, b, i) == Position(sizes, a, i) + 1
    decreases k - i
  {
    if i < k { SamePrefix(sizes, a, b, i + 1, k); }
  }

  // ---------------------------------------------------------------- assignments and what is retained

  function AssignmentOf(plan: Plan, digits: seq<nat>): (a: Assignment)
    requires plan.Valid() && Within(plan.Sizes(), digits)
    ensures forall d :: 0 <= d < |plan.dimensions| ==>
              plan.dimensions[d].name in a && a[plan.dimensions[d].name] == plan.dimensions[d].values[digits[d]]
    ensures forall n :: n in a ==> exists d :: 0 <= d < |plan.dimensions| && plan.dimensions[d].name == n
  {
    map d | 0 <= d < |plan.dimensions| :: plan.dimensions[d].name := plan.dimensions[d].values[digits[d]]
  }

  /** The canonical identity of an assignment: its names with the canonical bytes of their values. */
  function Identity(plan: Plan, a: Assignment): map<string, string> {
    map n | n in a :: plan.canon(a[n])
  }

  lemma SizesPositive(plan: Plan)
    requires plan.Valid()
    ensures Positive(plan.Sizes())
  {
  }

  /** The assignment at a raw index. */
  function AssignmentAt(plan: Plan, c: nat): Assignment
    requires plan.Valid()
  {
    SizesPositive(plan);
    AssignmentOf(plan, Radix(plan.Sizes(), c))
  }

  function IdentityAt(plan: Plan, c: nat): map<string, string>
    requires plan.Valid()
  {
    Identity(plan, AssignmentAt(plan, c))
  }

  /** `all(evaluate_filter(...))`, stopping at the first filter that drops or raises. */
  function Judge(filters: seq<Assignment -> Verdict>, a: Assignment): Verdict {
    if filters == [] then Keep
    else if filters[0](a) == Keep then Judge(filters[1..], a) else filters[0](a)
  }

  /** An assignment is kept exactly when every filter keeps it; otherwise the first filter that does not
      decides whether it is dropped or raises. */
  lemma {:induction false} JudgeExactly(filters: seq<Assignment -> Verdict>, a: Assignment)
    ensures Judge(filters, a) == Keep <==> forall i :: 0 <= i < |filters| ==> filters[i](a) == Keep
    ensures forall i :: 0 <= i < |filters| && filters[i](a) != Keep && (forall j :: 0 <= j < i ==> filters[j](a) == Keep) ==>
              Judge(filters, a) == filters[i](a)
    decreases |filters|
  {
    if filters != [] {
      JudgeExactly(filters[1..], a);
      assert forall i :: 0 < i < |filters| ==> filters[i] == filters[1..][i - 1];
      if filters[0](a) == Keep {
        forall i | 0 <= i < |filters| && filters[i](a) != Keep && (forall j :: 0 <= j < i ==> filters[j](a) == Keep)
          ensures Judge(filters, a) == filters[i](a)
        {
          assert forall j :: 0 <= j < i - 1 ==> filters[1..][j](a) == Keep by {
            forall j | 0 <= j < i - 1 ensures filters[1..][j](a) == Keep { assert filters[j + 1](a) == Keep; }
          }
          assert filters[1..][i - 1](a) != Keep;
        }
      }
    }
  }

  datatype Case = Case(index: nat, assignment: Assignment)

  /** The retained cases among the first `c` raw indexes. */
  function Retained(plan: Plan, c: nat): seq<Case>
    requires plan.Valid()
  {
    if c == 0 then []
    else
      var a := AssignmentAt(plan, c - 1);
      Retained(plan, c - 1) + if Judge(plan.filters, a) == Keep then [Case(c - 1, a)] else []
  }

  /** The retained cases are exactly the kept raw indexes, in ascending order, with their own assignments. */
  lemma {:induction false} RetainedExactly(plan: Plan, c: nat)
    requires plan.Valid()
    ensures var cases := Retained(plan, c);
            && (forall i :: 0 <= i < |cases| ==> cases[i].index < c && cases[i].assignment == AssignmentAt(plan, cases[i].index))
            && (forall i, j :: 0 <= i < j < |cases| ==> cases[i].index < cases[j].index)
            && (forall k :: 0 <= k < c ==> (Judge(plan.filters, AssignmentAt(plan, k)) == Keep <==> Case(k, AssignmentAt(plan, k)) in cases))
  {
    hide AssignmentAt, Judge;
    if c > 0 {
      RetainedExactly(plan, c - 1);
      var a := AssignmentAt(plan, c - 1);
      var earlier, cases := Retained(plan, c - 1), Retained(plan, c);
      forall k | 0 <= k < c ensures Judge(plan.filters, AssignmentAt(plan, k)) == Keep <==> Case(k, AssignmentAt(plan, k)) in cases {
        if k < c - 1 {
          assert Case(k, AssignmentAt(plan, k)) in cases <==> Case(k, AssignmentAt(plan, k)) in earlier;
        } else {
          assert Case(k, a) !in earlier;
        }
      }
    }
  }

  // ---------------------------------------------------------------- duplicates

  ghost predicate Repeats(plan: Plan)
    requires plan.Valid()
  {
    exists d, i, j :: 0 <= d < |plan.dimensions| && 0 <= i < j < |plan.dimensions[d].values|
                      && plan.canon(plan.dimensions[d].values[i]) == plan.canon(plan.dimensions[d].values[j])
  }

  ghost predicate HasDuplicate(plan: Plan, n: nat)
    requires plan.Valid()
  {
    exists a, b :: 0 <= a < b < n && IdentityAt(plan, a) == IdentityAt(plan, b)
  }

  lemma RadixRestores(sizes: seq<nat>, digits: seq<nat>)
    requires Positive(sizes) && Within(sizes, digits)
    ensures Position(sizes, digits, 0) < Product(sizes, 0)
    ensures Radix(sizes, Position(sizes, digits, 0)) == digits
  {
    hide Radix, Position, Product;
    var c := Position(sizes, digits, 0);
    PositionBelow(sizes, digits, 0);
    RadixPosition(sizes, c, 0);
    Remainder(c, Product(sizes, 0), 0, c);
    PositionInjective(sizes, Radix(sizes, c), digits, 0);
  }

  /** The canonical bytes the raw index `c` gives to dimension `d`. */
  function CanonAt(plan: Plan, c: nat, d: nat): string
    requires plan.Valid() && d < |plan.dimensions|
  {
    SizesPositive(plan);
    plan.canon(plan.dimensions[d].values[Radix(plan.Sizes(), c)[d]])
  }

  lemma IdentityEntries(plan: Plan, c: nat)
    requires plan.Valid()
    ensures forall d :: 0 <= d < |plan.dimensions| ==>
              plan.dimensions[d].name in IdentityAt(plan, c) && IdentityAt(plan, c)[plan.dimensions[d].name] == CanonAt(plan, c, d)
    ensures forall n :: n in IdentityAt(plan, c) ==> exists d :: 0 <= d < |plan.dimensions| && plan.dimensions[d].name == n
  {
    hide Radix;
  }

  /** Two raw indexes have the same identity exactly when they agree canonically in every dimension. */
  lemma SameIdentity(plan: Plan, a: nat, b: nat)
    requires plan.Valid()
    ensures IdentityAt(plan, a) == IdentityAt(plan, b) <==>
              forall d :: 0 <= d < |plan.dimensions| ==> CanonAt(plan, a, d) == CanonAt(plan, b, d)
  {
    hide IdentityAt, CanonAt;
    var x, y := IdentityAt(plan, a), IdentityAt(plan, b);
    IdentityEntries(plan, a);
    IdentityEntries(plan, b);
    if forall d :: 0 <= d < |plan.dimensions| ==> CanonAt(plan, a, d) == CanonAt(plan, b, d) {
      forall n ensures (n in x <==> n in y) && (n in x ==> x[n] == y[n]) {
        if n in x || n in y { var d :| 0 <= d < |plan.dimensions| && plan.dimensions[d].name == n; }
      }
      assert x == y;
    }
    if x == y {
      forall d | 0 <= d < |plan.dimensions| ensures CanonAt(plan, a, d) == CanonAt(plan, b, d) {
        assert x[plan.dimensions[d].name] == y[plan.dimensions[d].name];
      }
    }
  }

  /** Duplicate assignments exist exactly when some dimension holds two canonically equal values. */
  lemma DuplicatesExactly(plan: Plan)
    requires plan.Valid()
    ensures HasDuplicate(plan, Product(plan.Sizes(), 0)) <==> Repeats(plan)
  {
    hide Radix, IdentityAt;
    var sizes := plan.Sizes();
    SizesPositive(plan);
    if HasDuplicate(plan, Product(sizes, 0)) {
      var a, b :| 0 <= a < b < Product(sizes, 0) && IdentityAt(plan, a) == IdentityAt(plan, b);
      DifferSomewhere(plan, a, b);
    }
    if Repeats(plan) {
      var d, i, j :| 0 <= d < |plan.dimensions| && 0 <= i < j < |plan.dimensions[d].values|
                     && plan.canon(plan.dimensions[d].values[i]) == plan.canon(plan.dimensions[d].values[j]);
      CollideAt(plan, d, i, j);
    }
  }

  lemma DifferSomewhere(plan: Plan, a: nat, b: nat)
    requires plan.Valid() && a < b < Product(plan.Sizes(), 0) && IdentityAt(plan, a) == IdentityAt(plan, b)
    ensures Repeats(plan)
  {
    hide IdentityAt, Radix, Position, Product, CanonAt, Repeats;
    var sizes := plan.Sizes();
    SizesPositive(plan);
    SameIdentity(plan, a, b);
    RadixPosition(sizes, a, 0);
    RadixPosition(sizes, b, 0);
    Remainder(a, Product(sizes, 0), 0, a);
    Remainder(b, Product(sizes, 0), 0, b);
    assert Radix(sizes, a) != Radix(sizes, b);
    var d :| 0 <= d < |sizes| && Radix(sizes, a)[d] != Radix(sizes, b)[d];
    assert CanonAt(plan, a, d) == CanonAt(plan, b, d);
    RepeatsIn(plan, a, b, d);
  }

  lemma RepeatsIn(plan: Plan, a: nat, b: nat, d: nat)
    requires plan.Valid() && Positive(plan.Sizes()) && d < |plan.dimensions|
    requires CanonAt(plan, a, d) == CanonAt(plan, b, d) && Radix(plan.Sizes(), a)[d] != Radix(plan.Sizes(), b)[d]
    ensures Repeats(plan)
  {
    hide Radix;
    var i, j := Radix(plan.Sizes(), a)[d], Radix(plan.Sizes(), b)[d];
    var low, high := if i < j then i else j, if i < j then j else i;
    assert plan.canon(plan.dimensions[d].values[low]) == plan.canon(plan.dimensions[d].values[high]);
  }

  lemma CollideAt(plan: Plan, d: nat, i: nat, j: nat)
    requires plan.Valid() && d < |plan.dimensions| && i < j < |plan.dimensions[d].values|
    requires plan.canon(plan.dimensions[d].values[i]) == plan.canon(plan.dimensions[d].values[j])
    ensures HasDuplicate(plan, Product(plan.Sizes(), 0))
  {
    hide IdentityAt, Radix, Position, Product;
    var sizes := plan.Sizes();
    SizesPositive(plan);
    var zero := seq(|sizes|, _ => 0);
    var x, y := zero[d := i], zero[d := j];
    RadixRestores(sizes, x);
    RadixRestores(sizes, y);
    var a, b := Position(sizes, x, 0), Position(sizes, y, 0);
    assert forall e :: 0 <= e < |plan.dimensions| && e != d ==> x[e] == y[e];
    SameIdentity(plan, a, b);
    assert x[d] != y[d];
    assert a != b;
    var low, high := if a < b then a else b, if a < b then b else a;
    assert IdentityAt(plan, low) == IdentityAt(plan, high);
  }

  // ---------------------------------------------------------------- the expansion

  datatype Expansion =
    | Expanded(cases: seq<Case>)
    | RawCardinalityError
    | RetainedCardinalityError
    | DuplicateError
    | FilterError

  ghost predicate SeenBefore(plan: Plan, c: nat)
    requires plan.Valid()
  {
    exists b :: 0 <= b < c && IdentityAt(plan, b) == IdentityAt(plan, c)
  }

  /** What raw index `c` raises when those before it raised nothing: a duplicate is noticed before the
      filters run, and they run before the case is counted against the cap. */
  ghost function IndexError(plan: Plan, c: nat): Option<Expansion>
    requires plan.Valid()
  {
    if SeenBefore(plan, c) then Some(DuplicateError)
    else
      match Judge(plan.filters, AssignmentAt(plan, c))
      case Bad => Some(FilterError)
      case Keep => if |Retained(plan, c)| >= MAX_RETAINED_CASES then Some(RetainedCardinalityError) else None
      case Drop => None
  }

  ghost predicate CleanUntil(plan: Plan, n: nat)
    requires plan.Valid()
  {
    forall c :: 0 <= c < n ==> IndexError(plan, c) == None
  }

  /** The end of expanding a matrix with `n` raw assignments: the error of the least raw index that raises
      one, or the filtered cases when none does. */
  ghost predicate Explained(plan: Plan, n: nat, e: Expansion)
    requires plan.Valid()
  {
    match e
    case Expanded(cases) => n <= MAX_RAW_CARDINALITY && CleanUntil(plan, n) && cases == Retained(plan, n) && |cases| <= MAX_RETAINED_CASES
    case RawCardinalityError => n > MAX_RAW_CARDINALITY
    case _ => n <= MAX_RAW_CARDINALITY && exists c :: 0 <= c < n && IndexError(plan, c) == Some(e) && CleanUntil(plan, c)
  }

  /** There is only one such end. */
  lemma ExplainedOnce(plan: Plan, n: nat, a: Expansion, b: Expansion)
    requires plan.Valid() && Explained(plan, n, a) && Explained(plan, n, b)
    ensures a == b
  {
    hide IndexError, Retained;
    if n <= MAX_RAW_CARDINALITY && !a.Expanded? && !b.Expanded? {
      var c :| 0 <= c < n && IndexError(plan, c) == Some(a) && CleanUntil(plan, c);
      var d :| 0 <= d < n && IndexError(plan, d) == Some(b) && CleanUntil(plan, d);
      assert c == d;
    }
  }

  lemma {:induction false} RetainedGrows(plan: Plan, a: nat, b: nat)
    requires plan.Valid() && a <= b
    ensures |Retained(plan, a)| <= |Retained(plan, b)|
    decreases b - a
  {
    hide AssignmentAt, Judge;
    if a < b { RetainedGrows(plan, a, b - 1); }
  }

  /** `seen` holds the identities of the first `c` raw indexes. */
  ghost predicate Seen(plan: Plan, seen: set<map<string, string>>, c: nat)
    requires plan.Valid()
  {
    && (forall k :: 0 <= k < c ==> IdentityAt(plan, k) in seen)
    && forall id :: id in seen ==> exists k :: 0 <= k < c && IdentityAt(plan, k) == id
  }

  /** `expand_matrix`. */
  method Expand(plan: Plan) returns (e: Expansion)
    requires plan.Valid()
    ensures Explained(plan, Product(plan.Sizes(), 0), e)
  {
    hide IdentityAt, AssignmentAt, Judge, Radix, Position, Product, Retained;
    var raw := RawCardinality(plan);
    if raw == None { return RawCardinalityError; }
    SizesPositive(plan);
    ghost var n := Product(plan.Sizes(), 0);
    var odometer := new Odometer(plan.Sizes());
    var cases: seq<Case>, seen, index, more := [], {}, 0, true;
    FirstIndex(plan);
    while more
      invariant odometer.Valid() && odometer.sizes == plan.Sizes() && fresh(odometer.digits)
      invariant more ==> odometer.Index() == index < n
      invariant !more ==> index == n
      invariant cases == Retained(plan, index) && |cases| <= MAX_RETAINED_CASES
      invariant Seen(plan, seen, index)
      invariant CleanUntil(plan, index)
      decreases n - index, more
    {
      var a := Current(plan, odometer, index);
      var identity := Identity(plan, a);
      IsIdentity(plan, index);
      assert identity in seen <==> SeenBefore(plan, index);
      if identity in seen { return DuplicateError; }
      seen := seen + {identity};
      var verdict := Judge(plan.filters, a);
      if verdict == Bad { return FilterError; }
      RetainedStep(plan, index);
      RetainedGrows(plan, index + 1, n);
      if verdict == Keep {
        if |cases| >= MAX_RETAINED_CASES { return RetainedCardinalityError; }
        cases := cases + [Case(index, a)];
      }
      index := index + 1;
      more := odometer.Advance();
      if more { PositionBelow(plan.Sizes(), odometer.digits[..], 0); }
    }
    e := Expanded(cases);
  }

  lemma FirstIndex(plan: Plan)
    requires plan.Valid()
    ensures Product(plan.Sizes(), 0) >= 1 && Retained(plan, 0) == []
  {
    SizesPositive(plan);
    ProductPositive(plan.Sizes(), 0);
  }

  lemma IsIdentity(plan: Plan, c: nat)
    requires plan.Valid()
    ensures IdentityAt(plan, c) == Identity(plan, AssignmentAt(plan, c))
  {
  }

  lemma RetainedStep(plan: Plan, c: nat)
    requires plan.Valid()
    ensures var a := AssignmentAt(plan, c);
            Retained(plan, c + 1) == Retained(plan, c) + if Judge(plan.filters, a) == Keep then [Case(c, a)] else []
  {
  }

  /** The combination the odometer shows is the assignment of its raw index. */
  method Current(plan: Plan, odometer: Odometer, ghost index: nat) returns (a: Assignment)
    requires plan.Valid() && odometer.Valid() && odometer.sizes == plan.Sizes() && odometer.Index() == index
    ensures a == AssignmentAt(plan, index)
  {
    RadixRestores(plan.Sizes(), odometer.digits[..]);
    a := AssignmentOf(plan, odometer.digits[..]);
  }

  lemma CleanMeans(plan: Plan, n: nat)
    requires plan.Valid() && CleanUntil(plan, n)
    ensures !HasDuplicate(plan, n) && forall c :: 0 <= c < n ==> Judge(plan.filters, AssignmentAt(plan, c)) != Bad
  {
    hide IdentityAt, AssignmentAt, Judge, Retained;
    forall a, b | 0 <= a < b < n ensures IdentityAt(plan, a) != IdentityAt(plan, b) { assert IndexError(plan, b) == None; }
    forall c | 0 <= c < n ensures Judge(plan.filters, AssignmentAt(plan, c)) != Bad { assert IndexError(plan, c) == None; }
  }

  /** Absent filter and cap errors, expansion reports duplicates exactly when some dimension holds
      two canonically equal values; otherwise it retains exactly the filtered cases. */
  lemma ExpansionDecides(plan: Plan, e: Expansion)
    requires plan.Valid() && Explained(plan, Product(plan.Sizes(), 0), e)
    requires Product(plan.Sizes(), 0) <= MAX_RAW_CARDINALITY
    requires forall c :: 0 <= c < Product(plan.Sizes(), 0) ==> Judge(plan.filters, AssignmentAt(plan, c)) != Bad
    requires |Retained(plan, Product(plan.Sizes(), 0))| <= MAX_RETAINED_CASES
    ensures if Repeats(plan) then e == DuplicateError else e == Expanded(Retained(plan, Product(plan.Sizes(), 0)))
  {
    hide IdentityAt, AssignmentAt, Judge, Product, Repeats, Retained;
    var n := Product(plan.Sizes(), 0);
    DuplicatesExactly(plan);
    if e.Expanded? {
      CleanMeans(plan, n);
    } else {
      var c :| 0 <= c < n && IndexError(plan, c) == Some(e) && CleanUntil(plan, c);
      if SeenBefore(plan, c) {
        var b :| 0 <= b < c && IdentityAt(plan, b) == IdentityAt(plan, c);
      } else {
        RetainedStep(plan, c);
        RetainedGrows(plan, c + 1, n);
      }
    }
  }
}
