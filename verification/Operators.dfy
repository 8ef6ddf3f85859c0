/** What the operators of the expression language compute, stated as relations between values: the
    reading of a path, arithmetic, comparison, lengths and sums.  Each evaluator function finds
    exactly the related value, or exactly the related failure. */
module Operators {
  import opened Order
  import opened Values
  import opened Expressions

  // ---------------------------------------------------------------- reading a path

  /** `leaf` is reached from `v` through nested mappings, one segment at a time. */
  ghost predicate Reads(v: Value, path: seq<string>, leaf: Value) {
    exists chain: seq<Value> :: Steps(v, path, leaf, chain)
  }

  ghost predicate Steps(v: Value, path: seq<string>, leaf: Value, chain: seq<Value>) {
    && |chain| == |path| + 1 && chain[0] == v && chain[|path|] == leaf
    && forall i :: 0 <= i < |path| ==>
         chain[i].Dict? && path[i] in chain[i].fields && chain[i].fields[path[i]] == chain[i + 1]
  }

  lemma ReadsNothing(v: Value, leaf: Value)
    ensures Reads(v, [], leaf) <==> v == leaf
  {
    if v == leaf { assert Steps(v, [], leaf, [v]); }
  }

  lemma ReadsSegment(v: Value, path: seq<string>, leaf: Value)
    requires path != []
    ensures Reads(v, path, leaf) <==> v.Dict? && path[0] in v.fields && Reads(v.fields[path[0]], path[1..], leaf)
  {
    if Reads(v, path, leaf) {
      var chain :| Steps(v, path, leaf, chain);
      assert Steps(v.fields[path[0]], path[1..], leaf, chain[1..]);
    }
    if v.Dict? && path[0] in v.fields && Reads(v.fields[path[0]], path[1..], leaf) {
      var chain :| Steps(v.fields[path[0]], path[1..], leaf, chain);
      assert Steps(v, path, leaf, [v] + chain);
    }
  }

  lemma {:induction false} DescendExactly(v: Value, path: seq<string>, leaf: Value)
    ensures Descend(v, path) == Some(leaf) <==> Reads(v, path, leaf)
    decreases |path|
  {
    hide Reads;
    if path == [] {
      ReadsNothing(v, leaf);
    } else {
      ReadsSegment(v, path, leaf);
      if v.Dict? && path[0] in v.fields { DescendExactly(v.fields[path[0]], path[1..], leaf); }
    }
  }

  ghost predicate Readable(v: Value, path: seq<string>) {
    exists leaf :: Reads(v, path, leaf)
  }

  lemma ReadableExactly(v: Value, path: seq<string>)
    ensures Readable(v, path) <==> Descend(v, path).Some?
  {
    forall leaf ensures Descend(v, path) == Some(leaf) <==> Reads(v, path, leaf) { DescendExactly(v, path, leaf); }
    if Descend(v, path).Some? { assert Reads(v, path, Descend(v, path).value); }
  }

  // ---------------------------------------------------------------- operators on values

  /** Whole numbers are computed exactly; a decimal operand, or division, is left to decimal arithmetic. */
  predicate Computes(p: Primitives, op: ArithOp, a: Value, b: Value, v: Value) {
    && (a.Int? || a.Dec?) && (b.Int? || b.Dec?)
    && if a.Int? && b.Int? && op != Divide then
         v.Int? && match op
                   case Add => v.number == a.number + b.number
                   case Subtract => v.number + b.number == a.number
                   case _ => v.number == a.number * b.number
       else !(op == Divide && Vanishes(p, b)) && p.decimal(op, a, b) == Ok(v)
  }

  predicate Vanishes(p: Primitives, v: Value) {
    v == Int(0) || (v.Dec? && p.decimalIsZero(v.text))
  }

  predicate CannotCompute(p: Primitives, op: ArithOp, a: Value, b: Value, x: Error) {
    if !(a.Int? || a.Dec?) || !(b.Int? || b.Dec?) || (op == Divide && Vanishes(p, b)) then x == EvaluationFailed
    else (a.Dec? || b.Dec? || op == Divide) && p.decimal(op, a, b) == Err(x)
  }

  lemma ArithExactly(p: Primitives, op: ArithOp, a: Value, b: Value)
    ensures forall v :: ArithValue(p, op, a, b) == Ok(v) <==> Computes(p, op, a, b, v)
    ensures forall x :: ArithValue(p, op, a, b) == Err(x) <==> CannotCompute(p, op, a, b, x)
  {
  }

  /** Whole numbers by size, texts by code point, times by instant; a decimal operand is left to
      decimal comparison.  `$lte` and `$gte` are the negations of `$gt` and `$lt`. */
  predicate Ranks(p: Primitives, cmp: CompareOp, a: Value, b: Value, v: Value) {
    && v.Bool?
    && if a.Int? && b.Int? then
         v.flag == match cmp
                   case LessThan => a.number < b.number
                   case LessOrEqual => a.number <= b.number
                   case GreaterThan => a.number > b.number
                   case GreaterOrEqual => a.number >= b.number
       else if a.Time? && b.Time? then
         v.flag == match cmp
                   case LessThan => a.instant < b.instant
                   case LessOrEqual => a.instant <= b.instant
                   case GreaterThan => a.instant > b.instant
                   case GreaterOrEqual => a.instant >= b.instant
       else if a.Str? && b.Str? then
         v.flag == match cmp
                   case LessThan => Less(a.chars, b.chars)
                   case LessOrEqual => !Less(b.chars, a.chars)
                   case GreaterThan => Less(b.chars, a.chars)
                   case GreaterOrEqual => !Less(a.chars, b.chars)
       else (a.Int? || a.Dec?) && (b.Int? || b.Dec?) && p.decimalCompare(cmp, a, b) == Ok(v.flag)
  }

  predicate CannotRank(p: Primitives, cmp: CompareOp, a: Value, b: Value, x: Error) {
    if (a.Int? || a.Dec?) && (b.Int? || b.Dec?) then (a.Dec? || b.Dec?) && p.decimalCompare(cmp, a, b) == Err(x)
    else !(a.Str? && b.Str?) && !(a.Time? && b.Time?) && x == EvaluationFailed
  }

  lemma CompareExactly(p: Primitives, cmp: CompareOp, a: Value, b: Value)
    ensures forall v :: CompareValue(p, cmp, a, b) == Ok(v) <==> Ranks(p, cmp, a, b, v)
    ensures forall x :: CompareValue(p, cmp, a, b) == Err(x) <==> CannotRank(p, cmp, a, b, x)
  {
    forall v ensures CompareValue(p, cmp, a, b) == Ok(v) <==> Ranks(p, cmp, a, b, v) { RankFound(p, cmp, a, b, v); }
    forall x ensures CompareValue(p, cmp, a, b) == Err(x) <==> CannotRank(p, cmp, a, b, x) { RankFails(p, cmp, a, b, x); }
  }

  lemma RankFound(p: Primitives, cmp: CompareOp, a: Value, b: Value, v: Value)
    ensures CompareValue(p, cmp, a, b) == Ok(v) <==> Ranks(p, cmp, a, b, v)
  {
    hide Less;
    if a.Str? && b.Str? {
      OneOrder(a.chars, b.chars);
    }
  }

  lemma RankFails(p: Primitives, cmp: CompareOp, a: Value, b: Value, x: Error)
    ensures CompareValue(p, cmp, a, b) == Err(x) <==> CannotRank(p, cmp, a, b, x)
  {
    hide Less, CompareHolds;
  }

  lemma OneOrder(a: string, b: string)
    ensures !(Less(a, b) && Less(b, a))
    ensures !Less(a, b) && !Less(b, a) <==> a == b
  {
    hide Less;
    LessTotal(a, b);
    if Less(a, b) { LessAsymmetric(a, b); }
    if Less(b, a) { LessAsymmetric(b, a); }
  }

  /** Exactly one of `$lt`, sameness and `$gt` holds of two whole numbers, texts or times. */
  lemma ComparisonsTrichotomous(p: Primitives, a: Value, b: Value)
    requires (a.Int? && b.Int?) || (a.Str? && b.Str?) || (a.Time? && b.Time?)
    ensures forall cmp :: CompareValue(p, cmp, a, b).Ok? && CompareValue(p, cmp, a, b).value.Bool?
    ensures var lt, gt := CompareValue(p, LessThan, a, b).value.flag, CompareValue(p, GreaterThan, a, b).value.flag;
            && !(lt && gt) && ((!lt && !gt) <==> a == b)
            && CompareValue(p, LessOrEqual, a, b).value.flag == !gt
            && CompareValue(p, GreaterOrEqual, a, b).value.flag == !lt
            && CompareValue(p, GreaterThan, b, a).value.flag == lt
  {
    if a.Str? && b.Str? {
      hide Less;
      OneOrder(a.chars, b.chars);
    }
  }

  predicate Measures(v: Value, length: Value) {
    length.Int? && match v
                   case Str(s) => length.number == |s|
                   case List(items) => length.number == |items|
                   case Dict(fields) => length.number == |fields.Keys|
                   case _ => false
  }

  predicate CannotMeasure(v: Value, x: Error) {
    !v.Str? && !v.List? && !v.Dict? && x == EvaluationFailed
  }

  lemma LengthExactly(a: Value)
    ensures forall v :: LengthValue(a) == Ok(v) <==> Measures(a, v)
    ensures forall x :: LengthValue(a) == Err(x) <==> CannotMeasure(a, x)
  {
    if a.Dict? { assert |a.fields| == |a.fields.Keys|; }
  }

  // ---------------------------------------------------------------- sums

  /** `totals[i]` is what has been added up before item i. */
  predicate Totals(p: Primitives, items: seq<Value>, field: string, totals: seq<Value>) {
    && |totals| == |items| + 1
    && forall i :: 0 <= i < |items| ==>
         items[i].Dict? && field in items[i].fields
         && Computes(p, Add, totals[i], items[i].fields[field], totals[i + 1])
  }

  ghost predicate AddsUp(p: Primitives, items: seq<Value>, field: string, from: Value, total: Value) {
    exists totals :: Totals(p, items, field, totals) && totals[0] == from && totals[|items|] == total
  }

  predicate CannotAdd(p: Primitives, item: Value, field: string, from: Value, x: Error) {
    if !item.Dict? then x == NativeTypeError
    else if field !in item.fields then x == NativeKeyError
    else CannotCompute(p, Add, from, item.fields[field], x)
  }

  /** The items before item i add up, and item i cannot be added to their total. */
  ghost predicate BreaksAt(p: Primitives, items: seq<Value>, field: string, from: Value, x: Error, i: nat, before: Value) {
    i < |items| && AddsUp(p, items[..i], field, from, before) && CannotAdd(p, items[i], field, before, x)
  }

  ghost predicate CannotAddUp(p: Primitives, items: seq<Value>, field: string, from: Value, x: Error) {
    exists i: nat, before :: BreaksAt(p, items, field, from, x, i, before)
  }

  /** The first item is added to `from`, giving `next`. */
  predicate Starts(p: Primitives, items: seq<Value>, field: string, from: Value, next: Value) {
    items != [] && items[0].Dict? && field in items[0].fields && Computes(p, Add, from, items[0].fields[field], next)
  }

  lemma AddsUpNothing(p: Primitives, field: string, from: Value, total: Value)
    ensures AddsUp(p, [], field, from, total) <==> total == from
  {
    if total == from { assert Totals(p, [], field, [from]); }
  }

  lemma AddsUpLater(p: Primitives, items: seq<Value>, field: string, from: Value, total: Value) returns (next: Value)
    requires items != [] && AddsUp(p, items, field, from, total)
    ensures Starts(p, items, field, from, next) && AddsUp(p, items[1..], field, next, total)
  {
    hide Computes;
    var totals :| Totals(p, items, field, totals) && totals[0] == from && totals[|items|] == total;
    assert Totals(p, items[1..], field, totals[1..]);
    next := totals[1];
  }

  lemma AddsUpEarlier(p: Primitives, items: seq<Value>, field: string, from: Value, next: Value, total: Value)
    requires Starts(p, items, field, from, next) && AddsUp(p, items[1..], field, next, total)
    ensures AddsUp(p, items, field, from, total)
  {
    hide Computes;
    var rest :| Totals(p, items[1..], field, rest) && rest[0] == next && rest[|items| - 1] == total;
    assert Totals(p, items, field, [from] + rest) by {
      assert forall i :: 0 < i < |items| ==> items[i] == items[1..][i - 1];
    }
  }

  lemma BreaksHere(p: Primitives, items: seq<Value>, field: string, from: Value, x: Error)
    requires items != [] && CannotAdd(p, items[0], field, from, x)
    ensures CannotAddUp(p, items, field, from, x)
  {
    hide CannotAdd;
    AddsUpNothing(p, field, from, from);
    assert items[..0] == [];
    assert BreaksAt(p, items, field, from, x, 0, from);
  }

  lemma BreaksLater(p: Primitives, items: seq<Value>, field: string, from: Value, next: Value, x: Error)
    requires Starts(p, items, field, from, next) && CannotAddUp(p, items[1..], field, next, x)
    ensures CannotAddUp(p, items, field, from, x)
  {
    hide CannotAdd, AddsUp, Computes;
    var i: nat, before :| BreaksAt(p, items[1..], field, next, x, i, before);
    assert items[..i + 1][1..] == items[1..][..i];
    AddsUpEarlier(p, items[..i + 1], field, from, next, before);
    assert BreaksAt(p, items, field, from, x, i + 1, before);
  }

  /** A sum that breaks does so at the first item, or after it. */
  lemma BreaksSomewhere(p: Primitives, items: seq<Value>, field: string, from: Value, x: Error) returns (next: Value)
    requires CannotAddUp(p, items, field, from, x)
    ensures items != []
    ensures CannotAdd(p, items[0], field, from, x)
            || (Starts(p, items, field, from, next) && CannotAddUp(p, items[1..], field, next, x))
  {
    hide CannotAdd, AddsUp, Computes;
    var i: nat, before :| BreaksAt(p, items, field, from, x, i, before);
    next := from;
    if i == 0 {
      assert items[..0] == [];
      AddsUpNothing(p, field, from, before);
    } else {
      next := AddsUpLater(p, items[..i], field, from, before);
      assert items[..i][1..] == items[1..][..i - 1];
      assert BreaksAt(p, items[1..], field, next, x, i - 1, before);
    }
  }

  lemma {:induction false} SumItemsExactly(p: Primitives, items: seq<Value>, field: string, from: Value)
    ensures forall v :: SumItems(p, items, field, from) == Ok(v) <==> AddsUp(p, items, field, from, v)
    ensures forall x :: SumItems(p, items, field, from) == Err(x) <==> CannotAddUp(p, items, field, from, x)
    decreases |items|
  {
    hide AddsUp, CannotAddUp, ArithValue, Computes, CannotCompute;
    SumFound(p, items, field, from);
    forall v | AddsUp(p, items, field, from, v) ensures SumItems(p, items, field, from) == Ok(v) { SumUnique(p, items, field, from, v); }
    forall x | CannotAddUp(p, items, field, from, x) ensures SumItems(p, items, field, from) == Err(x) { SumFails(p, items, field, from, x); }
  }

  lemma {:induction false} SumFound(p: Primitives, items: seq<Value>, field: string, from: Value)
    ensures var r := SumItems(p, items, field, from);
            if r.Ok? then AddsUp(p, items, field, from, r.value) else CannotAddUp(p, items, field, from, r.error)
    decreases |items|
  {
    hide AddsUp, CannotAddUp, ArithValue, Computes, CannotCompute;
    if items == [] {
      AddsUpNothing(p, field, from, from);
    } else if items[0].Dict? && field in items[0].fields {
      ArithExactly(p, Add, from, items[0].fields[field]);
      var next := ArithValue(p, Add, from, items[0].fields[field]);
      if next.Ok? {
        SumFound(p, items[1..], field, next.value);
        var r := SumItems(p, items[1..], field, next.value);
        if r.Ok? { AddsUpEarlier(p, items, field, from, next.value, r.value); } else { BreaksLater(p, items, field, from, next.value, r.error); }
      } else {
        BreaksHere(p, items, field, from, next.error);
      }
    } else {
      BreaksHere(p, items, field, from, if items[0].Dict? then NativeKeyError else NativeTypeError);
    }
  }

  lemma {:induction false} SumUnique(p: Primitives, items: seq<Value>, field: string, from: Value, v: Value)
    requires AddsUp(p, items, field, from, v)
    ensures SumItems(p, items, field, from) == Ok(v)
    decreases |items|
  {
    hide AddsUp, ArithValue, Computes;
    if items == [] {
      AddsUpNothing(p, field, from, v);
    } else {
      var next := AddsUpLater(p, items, field, from, v);
      ArithExactly(p, Add, from, items[0].fields[field]);
      SumUnique(p, items[1..], field, next, v);
    }
  }

  lemma {:induction false} SumFails(p: Primitives, items: seq<Value>, field: string, from: Value, x: Error)
    requires CannotAddUp(p, items, field, from, x)
    ensures SumItems(p, items, field, from) == Err(x)
    decreases |items|
  {
    hide *;
    var next := BreaksSomewhere(p, items, field, from, x);
    if CannotAdd(p, items[0], field, from, x) {
      CannotStart(p, items, field, from, x);
    } else {
      SumFails(p, items[1..], field, next, x);
      SumStarts(p, items, field, from, next);
    }
  }

  lemma CannotStart(p: Primitives, items: seq<Value>, field: string, from: Value, x: Error)
    requires items != [] && CannotAdd(p, items[0], field, from, x)
    ensures SumItems(p, items, field, from) == Err(x)
  {
    hide ArithValue, CannotCompute, Computes;
    if items[0].Dict? && field in items[0].fields { ArithExactly(p, Add, from, items[0].fields[field]); }
  }

  lemma SumStarts(p: Primitives, items: seq<Value>, field: string, from: Value, next: Value)
    requires Starts(p, items, field, from, next)
    ensures SumItems(p, items, field, from) == SumItems(p, items[1..], field, next)
  {
    hide ArithValue, CannotCompute, Computes;
    ArithExactly(p, Add, from, items[0].fields[field]);
  }

  /** A value's `$sum_field`: the total of a list's items, or zero of an empty mapping or text. */
  ghost predicate Sums(p: Primitives, v: Value, field: string, total: Value) {
    match v
    case List(items) => AddsUp(p, items, field, Int(0), total)
    case Dict(fields) => fields == map[] && total == Int(0)
    case Str(s) => s == "" && total == Int(0)
    case _ => false
  }

  ghost predicate CannotSum(p: Primitives, v: Value, field: string, x: Error) {
    match v
    case List(items) => CannotAddUp(p, items, field, Int(0), x)
    case Dict(fields) => fields != map[] && x == NativeTypeError
    case Str(s) => s != "" && x == NativeTypeError
    case _ => x == NativeTypeError
  }

  lemma SumExactly(p: Primitives, v: Value, field: string)
    ensures forall total :: SumValue(p, v, field) == Ok(total) <==> Sums(p, v, field, total)
    ensures forall x :: SumValue(p, v, field) == Err(x) <==> CannotSum(p, v, field, x)
  {
    hide AddsUp, CannotAddUp, SumItems;
    if v.List? { SumItemsExactly(p, v.items, field, Int(0)); }
  }

  /** The sum of one whole-number field over a list. */
  function FieldSum(items: seq<Value>, field: string): int
    requires forall i :: 0 <= i < |items| ==> items[i].Dict? && field in items[i].fields && items[i].fields[field].Int?
  {
    if items == [] then 0 else items[|items| - 1].fields[field].number + FieldSum(items[..|items| - 1], field)
  }

  lemma {:induction false} TotalsAreSums(p: Primitives, items: seq<Value>, field: string, totals: seq<Value>, k: nat)
    requires forall i :: 0 <= i < |items| ==> items[i].Dict? && field in items[i].fields && items[i].fields[field].Int?
    requires Totals(p, items, field, totals) && totals[0] == Int(0) && k <= |items|
    ensures totals[k] == Int(FieldSum(items[..k], field))
  {
    if k > 0 {
      TotalsAreSums(p, items, field, totals, k - 1);
      assert items[..k][..k - 1] == items[..k - 1];
      assert Computes(p, Add, totals[k - 1], items[k - 1].fields[field], totals[k]);
    }
  }

  /** On whole numbers `$sum_field` is the sum of the items' fields. */
  lemma WholeSums(p: Primitives, items: seq<Value>, field: string)
    requires forall i :: 0 <= i < |items| ==> items[i].Dict? && field in items[i].fields && items[i].fields[field].Int?
    ensures SumValue(p, List(items), field) == Ok(Int(FieldSum(items, field)))
  {
    hide CannotAddUp, SumItems, Computes;
    SumItemsExactly(p, items, field, Int(0));
    var r := SumItems(p, items, field, Int(0));
    if r.Ok? {
      var totals :| Totals(p, items, field, totals) && totals[0] == Int(0) && totals[|items|] == r.value;
      TotalsAreSums(p, items, field, totals, |items|);
      assert items[..|items|] == items;
    } else {
      WholeAdd(p, items, field, r.error);
      assert false;
    }
  }

  lemma WholeAdd(p: Primitives, items: seq<Value>, field: string, x: Error)
    requires forall i :: 0 <= i < |items| ==> items[i].Dict? && field in items[i].fields && items[i].fields[field].Int?
    ensures !CannotAddUp(p, items, field, Int(0), x)
  {
    if CannotAddUp(p, items, field, Int(0), x) {
      hide Computes;
      var i: nat, before :| BreaksAt(p, items, field, Int(0), x, i, before);
      var totals :| Totals(p, items[..i], field, totals) && totals[0] == Int(0) && totals[i] == before;
      TotalsAreSums(p, items[..i], field, totals, i);
      assert false;
    }
  }
}
