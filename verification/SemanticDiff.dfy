/** The structural diff of normalized evidence: what it reports, that it is complete and sound,
    that patching with it restores the right side, and how truncation and first-only mode cut it. */
module SemanticDiff {
  import opened Order
  import opened Values
  import opened Encoding

  datatype Kind = KNull | KBool | KInt | KString | KSequence | KMapping | KTagged(tag: string)

  const TAGS := {"decimal", "logical-id", "datetime", "duration-microseconds", "missing"}

  predicate Tagged(t: Tree) {
    && t.Fields? && "$type" in t.fields && t.fields["$type"].Text?
    && t.fields["$type"].text in TAGS && t.fields.Keys <= {"$type", "value"}
  }

  function KindOf(t: Tree): Kind {
    match t
    case Nil => KNull
    case Flag(_) => KBool
    case Num(_) => KInt
    case Text(_) => KString
    case Items(_) => KSequence
    case Fields(fields) => if Tagged(t) then KTagged(fields["$type"].text) else KMapping
  }

  /** Python's `==` on evidence: True equals 1 and False equals 0, everywhere inside. */
  predicate PyEqual(a: Tree, b: Tree) {
    match (a, b)
    case (Flag(f), Num(n)) => n == (if f then 1 else 0)
    case (Num(n), Flag(f)) => n == (if f then 1 else 0)
    case (Items(x), Items(y)) => |x| == |y| && forall i :: 0 <= i < |x| ==> PyEqual(x[i], y[i])
    case (Fields(x), Fields(y)) => x.Keys == y.Keys && forall k :: k in x ==> PyEqual(x[k], y[k])
    case _ => a == b
  }

  /** The two typed trees are equal: same semantic types throughout, equal leaves. */
  predicate Same(a: Tree, b: Tree) {
    && KindOf(a) == KindOf(b)
    && match KindOf(a)
       case KMapping => a.fields.Keys == b.fields.Keys && forall k :: k in a.fields ==> Same(a.fields[k], b.fields[k])
       case KSequence => |a.items| == |b.items| && forall i :: 0 <= i < |a.items| ==> Same(a.items[i], b.items[i])
       case _ => PyEqual(a, b)
  }

  datatype Operation = ADD | REMOVE | REPLACE | RETYPE

  /** One difference; absent sides are None, and the path is its token list. */
  datatype Change = Change(path: seq<string>, op: Operation, left: Option<Tree>, right: Option<Tree>)

  function Under(token: string, c: Change): Change {
    c.(path := [token] + c.path)
  }

  function AllUnder(token: string, cs: seq<Change>): (r: seq<Change>)
    ensures |r| == |cs| && forall i :: 0 <= i < |cs| ==> r[i] == Under(token, cs[i])
  {
    seq(|cs|, i requires 0 <= i < |cs| => Under(token, cs[i]))
  }

  // ---------------------------------------------------------------- the full diff

  function Field(t: Tree, k: string): Option<Tree>
    requires t.Fields?
  {
    if k in t.fields then Some(t.fields[k]) else None
  }

  function Item(t: Tree, i: nat): Option<Tree>
    requires t.Items?
  {
    if i < |t.items| then Some(t.items[i]) else None
  }

  function Longer(a: nat, b: nat): nat { if a < b then b else a }

  /** All differences, relative to the compared nodes, in traversal order. */
  function Diffs(l: Tree, r: Tree): seq<Change>
    decreases l, 1, 0
  {
    if KindOf(l) != KindOf(r) then [Change([], RETYPE, Some(l), Some(r))]
    else
      match KindOf(l)
      case KMapping => FieldDiffs(l, r, Sorted(l.fields.Keys + r.fields.Keys))
      case KSequence => ItemDiffs(l, r, 0)
      case _ => if PyEqual(l, r) then [] else [Change([], REPLACE, Some(l), Some(r))]
  }

  function FieldDiff(l: Tree, r: Tree, k: string): seq<Change>
    requires l.Fields? && r.Fields?
    decreases l, 0, 0
  {
    match (Field(l, k), Field(r, k))
    case (None, None) => []
    case (None, Some(y)) => [Change([], ADD, None, Some(y))]
    case (Some(x), None) => [Change([], REMOVE, Some(x), None)]
    case (Some(x), Some(y)) => Diffs(l.fields[k], r.fields[k])
  }

  function FieldDiffs(l: Tree, r: Tree, keys: seq<string>): seq<Change>
    requires l.Fields? && r.Fields?
    decreases l, 0, 1 + |keys|
  {
    if keys == [] then [] else AllUnder(keys[0], FieldDiff(l, r, keys[0])) + FieldDiffs(l, r, keys[1..])
  }

  function ItemDiff(l: Tree, r: Tree, i: nat): seq<Change>
    requires l.Items? && r.Items?
    decreases l, 0, 0
  {
    match (Item(l, i), Item(r, i))
    case (None, None) => []
    case (None, Some(y)) => [Change([], ADD, None, Some(y))]
    case (Some(x), None) => [Change([], REMOVE, Some(x), None)]
    case (Some(x), Some(y)) => Diffs(l.items[i], r.items[i])
  }

  function ItemDiffs(l: Tree, r: Tree, i: nat): seq<Change>
    requires l.Items? && r.Items?
    decreases l, 0, 1 + (Longer(|l.items|, |r.items|) - i)
  {
    if i >= Longer(|l.items|, |r.items|) then []
    else AllUnder(Digits(i), ItemDiff(l, r, i)) + ItemDiffs(l, r, i + 1)
  }

  // ---------------------------------------------------------------- nothing is reported iff the trees are equal

  lemma {:induction false} SilentExactlyWhenSame(l: Tree, r: Tree)
    ensures Diffs(l, r) == [] <==> Same(l, r)
    decreases l, 1
  {
    if KindOf(l) == KindOf(r) {
      match KindOf(l)
      case KMapping => SilentMapping(l, r);
      case KSequence => SilentSequence(l, r);
      case _ =>
    }
  }

  lemma {:induction false} SilentMapping(l: Tree, r: Tree)
    requires KindOf(l) == KindOf(r) == KMapping
    ensures Diffs(l, r) == [] <==> Same(l, r)
    decreases l, 0
  {
    hide Diffs, FieldDiffs, PyEqual;
    var keys := Sorted(l.fields.Keys + r.fields.Keys);
    assert Diffs(l, r) == FieldDiffs(l, r, keys) by { MappingDiffs(l, r); }
    SilentFields(l, r, keys);
    forall k | k in l.fields && k in r.fields ensures Diffs(l.fields[k], r.fields[k]) == [] <==> Same(l.fields[k], r.fields[k]) {
      SilentExactlyWhenSame(l.fields[k], r.fields[k]);
    }
    SilentFieldsMean(l, r, keys);
  }

  lemma SilentFieldsMean(l: Tree, r: Tree, keys: seq<string>)
    requires KindOf(l) == KindOf(r) == KMapping && forall k :: k in keys <==> k in l.fields || k in r.fields
    requires forall k :: k in l.fields && k in r.fields ==> (Diffs(l.fields[k], r.fields[k]) == [] <==> Same(l.fields[k], r.fields[k]))
    ensures (forall k :: k in keys ==> FieldDiff(l, r, k) == []) <==> Same(l, r)
  {
    hide Diffs, PyEqual;
    if forall k :: k in keys ==> FieldDiff(l, r, k) == [] {
      forall k ensures k in l.fields <==> k in r.fields { assert k in keys <==> k in l.fields || k in r.fields; }
      forall k | k in l.fields ensures Same(l.fields[k], r.fields[k]) { assert k in keys; }
    }
  }

  lemma MappingDiffs(l: Tree, r: Tree)
    requires KindOf(l) == KindOf(r) == KMapping
    ensures Diffs(l, r) == FieldDiffs(l, r, Sorted(l.fields.Keys + r.fields.Keys))
  {
  }

  lemma SequenceDiffs(l: Tree, r: Tree)
    requires KindOf(l) == KindOf(r) == KSequence
    ensures Diffs(l, r) == ItemDiffs(l, r, 0)
  {
  }

  lemma {:induction false} SilentSequence(l: Tree, r: Tree)
    requires KindOf(l) == KindOf(r) == KSequence
    ensures Diffs(l, r) == [] <==> Same(l, r)
    decreases l, 0
  {
    hide Diffs, ItemDiffs;
    SequenceDiffs(l, r);
    SilentItems(l, r, 0);
    forall i | 0 <= i < |l.items| && i < |r.items| ensures ItemDiff(l, r, i) == [] <==> Same(l.items[i], r.items[i]) {
      SilentExactlyWhenSame(l.items[i], r.items[i]);
    }
    SilentItemsMean(l, r);
  }

  lemma SameItems(l: Tree, r: Tree)
    requires KindOf(l) == KindOf(r) == KSequence
    ensures Same(l, r) <==> |l.items| == |r.items| && forall i :: 0 <= i < |l.items| ==> Same(l.items[i], r.items[i])
  {
  }

  lemma SilentItemsMean(l: Tree, r: Tree)
    requires KindOf(l) == KindOf(r) == KSequence
    requires l.Items? && r.Items?
    requires forall i :: 0 <= i < |l.items| && i < |r.items| ==> (ItemDiff(l, r, i) == [] <==> Same(l.items[i], r.items[i]))
    ensures (forall i :: 0 <= i < Longer(|l.items|, |r.items|) ==> ItemDiff(l, r, i) == []) <==> Same(l, r)
  {
    SameItems(l, r);
    hide Diffs, Same, PyEqual, KindOf, ItemDiff;
    if |l.items| == |r.items| {
      if Same(l, r) {
        forall i | 0 <= i < |l.items| ensures ItemDiff(l, r, i) == [] { assert Same(l.items[i], r.items[i]); }
      } else {
        var i :| 0 <= i < |l.items| && !Same(l.items[i], r.items[i]);
        assert ItemDiff(l, r, i) != [];
      }
    } else {
      var i := if |l.items| < |r.items| then |l.items| else |r.items|;
      LoneItem(l, r, i);
      assert i < Longer(|l.items|, |r.items|) && ItemDiff(l, r, i) != [];
    }
  }

  /** Past the end of the shorter list there is always a difference. */
  lemma LoneItem(l: Tree, r: Tree, i: nat)
    requires l.Items? && r.Items? && ((|l.items| <= i < |r.items|) || (|r.items| <= i < |l.items|))
    ensures ItemDiff(l, r, i) != []
  {
  }

  lemma {:induction false} SilentFields(l: Tree, r: Tree, keys: seq<string>)
    requires l.Fields? && r.Fields?
    ensures FieldDiffs(l, r, keys) == [] <==> forall k :: k in keys ==> FieldDiff(l, r, k) == []
    decreases |keys|
  {
    hide FieldDiff;
    if keys != [] {
      SilentFields(l, r, keys[1..]);
      assert |FieldDiffs(l, r, keys)| == |FieldDiff(l, r, keys[0])| + |FieldDiffs(l, r, keys[1..])|;
      assert forall k :: k in keys <==> k == keys[0] || k in keys[1..];
    }
  }

  lemma {:induction false} SilentItems(l: Tree, r: Tree, i: nat)
    requires l.Items? && r.Items?
    ensures ItemDiffs(l, r, i) == [] <==> forall j :: i <= j < Longer(|l.items|, |r.items|) ==> ItemDiff(l, r, j) == []
    decreases Longer(|l.items|, |r.items|) - i
  {
    hide ItemDiff;
    if i < Longer(|l.items|, |r.items|) {
      SilentItems(l, r, i + 1);
      assert |ItemDiffs(l, r, i)| == |ItemDiff(l, r, i)| + |ItemDiffs(l, r, i + 1)|;
    }
  }

  /** No boolean occurs in the tree. */
  predicate NoFlags(t: Tree) {
    match t
    case Flag(_) => false
    case Items(items) => forall i :: 0 <= i < |items| ==> NoFlags(items[i])
    case Fields(fields) => forall k :: k in fields ==> NoFlags(fields[k])
    case _ => true
  }

  /** No boolean occurs inside a tagged value: what `normalize` itself writes there, but not what a mapping
      of the state that uses the key `$type` can hold. */
  predicate Clean(t: Tree) {
    match t
    case Items(items) => forall i :: 0 <= i < |items| ==> Clean(items[i])
    case Fields(fields) => if Tagged(t) then NoFlags(t) else forall k :: k in fields ==> Clean(fields[k])
    case _ => true
  }

  lemma {:induction false} PyEqualIsEquality(a: Tree, b: Tree)
    requires NoFlags(a) && NoFlags(b) && PyEqual(a, b)
    ensures a == b
    decreases a
  {
    match (a, b)
    case (Items(x), Items(y)) => forall i | 0 <= i < |x| ensures x[i] == y[i] { PyEqualIsEquality(x[i], y[i]); }
    case (Fields(x), Fields(y)) => forall k | k in x ensures x[k] == y[k] { PyEqualIsEquality(x[k], y[k]); }
    case _ =>
  }

  lemma {:induction false} PyEqualReflexive(a: Tree)
    ensures PyEqual(a, a)
    decreases a
  {
    match a
    case Items(x) => forall i | 0 <= i < |x| ensures PyEqual(x[i], x[i]) { PyEqualReflexive(x[i]); }
    case Fields(x) => forall k | k in x ensures PyEqual(x[k], x[k]) { PyEqualReflexive(x[k]); }
    case _ =>
  }

  /** On evidence without booleans inside tagged values, silence means equality. */
  lemma {:induction false} SameIsEquality(a: Tree, b: Tree)
    requires Clean(a) && Clean(b)
    ensures Same(a, b) <==> a == b
    decreases a
  {
    if Same(a, b) {
      match KindOf(a) {
        case KMapping => forall k | k in a.fields ensures a.fields[k] == b.fields[k] { SameIsEquality(a.fields[k], b.fields[k]); }
        case KSequence => forall i | 0 <= i < |a.items| ensures a.items[i] == b.items[i] { SameIsEquality(a.items[i], b.items[i]); }
        case KTagged(_) => PyEqualIsEquality(a, b);
        case _ =>
      }
    }
    if a == b { SameReflexive(a); }
  }

  lemma {:induction false} SameReflexive(a: Tree)
    ensures Same(a, a)
    decreases a
  {
    match KindOf(a)
    case KMapping => forall k | k in a.fields ensures Same(a.fields[k], a.fields[k]) { SameReflexive(a.fields[k]); }
    case KSequence => forall i | 0 <= i < |a.items| ensures Same(a.items[i], a.items[i]) { SameReflexive(a.items[i]); }
    case _ => PyEqualReflexive(a);
  }

  /** Without that condition the claim is false: a tagged True and a tagged 1 are reported equal. */
  lemma SilentOnUnequal()
    ensures var a := Fields(map["$type" := Text("duration-microseconds"), "value" := Flag(true)]);
            var b := Fields(map["$type" := Text("duration-microseconds"), "value" := Num(1)]);
            a != b && Diffs(a, b) == []
  {
    var a := Fields(map["$type" := Text("duration-microseconds"), "value" := Flag(true)]);
    var b := Fields(map["$type" := Text("duration-microseconds"), "value" := Num(1)]);
    assert a.fields.Keys == {"$type", "value"} && b.fields.Keys == {"$type", "value"};
    assert KindOf(a) == KTagged("duration-microseconds") && KindOf(b) == KTagged("duration-microseconds");
    forall k | k in a.fields ensures PyEqual(a.fields[k], b.fields[k]) {}
    assert a.fields["value"] != b.fields["value"];
  }

  // ---------------------------------------------------------------- which trees a silent diff determines

  /** Every boolean for its integer, and the integers 0 and 1 for their booleans. */
  function Swap(t: Tree): Tree {
    match t
    case Flag(f) => Num(if f then 1 else 0)
    case Num(n) => if n == 0 || n == 1 then Flag(n == 1) else t
    case Items(items) => Items(seq(|items|, i requires 0 <= i < |items| => Swap(items[i])))
    case Fields(fields) => Fields(map k | k in fields :: Swap(fields[k]))
    case _ => t
  }

  /** The same, inside tagged values only. */
  function Twin(t: Tree): Tree {
    match t
    case Items(items) => Items(seq(|items|, i requires 0 <= i < |items| => Twin(items[i])))
    case Fields(fields) => if Tagged(t) then Swap(t) else Fields(map k | k in fields :: Twin(fields[k]))
    case _ => t
  }

  /** Neither a boolean nor the integers 0 and 1. */
  predicate Unswapped(t: Tree) {
    match t
    case Flag(_) => false
    case Num(n) => n != 0 && n != 1
    case Items(items) => forall i :: 0 <= i < |items| ==> Unswapped(items[i])
    case Fields(fields) => forall k :: k in fields ==> Unswapped(fields[k])
    case _ => true
  }

  /** None of these inside a tagged value. */
  predicate Settled(t: Tree) {
    match t
    case Items(items) => forall i :: 0 <= i < |items| ==> Settled(items[i])
    case Fields(fields) => if Tagged(t) then Unswapped(t) else forall k :: k in fields ==> Settled(fields[k])
    case _ => true
  }

  lemma {:induction false} SwapFacts(t: Tree)
    ensures PyEqual(t, Swap(t)) && (Swap(t) == t <==> Unswapped(t))
    decreases t
  {
    match t
    case Items(items) =>
      forall i | 0 <= i < |items| ensures PyEqual(items[i], Swap(items[i])) && (Swap(items[i]) == items[i] <==> Unswapped(items[i])) {
        SwapFacts(items[i]);
      }
      if Swap(t) == t { forall i | 0 <= i < |items| ensures Unswapped(items[i]) { assert Swap(t).items[i] == items[i]; } }
    case Fields(fields) =>
      forall k | k in fields ensures PyEqual(fields[k], Swap(fields[k])) && (Swap(fields[k]) == fields[k] <==> Unswapped(fields[k])) {
        SwapFacts(fields[k]);
      }
      if Swap(t) == t { forall k | k in fields ensures Unswapped(fields[k]) { assert Swap(t).fields[k] == fields[k]; } }
      if Unswapped(t) { assert Swap(t).fields == fields; }
    case _ =>
  }

  lemma SwapKeepsKind(t: Tree)
    requires Tagged(t)
    ensures Tagged(Swap(t)) && KindOf(Swap(t)) == KindOf(t)
  {
    assert Swap(t).fields.Keys == t.fields.Keys;
    assert Swap(t).fields["$type"] == Swap(t.fields["$type"]);
  }

  lemma TwinKeepsKind(t: Tree)
    ensures KindOf(Twin(t)) == KindOf(t)
  {
    if t.Fields? {
      if Tagged(t) {
        SwapKeepsKind(t);
      } else {
        assert Twin(t).fields.Keys == t.fields.Keys;
        if "$type" in t.fields { assert Twin(t).fields["$type"] == Twin(t.fields["$type"]); }
      }
    }
  }

  lemma {:induction false} TwinFacts(t: Tree)
    ensures Same(t, Twin(t)) && (Twin(t) == t <==> Settled(t))
    decreases t
  {
    TwinKeepsKind(t);
    match t
    case Items(items) =>
      forall i | 0 <= i < |items| ensures Same(items[i], Twin(items[i])) && (Twin(items[i]) == items[i] <==> Settled(items[i])) {
        TwinFacts(items[i]);
      }
      if Twin(t) == t { forall i | 0 <= i < |items| ensures Settled(items[i]) { assert Twin(t).items[i] == items[i]; } }
    case Fields(fields) =>
      if Tagged(t) {
        SwapFacts(t);
      } else {
        forall k | k in fields ensures Same(fields[k], Twin(fields[k])) && (Twin(fields[k]) == fields[k] <==> Settled(fields[k])) {
          TwinFacts(fields[k]);
        }
        if Twin(t) == t { forall k | k in fields ensures Settled(fields[k]) { assert Twin(t).fields[k] == fields[k]; } }
        if Settled(t) { assert Twin(t).fields == fields; }
      }
    case _ =>
  }

  lemma {:induction false} UnswappedIsAlone(a: Tree, b: Tree)
    requires Unswapped(a) && PyEqual(a, b)
    ensures a == b
    decreases a
  {
    match (a, b)
    case (Items(x), Items(y)) => forall i | 0 <= i < |x| ensures x[i] == y[i] { UnswappedIsAlone(x[i], y[i]); }
    case (Fields(x), Fields(y)) => forall k | k in x ensures x[k] == y[k] { UnswappedIsAlone(x[k], y[k]); }
    case _ =>
  }

  lemma {:induction false} SettledIsAlone(a: Tree, b: Tree)
    requires Settled(a) && Same(a, b)
    ensures a == b
    decreases a
  {
    match KindOf(a)
    case KMapping => forall k | k in a.fields ensures a.fields[k] == b.fields[k] { SettledIsAlone(a.fields[k], b.fields[k]); }
    case KSequence => forall i | 0 <= i < |a.items| ensures a.items[i] == b.items[i] { SettledIsAlone(a.items[i], b.items[i]); }
    case KTagged(_) => UnswappedIsAlone(a, b);
    case _ =>
  }

  /** A tree is the only one its silent diffs allow if and only if no tagged value inside it holds a
      boolean, a 0 or a 1. */
  lemma DeterminedExactly(t: Tree)
    ensures (forall u :: Diffs(t, u) == [] ==> u == t) <==> Settled(t)
  {
    TwinFacts(t);
    SilentExactlyWhenSame(t, Twin(t));
    if Settled(t) {
      forall u | Diffs(t, u) == [] ensures u == t {
        SilentExactlyWhenSame(t, u);
        SettledIsAlone(t, u);
      }
    }
  }

  lemma {:induction false} UncleanUnsettled(t: Tree)
    requires !Clean(t)
    ensures !Settled(t)
    decreases t
  {
    match t
    case Items(items) => var i :| 0 <= i < |items| && !Clean(items[i]); UncleanUnsettled(items[i]);
    case Fields(fields) =>
      if Tagged(t) {
        if Unswapped(t) { UnswappedNoFlags(t); }
      } else {
        var k :| k in fields && !Clean(fields[k]);
        UncleanUnsettled(fields[k]);
      }
  }

  lemma {:induction false} UnswappedNoFlags(t: Tree)
    requires Unswapped(t)
    ensures NoFlags(t)
    decreases t
  {
    match t
    case Items(items) => forall i | 0 <= i < |items| ensures NoFlags(items[i]) { UnswappedNoFlags(items[i]); }
    case Fields(fields) => forall k | k in fields ensures NoFlags(fields[k]) { UnswappedNoFlags(fields[k]); }
    case _ =>
  }

  /** Every tree with a boolean inside a tagged value has an unequal tree with a silent diff. */
  lemma UncleanHasTwin(t: Tree)
    requires !Clean(t)
    ensures Twin(t) != t && Diffs(t, Twin(t)) == []
  {
    UncleanUnsettled(t);
    TwinFacts(t);
    SilentExactlyWhenSame(t, Twin(t));
  }
}
