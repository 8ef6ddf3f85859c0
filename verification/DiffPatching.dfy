/** Patching one normalized tree with a diff, and the round trip: patching the left side with the
    full diff gives the right side. */
module DiffPatching {
  import opened Order
  import opened Values
  import opened Encoding
  import opened SemanticDiff

  /** The changes below one token, relative to it. */
  function Sub(cs: seq<Change>, token: string): seq<Change> {
    if cs == [] then []
    else
      var rest := Sub(cs[1..], token);
      if cs[0].path != [] && cs[0].path[0] == token then [cs[0].(path := cs[0].path[1..])] + rest else rest
  }

  function Heads(cs: seq<Change>): set<string> {
    set c | c in cs && c.path != [] :: c.path[0]
  }

  /** The change at the node itself, if any. */
  function Here(cs: seq<Change>): Option<Change> {
    if cs == [] then None else if cs[0].path == [] then Some(cs[0]) else Here(cs[1..])
  }

  /** Patches a node that is present; a change at the node decides it, otherwise its children are patched. */
  function Patch(t: Tree, cs: seq<Change>): Option<Tree>
    decreases t, 2, 0
  {
    if Here(cs).Some? then Here(cs).value.right
    else
      match t
      case Fields(fields) =>
        Some(Fields(map k | k in fields.Keys + Heads(cs) && PatchField(t, cs, k).Some? :: PatchField(t, cs, k).value))
      case Items(items) => Some(Items(PatchItems(t, cs, 0, |items| + |cs|)))
      case _ => Some(t)
  }

  function PatchAbsent(cs: seq<Change>): Option<Tree> {
    if Here(cs).Some? then Here(cs).value.right else None
  }

  function PatchField(t: Tree, cs: seq<Change>, k: string): Option<Tree>
    requires t.Fields?
    decreases t, 0, 0
  {
    if k in t.fields then Patch(t.fields[k], Sub(cs, k)) else PatchAbsent(Sub(cs, k))
  }

  function PatchItem(t: Tree, cs: seq<Change>, i: nat): Option<Tree>
    requires t.Items?
    decreases t, 0, 0
  {
    if i < |t.items| then Patch(t.items[i], Sub(cs, Digits(i))) else PatchAbsent(Sub(cs, Digits(i)))
  }

  function PatchItems(t: Tree, cs: seq<Change>, i: nat, n: nat): seq<Tree>
    requires t.Items? && i <= n
    decreases t, 1, n - i
  {
    if i == n then []
    else
      var rest := PatchItems(t, cs, i + 1, n);
      match PatchItem(t, cs, i) case None => rest case Some(x) => [x] + rest
  }

  lemma {:induction false} SubJoins(a: seq<Change>, b: seq<Change>, k: string)
    ensures Sub(a + b, k) == Sub(a, k) + Sub(b, k)
    decreases |a|
  {
    if a == [] {
      assert a + b == b;
    } else {
      assert (a + b)[1..] == a[1..] + b;
      SubJoins(a[1..], b, k);
    }
  }

  lemma {:induction false} SubUnder(cs: seq<Change>, j: string, k: string)
    ensures Sub(AllUnder(j, cs), k) == if j == k then cs else []
    decreases |cs|
  {
    if cs != [] {
      assert AllUnder(j, cs)[1..] == AllUnder(j, cs[1..]);
      SubUnder(cs[1..], j, k);
      assert ([j] + cs[0].path)[1..] == cs[0].path;
    }
  }

  lemma {:induction false} HereJoins(a: seq<Change>, b: seq<Change>)
    requires Here(a) == None
    ensures Here(a + b) == Here(b)
    decreases |a|
  {
    if a == [] {
      assert a + b == b;
    } else {
      assert (a + b)[1..] == a[1..] + b;
      HereJoins(a[1..], b);
    }
  }

  lemma {:induction false} NotHere(cs: seq<Change>, j: string)
    ensures Here(AllUnder(j, cs)) == None
    decreases |cs|
  {
    if cs != [] {
      assert AllUnder(j, cs)[1..] == AllUnder(j, cs[1..]);
      NotHere(cs[1..], j);
    }
  }

  lemma {:induction false} SubHeads(cs: seq<Change>, k: string)
    ensures Sub(cs, k) != [] <==> k in Heads(cs)
    decreases |cs|
  {
    if cs != [] {
      SubHeads(cs[1..], k);
      assert Heads(cs) == Heads(cs[1..]) + (if cs[0].path != [] then {cs[0].path[0]} else {}) by {
        assert cs == [cs[0]] + cs[1..];
      }
    }
  }

  lemma {:induction false} FieldDiffsShape(l: Tree, r: Tree, keys: seq<string>, k: string)
    requires l.Fields? && r.Fields? && Distinct(keys)
    ensures Here(FieldDiffs(l, r, keys)) == None
    ensures Sub(FieldDiffs(l, r, keys), k) == if k in keys then FieldDiff(l, r, k) else []
    decreases |keys|
  {
    hide FieldDiff;
    if keys != [] {
      var first := FieldDiff(l, r, keys[0]);
      FieldDiffsShape(l, r, keys[1..], k);
      NotHere(first, keys[0]);
      HereJoins(AllUnder(keys[0], first), FieldDiffs(l, r, keys[1..]));
      SubUnder(first, keys[0], k);
      SubJoins(AllUnder(keys[0], first), FieldDiffs(l, r, keys[1..]), k);
    }
  }

  lemma {:induction false} ItemDiffsShape(l: Tree, r: Tree, i: nat, j: nat)
    requires l.Items? && r.Items?
    ensures Here(ItemDiffs(l, r, i)) == None
    ensures Sub(ItemDiffs(l, r, i), Digits(j)) == if i <= j < Longer(|l.items|, |r.items|) then ItemDiff(l, r, j) else []
    decreases Longer(|l.items|, |r.items|) - i
  {
    hide ItemDiff, Digits;
    if i < Longer(|l.items|, |r.items|) {
      var first := ItemDiff(l, r, i);
      ItemDiffsShape(l, r, i + 1, j);
      NotHere(first, Digits(i));
      HereJoins(AllUnder(Digits(i), first), ItemDiffs(l, r, i + 1));
      SubUnder(first, Digits(i), Digits(j));
      SubJoins(AllUnder(Digits(i), first), ItemDiffs(l, r, i + 1), Digits(j));
      if Digits(i) == Digits(j) { DigitsInjective(i, j); }
    }
  }

  lemma {:induction false} EnoughChanges(l: Tree, r: Tree, i: nat)
    requires l.Items? && r.Items?
    ensures |ItemDiffs(l, r, i)| + (if i < |l.items| then |l.items| else i) >= |r.items|
    decreases Longer(|l.items|, |r.items|) - i
  {
    hide Diffs, Digits;
    if i < Longer(|l.items|, |r.items|) { EnoughChanges(l, r, i + 1); }
  }

  // ---------------------------------------------------------------- the round trip

  lemma {:induction false} PatchNothing(t: Tree)
    ensures Patch(t, []) == Some(t)
    decreases t, 1, 0
  {
    match t
    case Fields(fields) =>
      forall k | k in fields ensures PatchField(t, [], k) == Some(fields[k]) { PatchNothing(fields[k]); }
      assert fields.Keys + Heads([]) == fields.Keys;
      assert Patch(t, []).value.fields == fields;
    case Items(items) => PatchNoItems(t, 0);
    case _ =>
  }

  lemma {:induction false} PatchNoItems(t: Tree, i: nat)
    requires t.Items? && i <= |t.items|
    ensures PatchItems(t, [], i, |t.items|) == t.items[i..]
    decreases t, 0, |t.items| - i
  {
    if i < |t.items| {
      PatchNoItems(t, i + 1);
      PatchNothing(t.items[i]);
      assert PatchItem(t, [], i) == Some(t.items[i]);
      assert t.items[i..] == [t.items[i]] + t.items[i + 1..];
    }
  }

  /** The patched node is the right node: equal in type and value, and identical on clean evidence. */
  predicate Gives(p: Option<Tree>, l: Tree, r: Tree) {
    p.Some? && Same(p.value, r) && (Clean(l) && Clean(r) ==> p.value == r)
  }

  /** Patching the left tree with the full diff gives the right tree. */
  lemma {:induction false} PatchRestores(l: Tree, r: Tree)
    ensures Gives(Patch(l, Diffs(l, r)), l, r)
    decreases l, 2
  {
    SameReflexive(r);
    if KindOf(l) == KindOf(r) {
      match KindOf(l)
      case KMapping => PatchMapping(l, r);
      case KSequence => PatchSequence(l, r);
      case _ =>
        PatchNothing(l);
        if PyEqual(l, r) && Clean(l) && Clean(r) { SameIsEquality(l, r); }
    }
  }

  /** What patching must leave at one key: nothing when the right side lacks it. */
  predicate GivesField(p: Option<Tree>, l: Tree, r: Tree, k: string)
    requires l.Fields? && r.Fields?
  {
    if k !in r.fields then p == None
    else if k in l.fields then Gives(p, l.fields[k], r.fields[k])
    else p == Some(r.fields[k])
  }

  lemma {:induction false} PatchOneField(l: Tree, r: Tree, k: string)
    requires KindOf(l) == KindOf(r) == KMapping && l.Fields? && r.Fields?
    ensures var cs := Diffs(l, r); Here(cs) == None && GivesField(PatchField(l, cs, k), l, r, k)
    ensures k in l.fields.Keys + Heads(Diffs(l, r)) <==> k in l.fields || k in r.fields
    decreases l, 0
  {
    hide Diffs, Patch, Gives, KindOf, Heads, Here;
    OneFieldShape(l, r, k);
    SubHeads(Diffs(l, r), k);
    if k in l.fields && k in r.fields { PatchRestores(l.fields[k], r.fields[k]); }
    if k in l.fields && k !in r.fields { RemovedAt(l.fields[k]); }
    if k !in l.fields { AddedAt(FieldDiff(l, r, k)); }
  }

  lemma OneFieldShape(l: Tree, r: Tree, k: string)
    requires KindOf(l) == KindOf(r) == KMapping && l.Fields? && r.Fields?
    ensures Here(Diffs(l, r)) == None && Sub(Diffs(l, r), k) == FieldDiff(l, r, k)
  {
    hide Diffs, FieldDiffs, KindOf;
    MappingDiffs(l, r);
    SortedDistinct(l.fields.Keys + r.fields.Keys);
    FieldDiffsShape(l, r, Sorted(l.fields.Keys + r.fields.Keys), k);
  }

  lemma AddedAt(cs: seq<Change>)
    requires cs == [] || (|cs| == 1 && cs[0].path == [])
    ensures PatchAbsent(cs) == if cs == [] then None else cs[0].right
  {
  }

  lemma RemovedAt(t: Tree)
    ensures Patch(t, [Change([], REMOVE, Some(t), None)]) == None
  {
  }

  lemma FieldGiven(p: Option<Tree>, l: Tree, r: Tree, k: string)
    requires KindOf(l) == KindOf(r) == KMapping && GivesField(p, l, r, k) && k in r.fields
    ensures p.Some? && Same(p.value, r.fields[k])
    ensures Clean(l) && Clean(r) ==> p.value == r.fields[k]
  {
    SameReflexive(r.fields[k]);
  }

  /** A mapping whose fields are all the same as those of another mapping is the same as it. */
  lemma SameFields(p: Tree, r: Tree)
    requires p.Fields? && KindOf(r) == KMapping && p.fields.Keys == r.fields.Keys
    requires forall k :: k in r.fields ==> Same(p.fields[k], r.fields[k])
    ensures Same(p, r)
  {
    if "$type" in p.fields { assert Same(p.fields["$type"], r.fields["$type"]); }
  }

  lemma {:induction false} PatchMapping(l: Tree, r: Tree)
    requires KindOf(l) == KindOf(r) == KMapping
    ensures Gives(Patch(l, Diffs(l, r)), l, r)
    decreases l, 1
  {
    hide Diffs, PatchField, Heads, GivesField;
    var cs := Diffs(l, r);
    PatchOneField(l, r, "");
    var p := Patch(l, cs).value;
    forall k ensures k in p.fields <==> k in r.fields
             ensures k in r.fields ==> Same(p.fields[k], r.fields[k]) && (Clean(l) && Clean(r) ==> p.fields[k] == r.fields[k]) {
      PatchOneField(l, r, k);
      if k in r.fields { FieldGiven(PatchField(l, cs, k), l, r, k); } else { FieldAbsent(PatchField(l, cs, k), l, r, k); }
    }
    assert p.fields.Keys == r.fields.Keys;
    SameFields(p, r);
    if Clean(l) && Clean(r) { assert p.fields == r.fields; }
  }

  lemma FieldAbsent(p: Option<Tree>, l: Tree, r: Tree, k: string)
    requires l.Fields? && r.Fields? && GivesField(p, l, r, k) && k !in r.fields
    ensures p == None
  {
  }

  predicate GivesItem(p: Option<Tree>, l: Tree, r: Tree, i: nat)
    requires l.Items? && r.Items?
  {
    if i >= |r.items| then p == None
    else if i < |l.items| then Gives(p, l.items[i], r.items[i])
    else p == Some(r.items[i])
  }

  lemma {:induction false} PatchOneItem(l: Tree, r: Tree, i: nat)
    requires KindOf(l) == KindOf(r) == KSequence
    ensures var cs := Diffs(l, r); Here(cs) == None && GivesItem(PatchItem(l, cs, i), l, r, i)
    decreases l, 0
  {
    hide Diffs, ItemDiffs, Patch, Gives, Digits;
    SequenceDiffs(l, r);
    ItemDiffsShape(l, r, 0, i);
    if i < |l.items| && i < |r.items| { PatchRestores(l.items[i], r.items[i]); }
    if i < |l.items| && i >= |r.items| { RemovedAt(l.items[i]); }
  }

  /** Patched item lists line up with the right side from position `i` on. */
  lemma {:induction false} PatchItemsGive(l: Tree, r: Tree, cs: seq<Change>, i: nat, n: nat)
    requires l.Items? && r.Items? && i <= n && |r.items| <= n
    requires forall j :: i <= j < n ==> GivesItem(PatchItem(l, cs, j), l, r, j)
    ensures var out := PatchItems(l, cs, i, n);
            && |out| == (if i < |r.items| then |r.items| - i else 0)
            && forall j :: 0 <= j < |out| ==> GivesItem(Some(out[j]), l, r, i + j)
    decreases n - i
  {
    hide PatchItem, Gives;
    if i < n {
      PatchItemsGive(l, r, cs, i + 1, n);
      assert GivesItem(PatchItem(l, cs, i), l, r, i);
      var rest := PatchItems(l, cs, i + 1, n);
      var out := PatchItems(l, cs, i, n);
      if i < |r.items| {
        var x := ItemPresent(PatchItem(l, cs, i), l, r, i);
        assert out == [x] + rest;
        forall j | 0 <= j < |out| ensures GivesItem(Some(out[j]), l, r, i + j) {
          if j > 0 { assert out[j] == rest[j - 1] && GivesItem(Some(rest[j - 1]), l, r, i + 1 + (j - 1)); }
        }
      }
    }
  }

  lemma ItemPresent(p: Option<Tree>, l: Tree, r: Tree, i: nat) returns (x: Tree)
    requires l.Items? && r.Items? && GivesItem(p, l, r, i) && i < |r.items|
    ensures p == Some(x)
  {
    x := p.value;
  }

  lemma ItemGiven(x: Tree, l: Tree, r: Tree, i: nat)
    requires KindOf(l) == KindOf(r) == KSequence && GivesItem(Some(x), l, r, i)
    ensures i < |r.items| && Same(x, r.items[i])
    ensures Clean(l) && Clean(r) ==> x == r.items[i]
  {
    SameReflexive(r.items[i]);
  }

  lemma {:induction false} PatchSequence(l: Tree, r: Tree)
    requires KindOf(l) == KindOf(r) == KSequence
    ensures Gives(Patch(l, Diffs(l, r)), l, r)
    decreases l, 1
  {
    hide Diffs, PatchItems, GivesItem, ItemDiffs, PyEqual;
    var cs := Diffs(l, r);
    var n := |l.items| + |cs|;
    SequenceDiffs(l, r);
    EnoughChanges(l, r, 0);
    PatchOneItem(l, r, 0);
    forall j | 0 <= j < n ensures GivesItem(PatchItem(l, cs, j), l, r, j) { PatchOneItem(l, r, j); }
    PatchItemsGive(l, r, cs, 0, n);
    var out := PatchItems(l, cs, 0, n);
    assert Patch(l, cs) == Some(Items(out));
    forall j | 0 <= j < |out| ensures Same(out[j], r.items[j]) && (Clean(l) && Clean(r) ==> out[j] == r.items[j]) {
      ItemGiven(out[j], l, r, j);
    }
    SameItems(Items(out), r);
    if Clean(l) && Clean(r) { assert out == r.items; }
  }
}
