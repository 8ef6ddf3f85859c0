/** Which differences the full diff lists, stated without the traversal: one for every place where the
    two trees part, labelled by how they part, in document order. */
module DiffMeaning {
  import opened Order
  import opened Values
  import opened Encoding
  import opened SemanticDiff

  /** A child on one side only is an addition or a removal; a child on both sides is looked into. */
  ghost predicate ChildSite(x: Option<Tree>, y: Option<Tree>, c: Change)
    decreases |c.path|, 1
  {
    match (x, y)
    case (None, None) => false
    case (Some(a), None) => c == Change([], REMOVE, Some(a), None)
    case (None, Some(b)) => c == Change([], ADD, None, Some(b))
    case (Some(a), Some(b)) => Site(a, b, c)
  }

  /** The change at the end of its path: kinds that differ are a retype, unequal leaves a replacement. */
  ghost predicate Site(l: Tree, r: Tree, c: Change)
    decreases |c.path|, 0
  {
    if KindOf(l) != KindOf(r) then c == Change([], RETYPE, Some(l), Some(r))
    else
      match KindOf(l)
      case KMapping => c.path != [] && ChildSite(Field(l, c.path[0]), Field(r, c.path[0]), c.(path := c.path[1..]))
      case KSequence => c.path != [] && exists i: nat :: c.path[0] == Digits(i) && ChildSite(Item(l, i), Item(r, i), c.(path := c.path[1..]))
      case _ => !PyEqual(l, r) && c == Change([], REPLACE, Some(l), Some(r))
  }

  lemma UnderMember(token: string, cs: seq<Change>, c: Change)
    ensures c in AllUnder(token, cs) <==> c.path != [] && c.path[0] == token && c.(path := c.path[1..]) in cs
  {
    if c in AllUnder(token, cs) {
      var i :| 0 <= i < |cs| && AllUnder(token, cs)[i] == c;
      assert c == Under(token, cs[i]) && c.path[1..] == cs[i].path;
    }
    if c.path != [] && c.path[0] == token && c.(path := c.path[1..]) in cs {
      var i :| 0 <= i < |cs| && cs[i] == c.(path := c.path[1..]);
      assert [token] + c.path[1..] == c.path;
      assert AllUnder(token, cs)[i] == c;
    }
  }

  lemma {:induction false} FieldsMember(l: Tree, r: Tree, keys: seq<string>, c: Change)
    requires l.Fields? && r.Fields?
    ensures c in FieldDiffs(l, r, keys)
            <==> c.path != [] && c.path[0] in keys && c.(path := c.path[1..]) in FieldDiff(l, r, c.path[0])
    decreases |keys|
  {
    hide FieldDiff, AllUnder;
    if keys != [] {
      FieldsMember(l, r, keys[1..], c);
      UnderMember(keys[0], FieldDiff(l, r, keys[0]), c);
      assert keys == [keys[0]] + keys[1..];
    }
  }

  /** A change among the items from i on belongs to one of them. */
  ghost predicate ItemMember(l: Tree, r: Tree, i: nat, c: Change)
    requires l.Items? && r.Items?
  {
    exists j: nat :: i <= j < Longer(|l.items|, |r.items|) && ItemAt(l, r, j, c)
  }

  predicate ItemAt(l: Tree, r: Tree, j: nat, c: Change)
    requires l.Items? && r.Items?
  {
    c.path != [] && c.path[0] == Digits(j) && c.(path := c.path[1..]) in ItemDiff(l, r, j)
  }

  lemma {:induction false} ItemsMember(l: Tree, r: Tree, i: nat, c: Change)
    requires l.Items? && r.Items?
    ensures c in ItemDiffs(l, r, i) <==> ItemMember(l, r, i, c)
    decreases Longer(|l.items|, |r.items|) - i
  {
    hide ItemDiff, AllUnder;
    if i < Longer(|l.items|, |r.items|) {
      ItemsMember(l, r, i + 1, c);
      UnderMember(Digits(i), ItemDiff(l, r, i), c);
      assert ItemAt(l, r, i, c) <==> c in AllUnder(Digits(i), ItemDiff(l, r, i));
    }
  }

  lemma FieldPart(l: Tree, r: Tree, k: string, c: Change)
    requires l.Fields? && r.Fields?
    ensures Field(l, k).Some? && Field(r, k).Some? ==> (c in FieldDiff(l, r, k) <==> c in Diffs(l.fields[k], r.fields[k]))
    ensures !(Field(l, k).Some? && Field(r, k).Some?) ==> (c in FieldDiff(l, r, k) <==> ChildSite(Field(l, k), Field(r, k), c))
  {
    hide Diffs, Site;
  }

  lemma ItemPart(l: Tree, r: Tree, i: nat, c: Change)
    requires l.Items? && r.Items?
    ensures i < |l.items| && i < |r.items| ==> (c in ItemDiff(l, r, i) <==> c in Diffs(l.items[i], r.items[i]))
    ensures !(i < |l.items| && i < |r.items|) ==> (c in ItemDiff(l, r, i) <==> ChildSite(Item(l, i), Item(r, i), c))
  {
    hide Diffs, Site;
  }

  /** The full diff lists exactly the places where the trees part, with the right label and both sides. */
  lemma {:induction false} DiffsExactly(l: Tree, r: Tree, c: Change)
    ensures c in Diffs(l, r) <==> Site(l, r, c)
    decreases |c.path|, 1
  {
    if KindOf(l) == KindOf(r) {
      match KindOf(l)
      case KMapping => MappingExactly(l, r, c);
      case KSequence => SequenceExactly(l, r, c);
      case _ =>
    }
  }

  lemma {:induction false} MappingExactly(l: Tree, r: Tree, c: Change)
    requires KindOf(l) == KindOf(r) == KMapping
    ensures c in Diffs(l, r) <==> Site(l, r, c)
    decreases |c.path|, 0
  {
    hide Diffs, FieldDiffs, FieldDiff, PyEqual;
    MappingDiffs(l, r);
    FieldsMember(l, r, Sorted(l.fields.Keys + r.fields.Keys), c);
    if c.path != [] {
      var k, inner := c.path[0], c.(path := c.path[1..]);
      FieldPart(l, r, k, inner);
      if k in l.fields && k in r.fields { DiffsExactly(l.fields[k], r.fields[k], inner); }
    }
  }

  lemma {:induction false} SequenceExactly(l: Tree, r: Tree, c: Change)
    requires KindOf(l) == KindOf(r) == KSequence
    ensures c in Diffs(l, r) <==> Site(l, r, c)
    decreases |c.path|, 0
  {
    hide Diffs, ItemDiffs, ItemDiff, PyEqual, Digits;
    SequenceDiffs(l, r);
    ItemsMember(l, r, 0, c);
    if c.path != [] {
      var inner := c.(path := c.path[1..]);
      forall i: nat ensures c.path[0] == Digits(i) ==> (inner in ItemDiff(l, r, i) <==> ChildSite(Item(l, i), Item(r, i), inner)) {
        ItemPart(l, r, i, inner);
        if i < |l.items| && i < |r.items| { DiffsExactly(l.items[i], r.items[i], inner); }
      }
      if i: nat :| c.path[0] == Digits(i) && ChildSite(Item(l, i), Item(r, i), inner) {
        assert ItemAt(l, r, i, c);
      }
    }
  }

  // ---------------------------------------------------------------- document order

  /** Paths in document order: fields by name, items by index, then what is inside them. */
  ghost predicate Earlier(l: Tree, r: Tree, p: seq<string>, q: seq<string>)
    decreases |p|
  {
    && p != [] && q != []
    && if KindOf(l) == KindOf(r) == KMapping then
         || Less(p[0], q[0])
         || (p[0] == q[0] && p[0] in l.fields && p[0] in r.fields && Earlier(l.fields[p[0]], r.fields[p[0]], p[1..], q[1..]))
       else
         && KindOf(l) == KindOf(r) == KSequence
         && exists a: nat, b: nat :: p[0] == Digits(a) && q[0] == Digits(b)
              && (a < b || (a == b && a < |l.items| && a < |r.items| && Earlier(l.items[a], r.items[a], p[1..], q[1..])))
  }

  ghost predicate InOrder(l: Tree, r: Tree, cs: seq<Change>) {
    forall i, j :: 0 <= i < j < |cs| ==> Earlier(l, r, cs[i].path, cs[j].path)
  }

  lemma OrderJoins(l: Tree, r: Tree, first: seq<Change>, rest: seq<Change>)
    requires InOrder(l, r, first) && InOrder(l, r, rest)
    requires forall c, d :: c in first && d in rest ==> Earlier(l, r, c.path, d.path)
    ensures InOrder(l, r, first + rest)
  {
    hide Earlier;
    var all := first + rest;
    forall i, j | 0 <= i < j < |all| ensures Earlier(l, r, all[i].path, all[j].path) {
      if j < |first| {
      } else if i < |first| {
        assert first[i] in first && rest[j - |first|] in rest;
      } else {
        assert all[i] == rest[i - |first|] && all[j] == rest[j - |first|];
      }
    }
  }

  lemma OrderUnderField(l: Tree, r: Tree, k: string, cs: seq<Change>)
    requires KindOf(l) == KindOf(r) == KMapping && k in l.fields && k in r.fields && InOrder(l.fields[k], r.fields[k], cs)
    ensures InOrder(l, r, AllUnder(k, cs))
  {
    var all := AllUnder(k, cs);
    forall i, j | 0 <= i < j < |all| ensures Earlier(l, r, all[i].path, all[j].path) {
      assert all[i].path[1..] == cs[i].path && all[j].path[1..] == cs[j].path;
      assert Earlier(l.fields[k], r.fields[k], cs[i].path, cs[j].path);
    }
  }

  lemma OrderUnderItem(l: Tree, r: Tree, a: nat, cs: seq<Change>)
    requires KindOf(l) == KindOf(r) == KSequence && a < |l.items| && a < |r.items| && InOrder(l.items[a], r.items[a], cs)
    ensures InOrder(l, r, AllUnder(Digits(a), cs))
  {
    hide Digits;
    var all := AllUnder(Digits(a), cs);
    forall i, j | 0 <= i < j < |all| ensures Earlier(l, r, all[i].path, all[j].path) {
      assert all[i].path[1..] == cs[i].path && all[j].path[1..] == cs[j].path;
      assert Earlier(l.items[a], r.items[a], cs[i].path, cs[j].path);
    }
  }

  lemma {:induction false} FieldsInOrder(l: Tree, r: Tree, keys: seq<string>)
    requires KindOf(l) == KindOf(r) == KMapping && Ascending(keys)
    ensures InOrder(l, r, FieldDiffs(l, r, keys))
    decreases l, 0, |keys|
  {
    hide Diffs, Earlier;
    if keys != [] {
      var k := keys[0];
      FieldsInOrder(l, r, keys[1..]);
      var head, tail := AllUnder(k, FieldDiff(l, r, k)), FieldDiffs(l, r, keys[1..]);
      if k in l.fields && k in r.fields {
        DiffsInOrder(l.fields[k], r.fields[k]);
        OrderUnderField(l, r, k, Diffs(l.fields[k], r.fields[k]));
      }
      forall c, d | c in head && d in tail ensures Earlier(l, r, c.path, d.path) {
        UnderMember(k, FieldDiff(l, r, k), c);
        FieldsMember(l, r, keys[1..], d);
        LaterField(l, r, c.path, d.path, keys);
      }
      OrderJoins(l, r, head, tail);
    }
  }

  lemma LaterField(l: Tree, r: Tree, p: seq<string>, q: seq<string>, keys: seq<string>)
    requires KindOf(l) == KindOf(r) == KMapping && Ascending(keys) && keys != [] && p != [] && q != []
    requires p[0] == keys[0] && q[0] in keys[1..]
    ensures Earlier(l, r, p, q)
  {
    hide Less;
    var i :| 0 <= i < |keys[1..]| && keys[1..][i] == q[0];
    assert keys[i + 1] == q[0];
  }

  lemma {:induction false} ItemsInOrder(l: Tree, r: Tree, i: nat)
    requires KindOf(l) == KindOf(r) == KSequence
    ensures InOrder(l, r, ItemDiffs(l, r, i))
    decreases l, 0, Longer(|l.items|, |r.items|) - i
  {
    hide Diffs, Earlier, Digits;
    if i < Longer(|l.items|, |r.items|) {
      ItemsInOrder(l, r, i + 1);
      var head, tail := AllUnder(Digits(i), ItemDiff(l, r, i)), ItemDiffs(l, r, i + 1);
      if i < |l.items| && i < |r.items| {
        DiffsInOrder(l.items[i], r.items[i]);
        OrderUnderItem(l, r, i, Diffs(l.items[i], r.items[i]));
      }
      forall c, d | c in head && d in tail ensures Earlier(l, r, c.path, d.path) {
        UnderMember(Digits(i), ItemDiff(l, r, i), c);
        ItemsMember(l, r, i + 1, d);
        var j := MemberIndex(l, r, i + 1, d);
        LaterItem(l, r, c.path, d.path, i, j);
      }
      OrderJoins(l, r, head, tail);
    }
  }

  lemma MemberIndex(l: Tree, r: Tree, i: nat, c: Change) returns (j: nat)
    requires l.Items? && r.Items? && ItemMember(l, r, i, c)
    ensures i <= j && c.path != [] && c.path[0] == Digits(j)
  {
    j :| i <= j < Longer(|l.items|, |r.items|) && ItemAt(l, r, j, c);
  }

  lemma LaterItem(l: Tree, r: Tree, p: seq<string>, q: seq<string>, a: nat, b: nat)
    requires KindOf(l) == KindOf(r) == KSequence && p != [] && q != [] && p[0] == Digits(a) && q[0] == Digits(b) && a < b
    ensures Earlier(l, r, p, q)
  {
    hide Digits;
  }

  /** The full diff is in document order, each place once. */
  lemma {:induction false} DiffsInOrder(l: Tree, r: Tree)
    ensures InOrder(l, r, Diffs(l, r))
    decreases l, 1
  {
    hide Earlier, FieldDiffs, ItemDiffs;
    if KindOf(l) == KindOf(r) {
      match KindOf(l)
      case KMapping =>
        var keys := Sorted(l.fields.Keys + r.fields.Keys);
        SortedAscending(l.fields.Keys + r.fields.Keys);
        FieldsInOrder(l, r, keys);
      case KSequence => ItemsInOrder(l, r, 0);
      case _ =>
    }
  }
}
