/** The bounded traversal that produces a diff: it emits the full diff in order, truncated at the
    record limit or cut at the first difference, or fails when a bound is crossed. */
module DiffTraversal {
  import opened Order
  import opened Values
  import opened Encoding
  import opened Pointers
  import opened SemanticDiff

  const MAX_DIFF_DEPTH: nat := 64
  const MAX_COMPARED_ITEMS: nat := 1000000
  const HARD_MAX_DIFF_RECORDS: nat := 100000

  datatype Mode = FIRST | COMPLETE

  datatype Record = Record(path: string, op: Operation, left: Option<Tree>, right: Option<Tree>)

  function RecordAt(tokens: seq<string>, c: Change): Record {
    Record(Pointer(tokens + c.path), c.op, c.left, c.right)
  }

  /** What the traversal has collected. */
  datatype Tally = Tally(records: seq<Record>, omitted: nat, stopped: bool)

  function Emitted(mode: Mode, maximum: nat, t: Tally, e: Record): Tally {
    var kept := if |t.records| < maximum then t.(records := t.records + [e]) else t.(omitted := t.omitted + 1);
    kept.(stopped := t.stopped || mode.FIRST?)
  }

  function EmitAll(mode: Mode, maximum: nat, t: Tally, tokens: seq<string>, cs: seq<Change>): Tally
    decreases |cs|
  {
    if t.stopped || cs == [] then t
    else EmitAll(mode, maximum, Emitted(mode, maximum, t, RecordAt(tokens, cs[0])), tokens, cs[1..])
  }

  lemma {:induction false} EmitAllJoin(mode: Mode, maximum: nat, t: Tally, tokens: seq<string>, a: seq<Change>, b: seq<Change>)
    ensures EmitAll(mode, maximum, t, tokens, a + b)
         == EmitAll(mode, maximum, EmitAll(mode, maximum, t, tokens, a), tokens, b)
    decreases |a|
  {
    if a == [] {
      assert a + b == b;
    } else if !t.stopped {
      assert (a + b)[1..] == a[1..] + b;
      EmitAllJoin(mode, maximum, Emitted(mode, maximum, t, RecordAt(tokens, a[0])), tokens, a[1..], b);
    }
  }

  lemma {:induction false} EmitAllUnder(mode: Mode, maximum: nat, t: Tally, tokens: seq<string>, token: string, cs: seq<Change>)
    ensures EmitAll(mode, maximum, t, tokens, AllUnder(token, cs)) == EmitAll(mode, maximum, t, tokens + [token], cs)
    decreases |cs|
  {
    if cs != [] && !t.stopped {
      assert AllUnder(token, cs)[1..] == AllUnder(token, cs[1..]);
      assert tokens + ([token] + cs[0].path) == (tokens + [token]) + cs[0].path;
      EmitAllUnder(mode, maximum, Emitted(mode, maximum, t, RecordAt(tokens + [token], cs[0])), tokens, token, cs[1..]);
    }
  }

  // ---------------------------------------------------------------- how much a traversal visits

  /** No pair of compared nodes lies deeper than the limit. */
  predicate WithinDepth(l: Tree, r: Tree, depth: nat)
    decreases l
  {
    && depth <= MAX_DIFF_DEPTH
    && (KindOf(l) == KindOf(r) == KMapping ==>
          forall k :: k in l.fields && k in r.fields ==> WithinDepth(l.fields[k], r.fields[k], depth + 1))
    && (KindOf(l) == KindOf(r) == KSequence ==>
          forall i :: 0 <= i < |l.items| && i < |r.items| ==> WithinDepth(l.items[i], r.items[i], depth + 1))
  }

  predicate KeysWithin(l: Tree, r: Tree, keys: seq<string>, depth: nat)
    requires l.Fields? && r.Fields?
  {
    forall k :: k in keys && k in l.fields && k in r.fields ==> WithinDepth(l.fields[k], r.fields[k], depth)
  }

  /** The number of compared pairs when nothing stops the traversal. */
  function Visits(l: Tree, r: Tree): (n: nat)
    ensures n >= 1
    decreases l, 1, 0
  {
    if KindOf(l) != KindOf(r) then 1
    else
      match KindOf(l)
      case KMapping => 1 + FieldVisits(l, r, Sorted(l.fields.Keys + r.fields.Keys))
      case KSequence => 1 + ItemVisits(l, r, 0)
      case _ => 1
  }

  function FieldVisits(l: Tree, r: Tree, keys: seq<string>): nat
    requires l.Fields? && r.Fields?
    decreases l, 0, |keys|
  {
    if keys == [] then 0
    else (if keys[0] in l.fields && keys[0] in r.fields then Visits(l.fields[keys[0]], r.fields[keys[0]]) else 0)
         + FieldVisits(l, r, keys[1..])
  }

  function ItemVisits(l: Tree, r: Tree, i: nat): nat
    requires l.Items? && r.Items?
    decreases l, 0, |l.items| - i
  {
    if i < |l.items| && i < |r.items| then Visits(l.items[i], r.items[i]) + ItemVisits(l, r, i + 1) else 0
  }

  /** The pairs a traversal visits, up to the first difference if it stops there, and whether one of
      them lies too deep. */
  datatype Tour = Tour(visits: nat, deep: bool) {
    predicate Fits(spent: nat) {
      !deep && spent + visits <= MAX_COMPARED_ITEMS
    }
  }

  function Onward(n: nat, t: Tour): Tour {
    Tour(n + t.visits, t.deep)
  }

  /** A child's tour and what follows it: nothing when the traversal fails or stops there. */
  function Chained(first: bool, here: Tour, cs: seq<Change>, rest: Tour): Tour {
    if here.deep || (first && cs != []) then here else Onward(here.visits, rest)
  }

  function PairTour(first: bool, l: Tree, r: Tree, depth: nat): Tour
    decreases l, 1, 0
  {
    if depth > MAX_DIFF_DEPTH then Tour(0, true)
    else if KindOf(l) == KindOf(r) == KMapping then
      Onward(1, FieldTour(first, l, r, Sorted(l.fields.Keys + r.fields.Keys), depth + 1))
    else if KindOf(l) == KindOf(r) == KSequence then Onward(1, ItemTour(first, l, r, 0, depth + 1))
    else Tour(1, false)
  }

  function OneFieldTour(first: bool, l: Tree, r: Tree, k: string, depth: nat): Tour
    requires l.Fields? && r.Fields?
    decreases l, 0, 0
  {
    if k in l.fields && k in r.fields then PairTour(first, l.fields[k], r.fields[k], depth) else Tour(0, false)
  }

  function FieldTour(first: bool, l: Tree, r: Tree, keys: seq<string>, depth: nat): Tour
    requires l.Fields? && r.Fields?
    decreases l, 0, 1 + |keys|
  {
    if keys == [] then Tour(0, false)
    else Chained(first, OneFieldTour(first, l, r, keys[0], depth), FieldDiff(l, r, keys[0]), FieldTour(first, l, r, keys[1..], depth))
  }

  function ItemTour(first: bool, l: Tree, r: Tree, i: nat, depth: nat): Tour
    requires l.Items? && r.Items?
    decreases l, 0, |l.items| - i
  {
    if i < |l.items| && i < |r.items| then
      Chained(first, PairTour(first, l.items[i], r.items[i], depth), ItemDiff(l, r, i), ItemTour(first, l, r, i + 1, depth))
    else Tour(0, false)
  }

  lemma FieldTourStep(first: bool, l: Tree, r: Tree, keys: seq<string>, i: nat, depth: nat)
    requires l.Fields? && r.Fields? && i < |keys|
    ensures FieldTour(first, l, r, keys[i..], depth)
         == Chained(first, OneFieldTour(first, l, r, keys[i], depth), FieldDiff(l, r, keys[i]), FieldTour(first, l, r, keys[i + 1..], depth))
  {
    hide Chained, OneFieldTour, FieldDiff;
    assert keys[i..][0] == keys[i] && keys[i..][1..] == keys[i + 1..];
  }

  lemma ItemTourStep(first: bool, l: Tree, r: Tree, i: nat, depth: nat)
    requires l.Items? && r.Items? && i < |l.items| && i < |r.items|
    ensures ItemTour(first, l, r, i, depth)
         == Chained(first, PairTour(first, l.items[i], r.items[i], depth), Diffs(l.items[i], r.items[i]), ItemTour(first, l, r, i + 1, depth))
    ensures ItemDiff(l, r, i) == Diffs(l.items[i], r.items[i])
  {
    hide Chained, PairTour, Diffs;
  }

  /** An unstopped traversal visits exactly the compared pairs, and fails on depth exactly when one lies too deep. */
  lemma {:induction false} WholeTour(l: Tree, r: Tree, depth: nat)
    ensures PairTour(false, l, r, depth).deep <==> !WithinDepth(l, r, depth)
    ensures WithinDepth(l, r, depth) ==> PairTour(false, l, r, depth).visits == Visits(l, r)
    decreases l, 1
  {
    hide FieldTour, ItemTour, FieldVisits, ItemVisits, Sorted, Tagged;
    if depth <= MAX_DIFF_DEPTH {
      if KindOf(l) == KindOf(r) == KMapping {
        WholeFieldTour(l, r, Sorted(l.fields.Keys + r.fields.Keys), depth + 1);
        WithinFields(l, r, depth);
      } else if KindOf(l) == KindOf(r) == KSequence {
        WholeItemTour(l, r, 0, depth + 1);
      }
    }
  }

  lemma {:induction false} WholeFieldTour(l: Tree, r: Tree, keys: seq<string>, depth: nat)
    requires l.Fields? && r.Fields?
    ensures FieldTour(false, l, r, keys, depth).deep <==> !KeysWithin(l, r, keys, depth)
    ensures KeysWithin(l, r, keys, depth) ==> FieldTour(false, l, r, keys, depth).visits == FieldVisits(l, r, keys)
    decreases l, 0, |keys|
  {
    hide PairTour, Visits, WithinDepth, FieldDiff;
    if keys != [] {
      var k := keys[0];
      if k in l.fields && k in r.fields { WholeTour(l.fields[k], r.fields[k], depth); }
      WholeFieldTour(l, r, keys[1..], depth);
      assert keys == [k] + keys[1..];
    }
  }

  lemma {:induction false} WholeItemTour(l: Tree, r: Tree, i: nat, depth: nat)
    requires l.Items? && r.Items?
    ensures ItemTour(false, l, r, i, depth).deep
       <==> !forall j :: i <= j < |l.items| && j < |r.items| ==> WithinDepth(l.items[j], r.items[j], depth)
    ensures !ItemTour(false, l, r, i, depth).deep ==> ItemTour(false, l, r, i, depth).visits == ItemVisits(l, r, i)
    decreases l, 0, |l.items| - i
  {
    hide PairTour, Visits, WithinDepth, ItemDiff;
    if i < |l.items| && i < |r.items| {
      WholeTour(l.items[i], r.items[i], depth);
      WholeItemTour(l, r, i + 1, depth);
    }
  }

  /** Emitting the differences of the keys from `i` on: first those of key `i`, below it, then the rest. */
  lemma FieldStep(mode: Mode, maximum: nat, t: Tally, tokens: seq<string>, l: Tree, r: Tree, keys: seq<string>, i: nat)
    requires l.Fields? && r.Fields? && i < |keys|
    ensures EmitAll(mode, maximum, t, tokens, FieldDiffs(l, r, keys[i..]))
         == EmitAll(mode, maximum, EmitAll(mode, maximum, t, tokens + [keys[i]], FieldDiff(l, r, keys[i])), tokens, FieldDiffs(l, r, keys[i + 1..]))
  {
    hide FieldDiff, EmitAll;
    var first := FieldDiff(l, r, keys[i]);
    assert keys[i..][0] == keys[i] && keys[i..][1..] == keys[i + 1..];
    EmitAllJoin(mode, maximum, t, tokens, AllUnder(keys[i], first), FieldDiffs(l, r, keys[i + 1..]));
    EmitAllUnder(mode, maximum, t, tokens, keys[i], first);
  }

  /** The same for the items from `i` on. */
  lemma ItemStep(mode: Mode, maximum: nat, t: Tally, tokens: seq<string>, l: Tree, r: Tree, i: nat)
    requires l.Items? && r.Items? && i < Longer(|l.items|, |r.items|)
    ensures EmitAll(mode, maximum, t, tokens, ItemDiffs(l, r, i))
         == EmitAll(mode, maximum, EmitAll(mode, maximum, t, tokens + [Digits(i)], ItemDiff(l, r, i)), tokens, ItemDiffs(l, r, i + 1))
  {
    hide ItemDiff, EmitAll, Digits;
    var first := ItemDiff(l, r, i);
    EmitAllJoin(mode, maximum, t, tokens, AllUnder(Digits(i), first), ItemDiffs(l, r, i + 1));
    EmitAllUnder(mode, maximum, t, tokens, Digits(i), first);
  }

  /** The diff and the tour of one pair, kind by kind. */
  lemma PairShape(first: bool, l: Tree, r: Tree, depth: nat)
    requires depth <= MAX_DIFF_DEPTH
    ensures KindOf(l) == KindOf(r) == KMapping ==>
              && l.Fields? && r.Fields?
              && Diffs(l, r) == FieldDiffs(l, r, Sorted(l.fields.Keys + r.fields.Keys))
              && PairTour(first, l, r, depth) == Onward(1, FieldTour(first, l, r, Sorted(l.fields.Keys + r.fields.Keys), depth + 1))
    ensures KindOf(l) == KindOf(r) == KSequence ==>
              && l.Items? && r.Items? && Diffs(l, r) == ItemDiffs(l, r, 0)
              && PairTour(first, l, r, depth) == Onward(1, ItemTour(first, l, r, 0, depth + 1))
    ensures KindOf(l) != KindOf(r) || (KindOf(l) != KMapping && KindOf(l) != KSequence) ==>
              && PairTour(first, l, r, depth) == Tour(1, false)
              && Diffs(l, r) == (if KindOf(l) != KindOf(r) then [Change([], RETYPE, Some(l), Some(r))]
                                 else if PyEqual(l, r) then [] else [Change([], REPLACE, Some(l), Some(r))])
  {
    hide FieldDiffs, FieldTour, ItemDiffs, ItemTour, PyEqual, Sorted, Tagged;
  }

  lemma NoFieldsLeft(l: Tree, r: Tree, keys: seq<string>, first: bool, depth: nat)
    requires l.Fields? && r.Fields? && keys == []
    ensures FieldDiffs(l, r, keys) == [] && FieldTour(first, l, r, keys, depth) == Tour(0, false)
  {
  }

  lemma NoCommonItems(l: Tree, r: Tree, i: nat, first: bool, depth: nat)
    requires l.Items? && r.Items? && (i >= |l.items| || i >= |r.items|)
    ensures ItemTour(first, l, r, i, depth) == Tour(0, false)
  {
  }

  lemma NoItemsLeft(l: Tree, r: Tree)
    requires l.Items? && r.Items?
    ensures ItemDiffs(l, r, Longer(|l.items|, |r.items|)) == []
  {
  }

  /** A traversal stops exactly at its first difference in first-only mode. */
  lemma {:induction false} StopsAtFirst(mode: Mode, maximum: nat, t: Tally, tokens: seq<string>, cs: seq<Change>)
    requires !t.stopped
    ensures EmitAll(mode, maximum, t, tokens, cs).stopped <==> mode.FIRST? && cs != []
    decreases |cs|
  {
    if cs != [] && mode.COMPLETE? {
      StopsAtFirst(mode, maximum, Emitted(mode, maximum, t, RecordAt(tokens, cs[0])), tokens, cs[1..]);
    }
  }

  /** Nothing more is collected once the traversal has stopped, or when there is nothing to emit. */
  lemma EmitsNothing(mode: Mode, maximum: nat, t: Tally, tokens: seq<string>, cs: seq<Change>)
    requires t.stopped || cs == []
    ensures EmitAll(mode, maximum, t, tokens, cs) == t
  {
  }

  lemma WithinFields(l: Tree, r: Tree, depth: nat)
    requires KindOf(l) == KindOf(r) == KMapping && l.Fields? && r.Fields? && depth <= MAX_DIFF_DEPTH
    ensures WithinDepth(l, r, depth) <==> KeysWithin(l, r, Sorted(l.fields.Keys + r.fields.Keys), depth + 1)
  {
    var keys := Sorted(l.fields.Keys + r.fields.Keys);
    assert forall k :: k in l.fields ==> k in keys;
  }

  lemma ExtendPointer(tokens: seq<string>, token: string)
    ensures Pointer(tokens + [token]) == Extend(Pointer(tokens), token)
  {
    assert (tokens + [token])[..|tokens|] == tokens;
  }

  class Traversal {
    const mode: Mode
    const maximum: nat
    var records: seq<Record>
    var omitted: nat
    var compared: nat
    var stopped: bool

    constructor (mode: Mode, maximum: nat)
      ensures this.mode == mode && this.maximum == maximum && compared == 0
      ensures Collected() == Tally([], 0, false)
    {
      this.mode, this.maximum := mode, maximum;
      records, omitted, compared, stopped := [], 0, 0, false;
    }

    ghost function Collected(): Tally
      reads this
    {
      Tally(records, omitted, stopped)
    }

    method Emit(path: string, op: Operation, left: Option<Tree>, right: Option<Tree>)
      modifies this`records, this`omitted, this`stopped
      ensures Collected() == Emitted(mode, maximum, old(Collected()), Record(path, op, left, right))
    {
      if |records| < maximum {
        records := records + [Record(path, op, left, right)];
      } else {
        omitted := omitted + 1;
      }
      if mode == FIRST { stopped := true; }
    }

    method EmitOne(c: Change, path: string, ghost tokens: seq<string>)
      requires c.path == [] && path == Pointer(tokens) && !stopped
      modifies this`records, this`omitted, this`stopped
      ensures Collected() == EmitAll(mode, maximum, old(Collected()), tokens, [c])
      ensures stopped == mode.FIRST?
    {
      assert tokens + [] == tokens;
      Emit(path, c.op, c.left, c.right);
    }

    /** What covering a piece of the comparison promises: `ok` is false exactly when a bound is crossed. */
    ghost predicate Covered(before: Tally, spent: nat, tokens: seq<string>, cs: seq<Change>, tour: Tour, ok: bool)
      reads this
    {
      && (ok <==> tour.Fits(spent))
      && (ok ==> Collected() == EmitAll(mode, maximum, before, tokens, cs) && compared == spent + tour.visits)
    }

    /** `visit`. */
    method Visit(l: Tree, r: Tree, path: string, ghost tokens: seq<string>, depth: nat) returns (ok: bool)
      requires path == Pointer(tokens) && compared <= MAX_COMPARED_ITEMS
      modifies this`records, this`omitted, this`compared, this`stopped
      ensures old(stopped) ==> ok && Collected() == old(Collected()) && compared == old(compared)
      ensures !old(stopped) ==>
                Covered(old(Collected()), old(compared), tokens, Diffs(l, r), PairTour(mode.FIRST?, l, r, depth), ok)
      decreases l, 1
    {
      hide FieldDiffs, ItemDiffs, FieldTour, ItemTour, PyEqual, Pointer, EmitAll, Diffs, Tagged, Sorted;
      if stopped { return true; }
      if depth > MAX_DIFF_DEPTH { return false; }
      PairShape(mode.FIRST?, l, r, depth);
      compared := compared + 1;
      if compared > MAX_COMPARED_ITEMS { return false; }
      if KindOf(l) != KindOf(r) {
        EmitOne(Change([], RETYPE, Some(l), Some(r)), path, tokens);
        return true;
      }
      match KindOf(l) {
        case KMapping => ok := VisitFields(l, r, path, tokens, depth);
        case KSequence => ok := VisitItems(l, r, path, tokens, depth);
        case _ =>
          if !PyEqual(l, r) {
            EmitOne(Change([], REPLACE, Some(l), Some(r)), path, tokens);
          } else {
            EmitsNothing(mode, maximum, Collected(), tokens, []);
          }
          ok := true;
      }
    }

    /** The item loops of `visit`: common positions first, then the tails. */
    method VisitItems(l: Tree, r: Tree, path: string, ghost tokens: seq<string>, depth: nat) returns (ok: bool)
      requires KindOf(l) == KindOf(r) == KSequence && l.Items? && r.Items?
      requires path == Pointer(tokens) && compared <= MAX_COMPARED_ITEMS && !stopped
      modifies this`records, this`omitted, this`compared, this`stopped
      ensures Covered(old(Collected()), old(compared), tokens, ItemDiffs(l, r, 0), ItemTour(mode.FIRST?, l, r, 0, depth + 1), ok)
      decreases l, 0
    {
      hide Diffs, PairTour, ItemTour, Pointer, KindOf, Digits, EmitAll, ItemDiffs, ItemDiff;
      ghost var first := mode.FIRST?;
      ghost var goal := EmitAll(mode, maximum, Collected(), tokens, ItemDiffs(l, r, 0));
      ghost var all := ItemTour(first, l, r, 0, depth + 1);
      var common := if |l.items| < |r.items| then |l.items| else |r.items|;
      for i := 0 to common
        invariant !stopped && old(compared) <= compared <= MAX_COMPARED_ITEMS
        invariant EmitAll(mode, maximum, Collected(), tokens, ItemDiffs(l, r, i)) == goal
        invariant all == Onward(compared - old(compared), ItemTour(first, l, r, i, depth + 1))
      {
        ItemStep(mode, maximum, Collected(), tokens, l, r, i);
        ItemTourStep(first, l, r, i, depth + 1);
        ExtendPointer(tokens, Digits(i));
        StopsAtFirst(mode, maximum, Collected(), tokens + [Digits(i)], Diffs(l.items[i], r.items[i]));
        ok := Visit(l.items[i], r.items[i], Extend(path, Digits(i)), tokens + [Digits(i)], depth + 1);
        if !ok { return; }
        if stopped {
          EmitsNothing(mode, maximum, Collected(), tokens, ItemDiffs(l, r, i + 1));
          return true;
        }
      }
      NoCommonItems(l, r, common, first, depth + 1);
      VisitTails(l, r, path, tokens, common);
      ok := true;
    }

    /** The second and third item loops of `visit`: what only one side has. */
    method VisitTails(l: Tree, r: Tree, path: string, ghost tokens: seq<string>, common: nat)
      requires l.Items? && r.Items? && common == (if |l.items| < |r.items| then |l.items| else |r.items|)
      requires path == Pointer(tokens) && !stopped
      modifies this`records, this`omitted, this`stopped
      ensures Collected() == EmitAll(mode, maximum, old(Collected()), tokens, ItemDiffs(l, r, common))
      ensures mode.COMPLETE? ==> !stopped
    {
      hide Diffs, Pointer, Digits, EmitAll, ItemDiffs;
      ghost var goal := EmitAll(mode, maximum, Collected(), tokens, ItemDiffs(l, r, common));
      for i := common to |l.items|
        invariant !stopped && EmitAll(mode, maximum, Collected(), tokens, ItemDiffs(l, r, i)) == goal
      {
        ItemStep(mode, maximum, Collected(), tokens, l, r, i);
        ExtendPointer(tokens, Digits(i));
        EmitOne(Change([], REMOVE, Some(l.items[i]), None), Extend(path, Digits(i)), tokens + [Digits(i)]);
        if stopped {
          EmitsNothing(mode, maximum, Collected(), tokens, ItemDiffs(l, r, i + 1));
          return;
        }
      }
      if common == |l.items| {
        for i := common to |r.items|
          invariant !stopped && EmitAll(mode, maximum, Collected(), tokens, ItemDiffs(l, r, i)) == goal
        {
          ItemStep(mode, maximum, Collected(), tokens, l, r, i);
          ExtendPointer(tokens, Digits(i));
          EmitOne(Change([], ADD, None, Some(r.items[i])), Extend(path, Digits(i)), tokens + [Digits(i)]);
          if stopped {
            EmitsNothing(mode, maximum, Collected(), tokens, ItemDiffs(l, r, i + 1));
            return;
          }
        }
      }
      NoItemsLeft(l, r);
      EmitsNothing(mode, maximum, Collected(), tokens, ItemDiffs(l, r, Longer(|l.items|, |r.items|)));
    }

    /** The key loop of `visit`, over the sorted union of the keys. */
    method VisitFields(l: Tree, r: Tree, path: string, ghost tokens: seq<string>, depth: nat) returns (ok: bool)
      requires KindOf(l) == KindOf(r) == KMapping && l.Fields? && r.Fields?
      requires path == Pointer(tokens) && compared <= MAX_COMPARED_ITEMS && !stopped
      modifies this`records, this`omitted, this`compared, this`stopped
      ensures Covered(old(Collected()), old(compared), tokens, FieldDiffs(l, r, Sorted(l.fields.Keys + r.fields.Keys)),
                      FieldTour(mode.FIRST?, l, r, Sorted(l.fields.Keys + r.fields.Keys), depth + 1), ok)
      decreases l, 0
    {
      hide Diffs, PairTour, FieldTour, Pointer, KindOf, EmitAll, FieldDiffs, Sorted, Emitted, Extend;
      ghost var first := mode.FIRST?;
      var keys := Sorted(l.fields.Keys + r.fields.Keys);
      ghost var goal := EmitAll(mode, maximum, Collected(), tokens, FieldDiffs(l, r, keys));
      ghost var all := FieldTour(first, l, r, keys, depth + 1);
      assert keys[0..] == keys;
      for i := 0 to |keys|
        invariant !stopped && old(compared) <= compared <= MAX_COMPARED_ITEMS
        invariant EmitAll(mode, maximum, Collected(), tokens, FieldDiffs(l, r, keys[i..])) == goal
        invariant all == Onward(compared - old(compared), FieldTour(first, l, r, keys[i..], depth + 1))
      {
        var key := keys[i];
        assert key in l.fields || key in r.fields by { assert key in keys; }
        FieldStep(mode, maximum, Collected(), tokens, l, r, keys, i);
        FieldTourStep(first, l, r, keys, i, depth + 1);
        ExtendPointer(tokens, key);
        StopsAtFirst(mode, maximum, Collected(), tokens + [key], FieldDiff(l, r, key));
        var child := Extend(path, key);
        if key !in l.fields {
          EmitOne(Change([], ADD, None, Some(r.fields[key])), child, tokens + [key]);
        } else if key !in r.fields {
          EmitOne(Change([], REMOVE, Some(l.fields[key]), None), child, tokens + [key]);
        } else {
          ok := Visit(l.fields[key], r.fields[key], child, tokens + [key], depth + 1);
          if !ok { return; }
        }
        if stopped {
          EmitsNothing(mode, maximum, Collected(), tokens, FieldDiffs(l, r, keys[i + 1..]));
          return true;
        }
      }
      NoFieldsLeft(l, r, keys[|keys|..], first, depth + 1);
      EmitsNothing(mode, maximum, Collected(), tokens, FieldDiffs(l, r, keys[|keys|..]));
      ok := true;
    }
  }

  // ---------------------------------------------------------------- what one comparison returns

  function AllRecords(cs: seq<Change>): (rs: seq<Record>)
    ensures |rs| == |cs| && forall i :: 0 <= i < |cs| ==> rs[i] == RecordAt([], cs[i])
  {
    seq(|cs|, i requires 0 <= i < |cs| => RecordAt([], cs[i]))
  }

  /** A complete traversal with no room left only counts. */
  lemma {:induction false} FullCounts(maximum: nat, t: Tally, cs: seq<Change>)
    requires !t.stopped && |t.records| == maximum
    ensures EmitAll(COMPLETE, maximum, t, [], cs) == Tally(t.records, t.omitted + |cs|, false)
    decreases |cs|
  {
    if cs != [] { FullCounts(maximum, t.(omitted := t.omitted + 1), cs[1..]); }
  }

  lemma {:induction false} CompleteEmits(maximum: nat, kept: seq<Record>, cs: seq<Change>)
    requires |kept| <= maximum
    ensures EmitAll(COMPLETE, maximum, Tally(kept, 0, false), [], cs)
         == Tally(kept + AllRecords(cs)[..Fitting(maximum, kept, cs)], |cs| - Fitting(maximum, kept, cs), false)
    decreases |cs|
  {
    hide RecordAt, EmitAll, AllRecords;
    EmptyTail(kept, cs);
    if cs == [] {
      EmitsNothing(COMPLETE, maximum, Tally(kept, 0, false), [], cs);
    } else if |kept| == maximum {
      FullCounts(maximum, Tally(kept, 0, false), cs);
    } else {
      KeepsOne(maximum, kept, cs);
      CompleteEmits(maximum, kept + [RecordAt([], cs[0])], cs[1..]);
      KeptTail(kept, cs, Fitting(maximum, kept + [RecordAt([], cs[0])], cs[1..]));
    }
  }

  lemma KeepsOne(maximum: nat, kept: seq<Record>, cs: seq<Change>)
    requires |kept| < maximum && cs != []
    ensures EmitAll(COMPLETE, maximum, Tally(kept, 0, false), [], cs)
         == EmitAll(COMPLETE, maximum, Tally(kept + [RecordAt([], cs[0])], 0, false), [], cs[1..])
  {
    hide RecordAt;
  }

  lemma KeptTail(kept: seq<Record>, cs: seq<Change>, n: nat)
    requires cs != [] && n <= |cs| - 1
    ensures (kept + [RecordAt([], cs[0])]) + AllRecords(cs[1..])[..n] == kept + AllRecords(cs)[..n + 1]
  {
    hide RecordAt;
    assert AllRecords(cs)[..n + 1] == [RecordAt([], cs[0])] + AllRecords(cs[1..])[..n];
  }

  lemma EmptyTail(kept: seq<Record>, cs: seq<Change>)
    ensures kept + AllRecords(cs)[..0] == kept
  {
  }

  /** How many more records fit. */
  function Fitting(maximum: nat, kept: seq<Record>, cs: seq<Change>): (n: nat)
    requires |kept| <= maximum
    ensures n <= |cs|
  {
    if |cs| < maximum - |kept| then |cs| else maximum - |kept|
  }

  datatype Report = Report(equal: bool, records: seq<Record>, truncated: bool, omitted: nat)

  datatype Comparison = Compared(report: Report) | BoundError

  /** `compare_inspection_documents` on the two evidence trees.  A complete comparison lists the
      full diff up to the limit and counts the rest; a first-only one lists exactly its head. */
  method Compare(l: Tree, r: Tree, mode: Mode, maxRecords: int) returns (c: Comparison)
    ensures c.Compared? <==> 1 <= maxRecords <= HARD_MAX_DIFF_RECORDS && PairTour(mode.FIRST?, l, r, 0).Fits(0)
    ensures c.Compared? ==> (c.report.equal <==> Same(l, r))
    ensures c.Compared? && mode.COMPLETE? ==>
              && |c.report.records| + c.report.omitted == |Diffs(l, r)|
              && |c.report.records| <= maxRecords
              && (c.report.truncated ==> |c.report.records| == maxRecords)
              && c.report.records == AllRecords(Diffs(l, r))[..|c.report.records|]
    ensures c.Compared? && mode.FIRST? ==>
              && !c.report.truncated
              && c.report.records == AllRecords(Diffs(l, r))[..if Diffs(l, r) == [] then 0 else 1]
    ensures c.Compared? ==> (c.report.truncated <==> c.report.omitted > 0)
  {
    hide Diffs, EmitAll, PairTour, Same, RecordAt, Emitted;
    if maxRecords < 1 || HARD_MAX_DIFF_RECORDS < maxRecords { return BoundError; }
    var maximum: nat := if mode == FIRST then 1 else maxRecords;
    var traversal := new Traversal(mode, maximum);
    var ok := traversal.Visit(l, r, "", [], 0);
    if !ok { return BoundError; }
    SilentExactlyWhenSame(l, r);
    if mode == FIRST {
      FirstEmits(Diffs(l, r));
    } else {
      CompleteEmits(maximum, [], Diffs(l, r));
    }
    c := Compared(Report(traversal.records == [] && traversal.omitted == 0, traversal.records,
                         traversal.omitted > 0, traversal.omitted));
  }

  lemma FirstEmits(cs: seq<Change>)
    ensures EmitAll(FIRST, 1, Tally([], 0, false), [], cs)
         == Tally(AllRecords(cs)[..if cs == [] then 0 else 1], 0, cs != [])
  {
    if cs != [] {
      assert AllRecords(cs)[..1] == [] + [RecordAt([], cs[0])];
    }
  }

  /** A complete comparison fails exactly when a compared pair is too deep or there are too many pairs. */
  lemma CompleteBounds(l: Tree, r: Tree)
    ensures PairTour(false, l, r, 0).Fits(0) <==> WithinDepth(l, r, 0) && Visits(l, r) <= MAX_COMPARED_ITEMS
  {
    WholeTour(l, r, 0);
  }
}
