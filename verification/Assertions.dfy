/** Assertion evaluation: greedy subsequence matching, and resolving a JSON Pointer in evidence.
    Every path a diff reports resolves, on each side, to the value it reports there. */
module Assertions {
  import opened Order
  import opened Values
  import opened Encoding
  import opened Pointers
  import opened SemanticDiff

  // ---------------------------------------------------------------- ordered subsequences

  /** Positions of `observed`, ascending, that match `expected` one by one. */
  ghost predicate Embeds<T(!new)>(same: (T, T) -> bool, observed: seq<T>, expected: seq<T>, at: seq<nat>) {
    && |at| == |expected|
    && (forall k :: 0 <= k < |at| ==> at[k] < |observed| && same(observed[at[k]], expected[k]))
    && forall j, k :: 0 <= j < k < |at| ==> at[j] < at[k]
  }

  /** `_subsequence`: the greedy scan finds an embedding whenever there is one, for any comparison. */
  method Subsequence<T(!new)>(same: (T, T) -> bool, observed: seq<T>, expected: seq<T>) returns (found: bool)
    ensures found <==> exists at :: Embeds(same, observed, expected, at)
  {
    var position := 0;
    ghost var at: seq<nat> := [];
    for i := 0 to |observed|
      invariant position == |at| <= |expected|
      invariant Embeds(same, observed[..i], expected[..position], at)
      invariant forall other :: Embeds(same, observed, expected, other) ==> Ahead(at, other, i)
    {
      if position < |expected| && same(observed[i], expected[position]) {
        EmbedsMore(same, observed, expected, at, i);
        at := at + [i];
        position := position + 1;
      } else {
        forall other | Embeds(same, observed, expected, other) ensures Ahead(at, other, i + 1) {
          assert Ahead(at, other, i);
          if |at| < |other| { assert other[|at|] != i; }
        }
        assert Embeds(same, observed[..i + 1], expected[..position], at);
      }
    }
    found := position == |expected|;
    assert observed[..|observed|] == observed;
    if found {
      assert expected[..position] == expected;
      assert Embeds(same, observed, expected, at);
    } else {
      forall other ensures !Embeds(same, observed, expected, other) {
        if Embeds(same, observed, expected, other) { assert false; }
      }
    }
  }

  /** The greedy positions are never behind those of another embedding: what it has not matched yet
      the other embedding matches at `i` or later. */
  ghost predicate Ahead(at: seq<nat>, other: seq<nat>, i: nat) {
    |at| < |other| ==> other[|at|] >= i
  }

  lemma EmbedsMore<T(!new)>(same: (T, T) -> bool, observed: seq<T>, expected: seq<T>, at: seq<nat>, i: nat)
    requires i < |observed| && |at| < |expected| && same(observed[i], expected[|at|])
    requires Embeds(same, observed[..i], expected[..|at|], at)
    requires forall other :: Embeds(same, observed, expected, other) ==> Ahead(at, other, i)
    ensures Embeds(same, observed[..i + 1], expected[..|at| + 1], at + [i])
    ensures forall other :: Embeds(same, observed, expected, other) ==> Ahead(at + [i], other, i + 1)
  {
    forall other | Embeds(same, observed, expected, other) ensures Ahead(at + [i], other, i + 1) {
      assert Ahead(at, other, i);
      if |at| + 1 < |other| { assert other[|at|] < other[|at| + 1]; }
    }
  }

  // ---------------------------------------------------------------- resolving a pointer

  /** Python's `str.isdigit`, and `int` as `read`.  Both take digits of every script, and `int` raises on
      some texts that `isdigit` accepts. */
  datatype Numerals = Numerals(isdigit: string -> bool, read: string -> Option<nat>)

  /** They read every decimal number as itself. */
  ghost predicate Decimal(num: Numerals) {
    forall n: nat :: num.isdigit(Digits(n)) && num.read(Digits(n)) == Some(n)
  }

  /** The token has the form of a list index: digits without a leading zero. */
  predicate IndexForm(num: Numerals, token: string) {
    num.isdigit(token) && !(|token| > 1 && token[0] == '0')
  }

  /** Evidence that is unavailable or redacted, in place of a value. */
  predicate Marker(t: Tree) {
    && t.Fields? && t.fields.Keys == {"availability", "reason"}
    && t.fields["availability"].Text? && t.fields["availability"].text in {"unavailable", "redacted"}
    && t.fields["reason"].Text?
  }

  /** Frozen mappings cannot be members of a Python set, nor can tuples that hold one. */
  predicate Hashable(t: Tree) {
    match t
    case Fields(_) => false
    case Items(items) => forall i :: 0 <= i < |items| ==> Hashable(items[i])
    case _ => true
  }

  /** Testing this tree for a marker raises. */
  predicate Untestable(t: Tree) {
    t.Fields? && t.fields.Keys == {"availability", "reason"} && !Hashable(t.fields["availability"])
  }

  /** Taking this step raises: the token has the form of an index that `int` does not read. */
  predicate Unreadable(num: Numerals, t: Tree, token: string) {
    t.Items? && IndexForm(num, token) && num.read(token) == None
  }

  datatype Resolution = Found(tree: Tree) | Absent | Withheld(availability: string, reason: string) | Raised

  function WithheldBy(t: Tree): Resolution
    requires Marker(t)
  {
    Withheld(t.fields["availability"].text, t.fields["reason"].text)
  }

  function Child(num: Numerals, t: Tree, token: string): Option<Tree> {
    match t
    case Fields(fields) => if token in fields then Some(fields[token]) else None
    case Items(items) =>
      if IndexForm(num, token) && num.read(token).Some? && num.read(token).value < |items| then Some(items[num.read(token).value]) else None
    case _ => None
  }

  /** The node at a token list, ignoring markers. */
  function At(num: Numerals, t: Tree, tokens: seq<string>): Option<Tree>
    decreases |tokens|
  {
    if tokens == [] then Some(t)
    else
      match Child(num, t, tokens[0])
      case None => None
      case Some(child) => At(num, child, tokens[1..])
  }

  /** No node on the way, the ends included, is a marker or cannot be tested for one. */
  predicate Open(num: Numerals, t: Tree, tokens: seq<string>)
    decreases |tokens|
  {
    && !Marker(t) && !Untestable(t)
    && (tokens != [] && Child(num, t, tokens[0]).Some? ==> Open(num, Child(num, t, tokens[0]).value, tokens[1..]))
  }

  /** Every step along the tokens can be taken or found missing. */
  predicate Readable(num: Numerals, t: Tree, tokens: seq<string>)
    decreases |tokens|
  {
    tokens == []
    || (&& !Unreadable(num, t, tokens[0])
        && (Child(num, t, tokens[0]).Some? ==> Readable(num, Child(num, t, tokens[0]).value, tokens[1..])))
  }

  /** The first marker on the way decides, unless a step before it raises; otherwise the node at the end,
      if there is one. */
  function Walk(num: Numerals, t: Tree, tokens: seq<string>): Resolution
    decreases |tokens|
  {
    if Untestable(t) then Raised
    else if Marker(t) then WithheldBy(t)
    else if tokens == [] then Found(t)
    else if Unreadable(num, t, tokens[0]) then Raised
    else
      match Child(num, t, tokens[0])
      case None => Absent
      case Some(child) => Walk(num, child, tokens[1..])
  }

  /** The nodes stepped through, each the child of the one before, none of them a marker, untestable or
      with a step that cannot be read. */
  predicate Way(num: Numerals, t: Tree, tokens: seq<string>, nodes: seq<Tree>) {
    && nodes != [] && |nodes| <= |tokens| + 1 && nodes[0] == t
    && forall i :: 0 <= i < |nodes| - 1 ==>
         !Untestable(nodes[i]) && !Marker(nodes[i]) && !Unreadable(num, nodes[i], tokens[i]) && Child(num, nodes[i], tokens[i]) == Some(nodes[i + 1])
  }

  /** What is found where the way ends. */
  predicate EndsAt(num: Numerals, tokens: seq<string>, nodes: seq<Tree>, r: Resolution)
    requires nodes != [] && |nodes| <= |tokens| + 1
  {
    var last, n := nodes[|nodes| - 1], |nodes| - 1;
    if Untestable(last) then r == Raised
    else if Marker(last) then r == Withheld(last.fields["availability"].text, last.fields["reason"].text)
    else if n == |tokens| then r == Found(last)
    else if Unreadable(num, last, tokens[n]) then r == Raised
    else Child(num, last, tokens[n]) == None && r == Absent
  }

  /** Resolution follows the tokens until the first marker, the first step that raises or is missing, or the end. */
  lemma {:induction false} WalkExactly(num: Numerals, t: Tree, tokens: seq<string>, r: Resolution)
    ensures Walk(num, t, tokens) == r <==> exists nodes: seq<Tree> :: Way(num, t, tokens, nodes) && EndsAt(num, tokens, nodes, r)
    decreases |tokens|
  {
    hide Marker, Untestable, Unreadable, Child;
    if !Untestable(t) && !Marker(t) && tokens != [] && !Unreadable(num, t, tokens[0]) && Child(num, t, tokens[0]).Some? {
      var next := Child(num, t, tokens[0]).value;
      WalkExactly(num, next, tokens[1..], r);
      if rest: seq<Tree> :| Way(num, next, tokens[1..], rest) && EndsAt(num, tokens[1..], rest, r) { WayLonger(num, t, tokens, next, rest, r); }
      if nodes: seq<Tree> :| Way(num, t, tokens, nodes) && EndsAt(num, tokens, nodes, r) { WayTail(num, t, tokens, next, nodes, r); }
    } else {
      if EndsAt(num, tokens, [t], r) { assert Way(num, t, tokens, [t]); }
      forall nodes: seq<Tree> | Way(num, t, tokens, nodes) && EndsAt(num, tokens, nodes, r) ensures nodes == [t] { if |nodes| > 1 { WayGoes(num, t, tokens, nodes); } }
      assert Walk(num, t, tokens) == r <==> EndsAt(num, tokens, [t], r);
    }
  }

  lemma WayGoes(num: Numerals, t: Tree, tokens: seq<string>, nodes: seq<Tree>)
    requires Way(num, t, tokens, nodes) && |nodes| > 1
    ensures !Untestable(t) && !Marker(t) && !Unreadable(num, t, tokens[0]) && Child(num, t, tokens[0]) == Some(nodes[1])
  {
    hide Marker, Untestable, Unreadable, Child;
    var i := 0;
    assert Child(num, nodes[i], tokens[i]) == Some(nodes[i + 1]);
  }

  lemma WayLonger(num: Numerals, t: Tree, tokens: seq<string>, next: Tree, rest: seq<Tree>, r: Resolution)
    requires tokens != [] && !Untestable(t) && !Marker(t) && !Unreadable(num, t, tokens[0]) && Child(num, t, tokens[0]) == Some(next)
    requires Way(num, next, tokens[1..], rest) && EndsAt(num, tokens[1..], rest, r)
    ensures exists nodes: seq<Tree> :: Way(num, t, tokens, nodes) && EndsAt(num, tokens, nodes, r)
  {
    hide Marker, Untestable, Unreadable, Child;
    var all := [t] + rest;
    assert Way(num, t, tokens, all);
    assert EndsAt(num, tokens, all, r);
  }

  lemma WayTail(num: Numerals, t: Tree, tokens: seq<string>, next: Tree, nodes: seq<Tree>, r: Resolution)
    requires tokens != [] && !Untestable(t) && !Marker(t) && !Unreadable(num, t, tokens[0]) && Child(num, t, tokens[0]) == Some(next)
    requires Way(num, t, tokens, nodes) && EndsAt(num, tokens, nodes, r)
    ensures exists rest: seq<Tree> :: Way(num, next, tokens[1..], rest) && EndsAt(num, tokens[1..], rest, r)
  {
    hide Marker, Untestable, Unreadable, Child;
    assert |nodes| > 1;
    assert Way(num, next, tokens[1..], nodes[1..]);
    assert EndsAt(num, tokens[1..], nodes[1..], r);
  }

  /** `_resolve` from the document's root. */
  method Resolve(num: Numerals, root: Tree, pointer: string) returns (r: Resolution)
    ensures r == Walk(num, root, Tokens(pointer))
  {
    hide Marker, Untestable, Unreadable, Child, Tokens;
    var tokens := Tokens(pointer);
    var current := root;
    assert tokens[0..] == tokens;
    for i := 0 to |tokens|
      invariant Walk(num, root, tokens) == Walk(num, current, tokens[i..])
    {
      assert tokens[i..][0] == tokens[i] && tokens[i..][1..] == tokens[i + 1..];
      if Untestable(current) { return Raised; }
      if Marker(current) { return WithheldBy(current); }
      if Unreadable(num, current, tokens[i]) { return Raised; }
      var child := Child(num, current, tokens[i]);
      if child == None { return Absent; }
      current := child.value;
      if Untestable(current) { return Raised; }
      if Marker(current) { return WithheldBy(current); }
    }
    if Untestable(current) { return Raised; }
    if Marker(current) { return WithheldBy(current); }
    r := Found(current);
  }

  /** Where no marker is met and every step can be read, resolving finds exactly the node at the tokens. */
  lemma {:induction false} WalkIsAt(num: Numerals, t: Tree, tokens: seq<string>)
    requires Open(num, t, tokens) && Readable(num, t, tokens)
    ensures Walk(num, t, tokens) == match At(num, t, tokens) case None => Absent case Some(x) => Found(x)
    decreases |tokens|
  {
    hide Marker, Untestable, Unreadable, Child;
    if tokens != [] && Child(num, t, tokens[0]).Some? { WalkIsAt(num, Child(num, t, tokens[0]).value, tokens[1..]); }
  }

  // ---------------------------------------------------------------- decimal indexes

  lemma DigitsIndex(num: Numerals, n: nat)
    requires Decimal(num)
    ensures IndexForm(num, Digits(n)) && num.read(Digits(n)) == Some(n)
  {
    DigitsLead(n);
    LongerDigits(n);
  }

  // ---------------------------------------------------------------- diff paths address what they report

  /** The value a change reports at its path on one side, as a resolution finds it. */
  predicate Addresses(num: Numerals, l: Tree, r: Tree, c: Change) {
    && At(num, l, c.path) == c.left && At(num, r, c.path) == c.right
    && Readable(num, l, c.path) && Readable(num, r, c.path)
  }

  /** Every change of a diff addresses its own values on both sides. */
  lemma {:induction false} DiffsAddress(num: Numerals, l: Tree, r: Tree, n: nat)
    requires Decimal(num) && n < |Diffs(l, r)|
    ensures Addresses(num, l, r, Diffs(l, r)[n])
    decreases l, 1
  {
    if KindOf(l) == KindOf(r) == KMapping {
      MappingDiffs(l, r);
      FieldDiffsAddress(num, l, r, Sorted(l.fields.Keys + r.fields.Keys), n);
    } else if KindOf(l) == KindOf(r) == KSequence {
      SequenceDiffs(l, r);
      ItemDiffsAddress(num, l, r, 0, n);
    }
  }

  lemma {:induction false} FieldDiffsAddress(num: Numerals, l: Tree, r: Tree, keys: seq<string>, n: nat)
    requires Decimal(num) && l.Fields? && r.Fields? && n < |FieldDiffs(l, r, keys)|
    ensures Addresses(num, l, r, FieldDiffs(l, r, keys)[n])
    decreases l, 0, |keys|
  {
    hide Diffs;
    var k := keys[0];
    var first := FieldDiff(l, r, k);
    if n < |first| {
      if k in l.fields && k in r.fields { DiffsAddress(num, l.fields[k], r.fields[k], n); }
      assert FieldDiffs(l, r, keys)[n] == Under(k, first[n]);
      BelowToken(num, l, r, k, first[n]);
    } else {
      FieldDiffsAddress(num, l, r, keys[1..], n - |first|);
      assert FieldDiffs(l, r, keys)[n] == FieldDiffs(l, r, keys[1..])[n - |first|];
    }
  }

  lemma {:induction false} ItemDiffsAddress(num: Numerals, l: Tree, r: Tree, i: nat, n: nat)
    requires Decimal(num) && l.Items? && r.Items? && n < |ItemDiffs(l, r, i)|
    ensures Addresses(num, l, r, ItemDiffs(l, r, i)[n])
    decreases l, 0, Longer(|l.items|, |r.items|) - i
  {
    hide Diffs, Digits;
    var first := ItemDiff(l, r, i);
    if n < |first| {
      if i < |l.items| && i < |r.items| { DiffsAddress(num, l.items[i], r.items[i], n); }
      assert ItemDiffs(l, r, i)[n] == Under(Digits(i), first[n]);
      DigitsIndex(num, i);
      BelowToken(num, l, r, Digits(i), first[n]);
    } else {
      ItemDiffsAddress(num, l, r, i + 1, n - |first|);
      assert ItemDiffs(l, r, i)[n] == ItemDiffs(l, r, i + 1)[n - |first|];
    }
  }

  /** What lies at a path inside the child, or nothing when there is no child. */
  function Inside(num: Numerals, child: Option<Tree>, path: seq<string>): Option<Tree> {
    match child case None => None case Some(t) => At(num, t, path)
  }

  predicate ReadableInside(num: Numerals, child: Option<Tree>, path: seq<string>) {
    child.Some? ==> Readable(num, child.value, path)
  }

  /** A change right for the children below one token is right below that token. */
  lemma BelowToken(num: Numerals, l: Tree, r: Tree, token: string, c: Change)
    requires Inside(num, Child(num, l, token), c.path) == c.left && Inside(num, Child(num, r, token), c.path) == c.right
    requires !Unreadable(num, l, token) && ReadableInside(num, Child(num, l, token), c.path)
    requires !Unreadable(num, r, token) && ReadableInside(num, Child(num, r, token), c.path)
    ensures Addresses(num, l, r, Under(token, c))
  {
    assert ([token] + c.path)[1..] == c.path;
  }

  /** The pointer of a reported path resolves to the reported value when no marker is met, and to
      nothing where the side has none. */
  lemma ReportedPathsResolve(num: Numerals, l: Tree, r: Tree, n: nat)
    requires Decimal(num) && n < |Diffs(l, r)|
    ensures var c := Diffs(l, r)[n];
            var p := Pointer(c.path);
            && (Open(num, l, c.path) ==> Walk(num, l, Tokens(p)) == match c.left case None => Absent case Some(x) => Found(x))
            && (Open(num, r, c.path) ==> Walk(num, r, Tokens(p)) == match c.right case None => Absent case Some(x) => Found(x))
  {
    hide Diffs, At, Walk, Open, Tokens, Pointer;
    var c := Diffs(l, r)[n];
    DiffsAddress(num, l, r, n);
    TokensOfPointer(c.path);
    if Open(num, l, c.path) { WalkIsAt(num, l, c.path); }
    if Open(num, r, c.path) { WalkIsAt(num, r, c.path); }
  }
}
