/** JSON Pointers (RFC 6901, sections 3 and 4) as the diff builds them, the assertions split
    them, and the assertion model validates them. */
module Pointers {

  const MAX_PATH_DEPTH: nat := 64

  // ---------------------------------------------------------------- the string operations used

  /** `s.replace(c, to)` for a one-character pattern. */
  function ReplaceChar(s: string, c: char, to: string): string {
    if s == [] then [] else (if s[0] == c then to else [s[0]]) + ReplaceChar(s[1..], c, to)
  }

  /** `s.replace(ab, to)` for a two-character pattern, left to right without overlap. */
  function ReplacePair(s: string, a: char, b: char, to: char): string {
    if |s| < 2 then s
    else if s[0] == a && s[1] == b then [to] + ReplacePair(s[2..], a, b, to)
    else [s[0]] + ReplacePair(s[1..], a, b, to)
  }

  /** `s.split("/")`: never empty. */
  function Split(s: string): (parts: seq<string>)
    ensures parts != []
  {
    if s == [] then [""]
    else
      var rest := Split(s[1..]);
      if s[0] == '/' then [""] + rest else [[s[0]] + rest[0]] + rest[1..]
  }

  // ---------------------------------------------------------------- building and splitting

  function Escape(token: string): string {
    ReplaceChar(ReplaceChar(token, '~', "~0"), '/', "~1")
  }

  function Unescape(token: string): string {
    ReplacePair(ReplacePair(token, '~', '1', '/'), '~', '0', '~')
  }

  /** `_pointer`: one more token at the end of a path. */
  function Extend(path: string, token: string): string {
    path + "/" + Escape(token)
  }

  function Pointer(tokens: seq<string>): string {
    if tokens == [] then "" else Extend(Pointer(tokens[..|tokens| - 1]), tokens[|tokens| - 1])
  }

  function UnescapeAll(parts: seq<string>): (r: seq<string>)
    ensures |r| == |parts| && forall i :: 0 <= i < |r| ==> r[i] == Unescape(parts[i])
  {
    seq(|parts|, i requires 0 <= i < |parts| => Unescape(parts[i]))
  }

  /** `_tokens`. */
  function Tokens(pointer: string): seq<string> {
    if pointer == "" then [] else UnescapeAll(Split(pointer[1..]))
  }

  // ---------------------------------------------------------------- escaping one token

  lemma {:induction false} ReplaceJoins(a: string, b: string, c: char, to: string)
    ensures ReplaceChar(a + b, c, to) == ReplaceChar(a, c, to) + ReplaceChar(b, c, to)
    decreases |a|
  {
    if a == [] {
      assert a + b == b;
    } else {
      assert (a + b)[1..] == a[1..] + b;
      ReplaceJoins(a[1..], b, c, to);
    }
  }

  /** One escaped character. */
  function Coded(c: char): string {
    if c == '~' then "~0" else if c == '/' then "~1" else [c]
  }

  lemma {:induction false} EscapeHead(c: char, rest: string)
    ensures Escape([c] + rest) == Coded(c) + Escape(rest)
  {
    var once := ReplaceChar(rest, '~', "~0");
    assert ([c] + rest)[1..] == rest;
    var head := if c == '~' then "~0" else [c];
    assert ReplaceChar([c] + rest, '~', "~0") == head + once;
    ReplaceJoins(head, once, '/', "~1");
    assert "~0"[1..] == "0" && "0"[1..] == "";
    assert [c][1..] == "";
    assert ReplaceChar(head, '/', "~1") == Coded(c);
  }

  lemma {:induction false} EscapeRestores(t: string)
    ensures ReplacePair(Escape(t), '~', '1', '/') == ReplaceChar(t, '~', "~0")
    decreases |t|
  {
    if t != [] {
      EscapeRestores(t[1..]);
      assert t == [t[0]] + t[1..];
      EscapeHead(t[0], t[1..]);
      var rest := Escape(t[1..]);
      if t[0] == '/' {
        assert ("~1" + rest)[2..] == rest;
      } else if t[0] == '~' {
        assert ("~0" + rest)[1..] == "0" + rest;
        PairSkips('0', rest, '~', '1', '/');
        assert ReplacePair("~0" + rest, '~', '1', '/') == "~" + ReplacePair("0" + rest, '~', '1', '/');
      } else {
        PairSkips(t[0], rest, '~', '1', '/');
      }
    }
  }

  /** A character that cannot start the pattern is copied. */
  lemma PairSkips(c: char, rest: string, a: char, b: char, to: char)
    requires c != a
    ensures ReplacePair([c] + rest, a, b, to) == [c] + ReplacePair(rest, a, b, to)
  {
    assert ([c] + rest)[1..] == rest;
  }

  lemma {:induction false} TildesRestore(t: string)
    ensures ReplacePair(ReplaceChar(t, '~', "~0"), '~', '0', '~') == t
    decreases |t|
  {
    if t != [] {
      TildesRestore(t[1..]);
      var rest := ReplaceChar(t[1..], '~', "~0");
      if t[0] == '~' {
        assert ("~0" + rest)[2..] == rest;
      } else {
        PairSkips(t[0], rest, '~', '0', '~');
      }
      assert t == [t[0]] + t[1..];
    }
  }

  /** Unescaping undoes escaping on every token, also on tokens containing `~`, `/` or nothing. */
  lemma UnescapeEscape(t: string)
    ensures Unescape(Escape(t)) == t
  {
    EscapeRestores(t);
    TildesRestore(t);
  }

  lemma {:induction false} EscapeHasNoSlash(t: string)
    ensures '/' !in Escape(t)
    decreases |t|
  {
    if t != [] {
      EscapeHasNoSlash(t[1..]);
      assert t == [t[0]] + t[1..];
      EscapeHead(t[0], t[1..]);
    }
  }

  // ---------------------------------------------------------------- whole pointers

  /** The pointer as one separator and one escaped token after another, from the front. */
  function Joined(parts: seq<string>): string {
    if parts == [] then "" else "/" + parts[0] + Joined(parts[1..])
  }

  lemma {:induction false} JoinedAppends(parts: seq<string>, last: string)
    ensures Joined(parts + [last]) == Joined(parts) + "/" + last
    decreases |parts|
  {
    if parts == [] {
      assert (parts + [last])[1..] == [];
    } else {
      assert (parts + [last])[1..] == parts[1..] + [last];
      JoinedAppends(parts[1..], last);
    }
  }

  function EscapeAll(tokens: seq<string>): (r: seq<string>)
    ensures |r| == |tokens| && forall i :: 0 <= i < |r| ==> r[i] == Escape(tokens[i])
  {
    seq(|tokens|, i requires 0 <= i < |tokens| => Escape(tokens[i]))
  }

  lemma {:induction false} PointerJoins(tokens: seq<string>)
    ensures Pointer(tokens) == Joined(EscapeAll(tokens))
    decreases |tokens|
  {
    if tokens != [] {
      var front, last := tokens[..|tokens| - 1], tokens[|tokens| - 1];
      PointerJoins(front);
      JoinedAppends(EscapeAll(front), Escape(last));
      assert EscapeAll(tokens) == EscapeAll(front) + [Escape(last)];
    }
  }

  lemma {:induction false} SplitPlain(s: string)
    requires '/' !in s
    ensures Split(s) == [s]
    decreases |s|
  {
    if s != [] {
      SplitPlain(s[1..]);
      assert s == [s[0]] + s[1..];
    }
  }

  lemma {:induction false} SplitAfter(s: string, rest: string)
    requires '/' !in s
    ensures Split(s + "/" + rest) == [s] + Split(rest)
    decreases |s|
  {
    if s == [] {
      assert s + "/" + rest == "/" + rest;
      assert ("/" + rest)[1..] == rest;
    } else {
      SplitAfter(s[1..], rest);
      assert (s + "/" + rest)[1..] == s[1..] + "/" + rest;
      assert s == [s[0]] + s[1..];
    }
  }

  /** Splitting a joined list gives the list back, as long as no part holds a separator. */
  lemma {:induction false} SplitJoined(parts: seq<string>)
    requires parts != [] && forall i :: 0 <= i < |parts| ==> '/' !in parts[i]
    ensures Joined(parts) != "" && Joined(parts)[0] == '/' && Split(Joined(parts)[1..]) == parts
    decreases |parts|
  {
    var rest := parts[1..];
    assert Joined(parts)[1..] == parts[0] + Joined(rest);
    if rest == [] {
      assert parts[0] + Joined(rest) == parts[0];
      SplitPlain(parts[0]);
    } else {
      SplitJoined(rest);
      assert Joined(rest) == "/" + Joined(rest)[1..];
      assert parts[0] + Joined(rest) == parts[0] + "/" + Joined(rest)[1..];
      SplitAfter(parts[0], Joined(rest)[1..]);
    }
  }

  lemma {:induction false} SplitHasNoSlash(s: string)
    ensures forall i :: 0 <= i < |Split(s)| ==> '/' !in Split(s)[i]
    decreases |s|
  {
    if s != [] { SplitHasNoSlash(s[1..]); }
  }

  lemma AfterSeparator(a: string, b: string)
    ensures ("/" + a + b)[1..] == a + b
  {
  }

  /** Prepending a character to the first part prepends it after the leading separator. */
  lemma JoinedHead(c: char, first: string, rest: seq<string>)
    ensures Joined([first] + rest) == "/" + first + Joined(rest)
    ensures Joined([[c] + first] + rest) == "/" + ([c] + (first + Joined(rest)))
  {
    assert ([first] + rest)[1..] == rest && ([[c] + first] + rest)[1..] == rest;
    var tail := Joined(rest);
    assert "/" + ([c] + first) + tail == "/" + ([c] + (first + tail));
  }

  lemma {:induction false} JoinedSplit(s: string)
    ensures Joined(Split(s)) == "/" + s
    decreases |s|
  {
    if s == [] {
      assert [""][1..] == [];
    } else {
      var rest := Split(s[1..]);
      JoinedSplit(s[1..]);
      assert s == [s[0]] + s[1..];
      if s[0] == '/' {
        assert ([""] + rest)[1..] == rest;
        assert Joined([""] + rest) == "/" + "" + Joined(rest);
      } else {
        JoinedHead(s[0], rest[0], rest[1..]);
        assert rest == [rest[0]] + rest[1..];
        AfterSeparator(rest[0], Joined(rest[1..]));
        assert ("/" + s[1..])[1..] == s[1..];
      }
    }
  }

  /** Splitting inverts repeated extension on every token list. */
  lemma TokensOfPointer(tokens: seq<string>)
    ensures Tokens(Pointer(tokens)) == tokens
  {
    PointerJoins(tokens);
    if tokens != [] {
      var parts := EscapeAll(tokens);
      forall i | 0 <= i < |parts| ensures '/' !in parts[i] { EscapeHasNoSlash(tokens[i]); }
      SplitJoined(parts);
      forall i | 0 <= i < |tokens| ensures Unescape(parts[i]) == tokens[i] { UnescapeEscape(tokens[i]); }
    }
  }

  /** Distinct token lists give distinct pointers. */
  lemma PointerInjective(a: seq<string>, b: seq<string>)
    requires Pointer(a) == Pointer(b)
    ensures a == b
  {
    TokensOfPointer(a);
    TokensOfPointer(b);
  }

  // ---------------------------------------------------------------- validation

  /** Every `~` is followed by `0` or `1`. */
  predicate ValidEscapes(token: string) {
    forall i :: 0 <= i < |token| && token[i] == '~' ==> i + 1 < |token| && (token[i + 1] == '0' || token[i + 1] == '1')
  }

  datatype PointerVerdict = Valid | NotAPointer | TooDeep | BadEscape

  /** The index loop over one token. */
  method CheckEscapes(token: string) returns (ok: bool)
    ensures ok <==> ValidEscapes(token)
  {
    var index := 0;
    while index < |token|
      invariant 0 <= index <= |token|
      invariant forall i :: 0 <= i < index && token[i] == '~' ==> i + 1 < |token| && (token[i + 1] == '0' || token[i + 1] == '1')
    {
      if token[index] == '~' {
        if index + 1 == |token| || !(token[index + 1] == '0' || token[index + 1] == '1') {
          return false;
        }
        index := index + 1;
      }
      index := index + 1;
    }
    ok := true;
  }

  ghost predicate Acceptable(value: string) {
    value == ""
    || (value[0] == '/' && |Split(value[1..])| <= MAX_PATH_DEPTH
        && forall i :: 0 <= i < |Split(value[1..])| ==> ValidEscapes(Split(value[1..])[i]))
  }

  /** `_validate_pointer`. */
  method ValidatePointer(value: string) returns (verdict: PointerVerdict)
    ensures verdict.Valid? <==> Acceptable(value)
    ensures verdict.NotAPointer? <==> value != "" && value[0] != '/'
    ensures verdict.TooDeep? <==> value != "" && value[0] == '/' && |Split(value[1..])| > MAX_PATH_DEPTH
  {
    if value != "" && value[0] != '/' { return NotAPointer; }
    if value == "" { return Valid; }
    var tokens := Split(value[1..]);
    if |tokens| > MAX_PATH_DEPTH { return TooDeep; }
    var k := 0;
    while k < |tokens|
      invariant 0 <= k <= |tokens|
      invariant forall i :: 0 <= i < k ==> ValidEscapes(tokens[i])
    {
      var ok := CheckEscapes(tokens[k]);
      if !ok { return BadEscape; }
      k := k + 1;
    }
    verdict := Valid;
  }

  lemma {:induction false} EscapeIsValid(t: string)
    ensures ValidEscapes(Escape(t))
    decreases |t|
  {
    if t != [] {
      EscapeIsValid(t[1..]);
      assert t == [t[0]] + t[1..];
      EscapeHead(t[0], t[1..]);
      var head, rest := Coded(t[0]), Escape(t[1..]);
      forall i | 0 <= i < |head + rest| && (head + rest)[i] == '~'
        ensures i + 1 < |head + rest| && ((head + rest)[i + 1] == '0' || (head + rest)[i + 1] == '1')
      {
        if i >= |head| { assert rest[i - |head|] == '~'; }
      }
    }
  }

  /** A well-escaped token without a separator is rebuilt exactly. */
  lemma {:induction false} EscapeUnescape(s: string)
    requires ValidEscapes(s) && '/' !in s
    ensures Escape(Unescape(s)) == s
    decreases |s|
  {
    if |s| >= 2 && s[0] == '~' {
      var rest := s[2..];
      ValidTail(s, 2);
      EscapeUnescape(rest);
      assert s[1] == '0' || s[1] == '1';
      assert s == "~" + [s[1]] + rest;
      UnescapeCoded(s[1], rest);
      var c := if s[1] == '1' then '/' else '~';
      EscapeHead(c, Unescape(rest));
      assert s == Coded(c) + rest;
    } else if s != [] {
      assert s[0] != '~';
      ValidTail(s, 1);
      EscapeUnescape(s[1..]);
      UnescapePlain(s[0], s[1..]);
      EscapeHead(s[0], Unescape(s[1..]));
      assert s == [s[0]] + s[1..];
    }
  }

  lemma ValidTail(s: string, k: nat)
    requires ValidEscapes(s) && '/' !in s && k <= |s|
    ensures ValidEscapes(s[k..]) && '/' !in s[k..]
  {
    forall i | 0 <= i < |s[k..]| && s[k..][i] == '~'
      ensures i + 1 < |s[k..]| && (s[k..][i + 1] == '0' || s[k..][i + 1] == '1')
    {
      assert s[k + i] == '~';
    }
  }

  lemma UnescapePlain(c: char, rest: string)
    requires c != '~'
    ensures Unescape([c] + rest) == [c] + Unescape(rest)
  {
    PairSkips(c, rest, '~', '1', '/');
    PairSkips(c, ReplacePair(rest, '~', '1', '/'), '~', '0', '~');
  }

  lemma UnescapeCoded(digit: char, rest: string)
    requires digit == '0' || digit == '1'
    ensures Unescape("~" + [digit] + rest) == [if digit == '1' then '/' else '~'] + Unescape(rest)
  {
    var s := "~" + [digit] + rest;
    var once := ReplacePair(rest, '~', '1', '/');
    assert s[2..] == rest && s[1..] == [digit] + rest;
    if digit == '1' {
      PairSkips('/', once, '~', '0', '~');
      assert ReplacePair(s, '~', '1', '/') == "/" + once;
    } else {
      PairSkips('0', rest, '~', '1', '/');
      assert ReplacePair(s, '~', '1', '/') == "~" + ("0" + once);
      assert ("~" + ("0" + once))[2..] == once;
    }
  }

  /** The validator accepts exactly the pointers that can be built from at most 64 tokens, and each
      of those is rebuilt exactly from the tokens it splits into. */
  lemma AcceptableExactly(value: string)
    ensures Acceptable(value) <==> exists tokens :: |tokens| <= MAX_PATH_DEPTH && value == Pointer(tokens)
    ensures Acceptable(value) ==> |Tokens(value)| <= MAX_PATH_DEPTH && Pointer(Tokens(value)) == value
  {
    if Acceptable(value) {
      RebuiltFromTokens(value);
    }
    if exists tokens :: |tokens| <= MAX_PATH_DEPTH && value == Pointer(tokens) {
      var tokens :| |tokens| <= MAX_PATH_DEPTH && value == Pointer(tokens);
      BuiltIsAcceptable(tokens);
    }
  }

  lemma RebuiltFromTokens(value: string)
    requires Acceptable(value)
    ensures |Tokens(value)| <= MAX_PATH_DEPTH && Pointer(Tokens(value)) == value
  {
    if value != "" {
      var parts := Split(value[1..]);
      var tokens := Tokens(value);
      JoinedSplit(value[1..]);
      SplitHasNoSlash(value[1..]);
      PointerJoins(tokens);
      forall i | 0 <= i < |parts| ensures EscapeAll(tokens)[i] == parts[i] { EscapeUnescape(parts[i]); }
      assert EscapeAll(tokens) == parts;
      assert value == "/" + value[1..];
    }
  }

  lemma BuiltIsAcceptable(tokens: seq<string>)
    requires |tokens| <= MAX_PATH_DEPTH
    ensures Acceptable(Pointer(tokens))
  {
    PointerJoins(tokens);
    if tokens != [] {
      var parts := EscapeAll(tokens);
      forall i | 0 <= i < |parts| ensures '/' !in parts[i] && ValidEscapes(parts[i]) {
        EscapeHasNoSlash(tokens[i]);
        EscapeIsValid(tokens[i]);
      }
      SplitJoined(parts);
    }
  }
}
