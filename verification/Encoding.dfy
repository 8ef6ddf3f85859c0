/** The tagged encoding of semantic values (`normalize`) and its strict decoding (`_semantic`). */
module Encoding {
  import opened Values

  /** Normalized, JSON-like evidence. */
  datatype Tree =
    | Nil
    | Flag(flag: bool)
    | Num(n: int)
    | Text(text: string)
    | Items(items: seq<Tree>)
    | Fields(fields: map<string, Tree>)

  /** Text forms decided elsewhere: ISO timestamps, and the canonical text of decimals and identifiers. */
  datatype Formats = Formats(
    iso: int -> string, parse: string -> Option<int>, decimal: string -> Option<string>, id: string -> Option<string>
  )

  /** The range of a duration in microseconds. */
  const LONGEST: int := 86_400_000_000 * 1_000_000_000 - 1
  const SHORTEST: int := -86_400_000_000 * 999_999_999

  /** `parse` reads back what `iso` writes. */
  ghost predicate Faithful(f: Formats) {
    forall t :: f.parse(f.iso(t)) == Some(t)
  }

  function Tag(kind: string, value: Tree): Tree {
    Fields(map["$type" := Text(kind), "value" := value])
  }

  /** `normalize`. */
  function Normalize(f: Formats, v: Value): Tree {
    match v
    case Missing => Fields(map["$type" := Text("missing")])
    case Null => Nil
    case Bool(b) => Flag(b)
    case Int(n) => Num(n)
    case Dec(text) => Tag("decimal", Text(text))
    case Str(s) => Text(s)
    case Id(uuid) => Tag("logical-id", Text(uuid))
    case Time(instant) => Tag("datetime", Text(f.iso(instant)))
    case Span(length) => Tag("duration-microseconds", Num(length))
    case List(items) => Items(seq(|items|, i requires 0 <= i < |items| => Normalize(f, items[i])))
    case Dict(fields) => Fields(map k | k in fields :: Normalize(f, fields[k]))
  }

  /** The five tagged forms of the evidence schema; no other value of a plain type is tagged. */
  lemma TaggedForms(f: Formats, v: Value)
    ensures v.Missing? ==> Normalize(f, v) == Fields(map["$type" := Text("missing")])
    ensures v.Dec? ==> Normalize(f, v) == Fields(map["$type" := Text("decimal"), "value" := Text(v.text)])
    ensures v.Id? ==> Normalize(f, v) == Fields(map["$type" := Text("logical-id"), "value" := Text(v.uuid)])
    ensures v.Time? ==> Normalize(f, v) == Fields(map["$type" := Text("datetime"), "value" := Text(f.iso(v.instant))])
    ensures v.Span? ==> Normalize(f, v) == Fields(map["$type" := Text("duration-microseconds"), "value" := Num(v.length)])
    ensures v.Null? || v.Bool? || v.Int? || v.Str? || v.List? ==> !Normalize(f, v).Fields?
  {
  }

  /** `_semantic`; None is the evidence error. */
  function Decode(f: Formats, t: Tree): Option<Value>
    decreases t, 1
  {
    match t
    case Nil => Some(Null)
    case Flag(b) => Some(Bool(b))
    case Num(n) => Some(Int(n))
    case Text(s) => Some(Str(s))
    case Items(items) =>
      if forall i :: 0 <= i < |items| ==> Decode(f, items[i]).Some? then
        Some(List(seq(|items|, i requires 0 <= i < |items| => Decode(f, items[i]).value)))
      else None
    case Fields(fields) =>
      if "$type" in fields then DecodeTagged(f, fields)
      else if forall k :: k in fields ==> Decode(f, fields[k]).Some? then
        Some(Dict(map k | k in fields :: Decode(f, fields[k]).value))
      else None
  }

  function DecodeTagged(f: Formats, fields: map<string, Tree>): Option<Value>
    requires "$type" in fields
  {
    if fields == map["$type" := Text("missing")] then Some(Missing)
    else if fields.Keys != {"$type", "value"} || !fields["$type"].Text? then None
    else
      var kind, raw := fields["$type"].text, fields["value"];
      if kind == "datetime" && raw.Text? then
        match f.parse(raw.text) case None => None case Some(t) => Some(Time(t))
      else if kind == "decimal" && raw.Text? then
        match f.decimal(raw.text) case None => None case Some(text) => Some(Dec(text))
      else if kind == "logical-id" && raw.Text? then
        match f.id(raw.text) case None => None case Some(text) => Some(Id(text))
      else if kind == "duration-microseconds" && raw.Num? && SHORTEST <= raw.n <= LONGEST then Some(Span(raw.n))
      else None
  }

  /** Decimals and identifiers carry canonical text and durations are in range, as their own types guarantee. */
  predicate Proper(f: Formats, v: Value) {
    match v
    case Dec(text) => f.decimal(text) == Some(text)
    case Id(uuid) => f.id(uuid) == Some(uuid)
    case Span(length) => SHORTEST <= length <= LONGEST
    case List(items) => forall i :: 0 <= i < |items| ==> Proper(f, items[i])
    case Dict(fields) => forall k :: k in fields ==> Proper(f, fields[k])
    case _ => true
  }

  /** No mapping inside the value uses the reserved key. */
  predicate Unreserved(v: Value) {
    match v
    case List(items) => forall i :: 0 <= i < |items| ==> Unreserved(items[i])
    case Dict(fields) => "$type" !in fields && forall k :: k in fields ==> Unreserved(fields[k])
    case _ => true
  }

  /** Decoding restores a value exactly when none of its mappings uses the key `$type`. */
  lemma {:induction false} DecodeRestoresExactly(f: Formats, v: Value)
    requires Faithful(f) && Proper(f, v)
    ensures Decode(f, Normalize(f, v)) == Some(v) <==> Unreserved(v)
    decreases v, 1
  {
    match v
    case List(items) => ListRestores(f, v);
    case Dict(fields) =>
      if "$type" in fields { ReservedIsLost(f, v); } else { DictRestores(f, v); }
    case _ =>
  }

  lemma {:induction false} ListRestores(f: Formats, v: Value)
    requires Faithful(f) && Proper(f, v) && v.List?
    ensures Decode(f, Normalize(f, v)) == Some(v) <==> Unreserved(v)
    decreases v, 0
  {
    var t := Normalize(f, v);
    forall i | 0 <= i < |v.items| ensures Decode(f, t.items[i]) == Some(v.items[i]) <==> Unreserved(v.items[i]) {
      DecodeRestoresExactly(f, v.items[i]);
    }
    if Unreserved(v) {
      assert Decode(f, t).value.items == v.items;
    } else {
      var i :| 0 <= i < |v.items| && !Unreserved(v.items[i]);
      assert Decode(f, t.items[i]) != Some(v.items[i]);
    }
  }

  lemma {:induction false} DictRestores(f: Formats, v: Value)
    requires Faithful(f) && Proper(f, v) && v.Dict? && "$type" !in v.fields
    ensures Decode(f, Normalize(f, v)) == Some(v) <==> Unreserved(v)
    decreases v, 0
  {
    var t := Normalize(f, v);
    forall k | k in v.fields ensures Decode(f, t.fields[k]) == Some(v.fields[k]) <==> Unreserved(v.fields[k]) {
      DecodeRestoresExactly(f, v.fields[k]);
    }
    if Unreserved(v) {
      assert Decode(f, t).value.fields == v.fields;
    } else {
      var k :| k in v.fields && !Unreserved(v.fields[k]);
      assert Decode(f, t.fields[k]) != Some(v.fields[k]);
    }
  }

  /** A mapping with the reserved key is never decoded to itself, or to any mapping. */
  lemma ReservedIsLost(f: Formats, v: Value)
    requires v.Dict? && "$type" in v.fields
    ensures Decode(f, Normalize(f, v)) == None || !Decode(f, Normalize(f, v)).value.Dict?
  {
  }

  // ---------------------------------------------------------------- which encodings decoding preserves

  /** A mapping with the reserved key that is exactly what `normalize` writes for some value. */
  predicate CanonicalTag(f: Formats, fields: map<string, Tree>)
    requires "$type" in fields
  {
    fields == map["$type" := Text("missing")]
    || (&& fields.Keys == {"$type", "value"} && fields["$type"].Text?
        && (var kind, raw := fields["$type"].text, fields["value"];
            || (kind == "datetime" && raw.Text? && f.parse(raw.text).Some? && f.iso(f.parse(raw.text).value) == raw.text)
            || (kind == "decimal" && raw.Text? && f.decimal(raw.text) == Some(raw.text))
            || (kind == "logical-id" && raw.Text? && f.id(raw.text) == Some(raw.text))
            || (kind == "duration-microseconds" && raw.Num? && SHORTEST <= raw.n <= LONGEST)))
  }

  /** Every mapping with the reserved key is one `normalize` could have written. */
  predicate Canonical(f: Formats, t: Tree) {
    match t
    case Items(items) => forall i :: 0 <= i < |items| ==> Canonical(f, items[i])
    case Fields(fields) =>
      if "$type" in fields then CanonicalTag(f, fields) else forall k :: k in fields ==> Canonical(f, fields[k])
    case _ => true
  }

  /** Decoding the tree and encoding it again gives the tree back. */
  predicate ReadsBack(f: Formats, t: Tree) {
    Decode(f, t).Some? && Normalize(f, Decode(f, t).value) == t
  }

  lemma TagReadsBack(f: Formats, fields: map<string, Tree>)
    requires "$type" in fields
    ensures ReadsBack(f, Fields(fields)) <==> CanonicalTag(f, fields)
  {
    if fields != map["$type" := Text("missing")] && fields.Keys == {"$type", "value"} && fields["$type"].Text? {
      assert fields == map["$type" := fields["$type"], "value" := fields["value"]];
    }
  }

  /** Any evidence tree reads back exactly when it is canonical. */
  lemma {:induction false} ReadsBackExactly(f: Formats, t: Tree)
    ensures ReadsBack(f, t) <==> Canonical(f, t)
    decreases t, 1
  {
    match t
    case Items(_) => ItemsReadBack(f, t);
    case Fields(fields) => if "$type" in fields { TagReadsBack(f, fields); } else { FieldsReadBack(f, t); }
    case _ =>
  }

  lemma {:induction false} ItemsReadBack(f: Formats, t: Tree)
    requires t.Items?
    ensures ReadsBack(f, t) <==> Canonical(f, t)
    decreases t, 0
  {
    forall i | 0 <= i < |t.items| ensures ReadsBack(f, t.items[i]) <==> Canonical(f, t.items[i]) {
      ReadsBackExactly(f, t.items[i]);
    }
    if ReadsBack(f, t) {
      var v := Decode(f, t).value;
      forall i | 0 <= i < |t.items| ensures Canonical(f, t.items[i]) {
        assert Normalize(f, v).items[i] == Normalize(f, v.items[i]);
      }
    }
    if Canonical(f, t) {
      forall i | 0 <= i < |t.items| ensures ReadsBack(f, t.items[i]) { assert Canonical(f, t.items[i]); }
      assert Normalize(f, Decode(f, t).value).items == t.items;
    }
  }

  lemma {:induction false} FieldsReadBack(f: Formats, t: Tree)
    requires t.Fields? && "$type" !in t.fields
    ensures ReadsBack(f, t) <==> Canonical(f, t)
    decreases t, 0
  {
    hide ReadsBack;
    forall k | k in t.fields ensures ReadsBack(f, t.fields[k]) <==> Canonical(f, t.fields[k]) {
      ReadsBackExactly(f, t.fields[k]);
    }
    FieldsAlone(f, t);
  }

  /** Without the reserved key, a mapping reads back exactly when each of its values does. */
  lemma FieldsAlone(f: Formats, t: Tree)
    requires t.Fields? && "$type" !in t.fields
    ensures ReadsBack(f, t) <==> forall k :: k in t.fields ==> ReadsBack(f, t.fields[k])
  {
    hide Normalize;
    if Decode(f, t).Some? {
      var v := Decode(f, t).value;
      assert v.Dict? && v.fields.Keys == t.fields.Keys && forall k :: k in t.fields ==> Decode(f, t.fields[k]) == Some(v.fields[k]);
      NormalizedFields(f, v, t);
    }
  }

  lemma NormalizedFields(f: Formats, v: Value, t: Tree)
    requires v.Dict? && t.Fields? && v.fields.Keys == t.fields.Keys
    ensures Normalize(f, v) == t <==> forall k :: k in t.fields ==> Normalize(f, v.fields[k]) == t.fields[k]
  {
    var n := Normalize(f, v);
    assert n.fields.Keys == t.fields.Keys;
    assert forall k :: k in t.fields ==> n.fields[k] == Normalize(f, v.fields[k]);
  }

  /** Values that never use the reserved key always have canonical encodings. */
  lemma UnreservedIsCanonical(f: Formats, v: Value)
    requires Faithful(f) && Proper(f, v) && Unreserved(v)
    ensures Canonical(f, Normalize(f, v))
  {
    DecodeRestoresExactly(f, v);
    ReadsBackExactly(f, Normalize(f, v));
  }

  /** Values without the reserved key are determined by their encoding. */
  lemma NormalizeInjective(f: Formats, a: Value, b: Value)
    requires Faithful(f) && Proper(f, a) && Proper(f, b) && Unreserved(a) && Unreserved(b)
    requires Normalize(f, a) == Normalize(f, b)
    ensures a == b
  {
    DecodeRestoresExactly(f, a);
    DecodeRestoresExactly(f, b);
  }

  /** With the reserved key two different values can share one encoding. */
  lemma EncodingsCanCollide(f: Formats)
    ensures Normalize(f, Missing) == Normalize(f, Dict(map["$type" := Str("missing")]))
  {
    var v := map["$type" := Str("missing")];
    assert Normalize(f, Dict(v)).fields == map["$type" := Text("missing")];
  }
}
