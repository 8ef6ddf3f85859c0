/** What a resource declaration resolves to, stated without the resolver: every `$input` and `$ref`
    replaced by what its dotted path reads, everything else kept. */
module ResourceMeaning {
  import opened Order
  import opened Values
  import opened Operators
  import opened Resources

  // ---------------------------------------------------------------- dotted paths

  /** The segments joined by dots. */
  function Joined(parts: seq<string>): string
    requires parts != []
  {
    if |parts| == 1 then parts[0] else parts[0] + "." + Joined(parts[1..])
  }

  predicate Undotted(parts: seq<string>) {
    forall i :: 0 <= i < |parts| ==> '.' !in parts[i]
  }

  lemma {:induction false} DotsJoin(text: string)
    ensures Undotted(Dots(text)) && Joined(Dots(text)) == text
    decreases |text|
  {
    if text != [] {
      DotsJoin(text[1..]);
      var rest := Dots(text[1..]);
      if text[0] == '.' {
        assert ([""] + rest)[1..] == rest;
        assert text == "" + "." + text[1..];
      } else {
        var parts := [[text[0]] + rest[0]] + rest[1..];
        assert parts[1..] == rest[1..];
        if |rest| == 1 { assert text == [text[0]] + text[1..]; } else { assert text == [text[0]] + rest[0] + "." + Joined(rest[1..]); }
      }
    }
  }

  lemma {:induction false} DotsOf(parts: seq<string>)
    requires parts != [] && Undotted(parts)
    ensures Dots(Joined(parts)) == parts
    decreases |parts|, if parts == [] then 0 else |parts[0]|
  {
    var text := Joined(parts);
    if parts[0] == "" {
      if |parts| > 1 {
        assert text[1..] == Joined(parts[1..]);
        DotsOf(parts[1..]);
        assert parts == [""] + parts[1..];
      }
    } else {
      var shorter := parts[0 := parts[0][1..]];
      assert shorter[1..] == parts[1..];
      assert text == [parts[0][0]] + Joined(shorter);
      assert text[1..] == Joined(shorter);
      DotsOf(shorter);
      assert [parts[0][0]] + shorter[0] == parts[0];
      assert parts == [parts[0]] + parts[1..];
    }
  }

  /** A node spells a path: its text is the segments joined by dots, none of them empty or dotted. */
  ghost predicate Spells(node: Value, path: seq<string>) {
    node.Str? && path != [] && Undotted(path) && Joined(path) == node.chars && forall i :: 0 <= i < |path| ==> path[i] != ""
  }

  lemma PathExactly(node: Value, path: seq<string>)
    ensures Path(node) == Some(path) <==> Spells(node, path)
  {
    if node.Str? {
      DotsJoin(node.chars);
      if path != [] && Undotted(path) { DotsOf(path); }
      if Path(node) == Some(path) {
        forall i | 0 <= i < |path| ensures path[i] != "" { assert path[i] in path; }
      }
      if Spells(node, path) { SpelledText(node, path); }
    }
  }

  lemma SpelledText(node: Value, path: seq<string>)
    requires Spells(node, path)
    ensures node.chars != ""
  {
    if |path| == 1 { assert path[0] != ""; }
  }

  // ---------------------------------------------------------------- resolution

  /** A path into named values reads this value. */
  ghost predicate PathReads(source: map<string, Value>, operand: Value, v: Value) {
    exists path :: Spells(operand, path) && Reads(Dict(source), path, v)
  }

  ghost predicate ResolvesTo(node: Value, inputs: map<string, Value>, resolved: map<string, Value>, v: Value)
    decreases node
  {
    match node
    case Dict(fields) =>
      if "$input" in fields then fields.Keys == {"$input"} && PathReads(inputs, fields["$input"], v)
      else if "$ref" in fields then fields.Keys == {"$ref"} && PathReads(resolved, fields["$ref"], v)
      else v.Dict? && v.fields.Keys == fields.Keys && forall k :: k in fields ==> ResolvesTo(fields[k], inputs, resolved, v.fields[k])
    case List(items) =>
      v.List? && |v.items| == |items| && forall i :: 0 <= i < |items| ==> ResolvesTo(items[i], inputs, resolved, v.items[i])
    case _ => v == node
  }

  lemma LookupExactly(source: map<string, Value>, path: seq<string>, v: Value)
    requires path != []
    ensures LookupIn(source, path) == Ok(v) <==> Reads(Dict(source), path, v)
  {
    hide Reads;
    DescendExactly(Dict(source), path, v);
  }

  lemma OperandExactly(node: Value, operator: string, source: map<string, Value>, v: Value)
    requires node.Dict? && operator in node.fields
    ensures (match Operand(node, operator) case None => false case Some(p) => LookupIn(source, p) == Ok(v))
            <==> node.fields.Keys == {operator} && PathReads(source, node.fields[operator], v)
  {
    hide Spells, Reads, Path, LookupIn;
    OneKey(node.fields, operator);
    forall path ensures Path(node.fields[operator]) == Some(path) <==> Spells(node.fields[operator], path) { PathExactly(node.fields[operator], path); }
    var p := Path(node.fields[operator]);
    if p.Some? {
      LookupExactly(source, p.value, v);
      assert Spells(node.fields[operator], p.value);
    }
  }

  lemma OneKey(fields: map<string, Value>, k: string)
    requires k in fields
    ensures |fields| == 1 <==> fields.Keys == {k}
  {
    assert |fields| == |fields.Keys|;
    if |fields| == 1 {
      forall x | x in fields.Keys ensures x == k { if x != k { assert {x, k} <= fields.Keys; SubsetAtMost({x, k}, fields.Keys); } }
    }
  }

  /** Resolving a node finds exactly the value it resolves to. */
  lemma {:induction false} ResolveExactly(node: Value, inputs: map<string, Value>, resolved: map<string, Value>, v: Value)
    ensures Resolve(node, inputs, resolved) == Ok(v) <==> ResolvesTo(node, inputs, resolved, v)
    decreases node
  {
    hide Operand, LookupIn, PathReads;
    match node
    case Dict(fields) =>
      if "$input" in fields {
        OperandExactly(node, "$input", inputs, v);
      } else if "$ref" in fields {
        OperandExactly(node, "$ref", resolved, v);
      } else {
        ResolveFieldsExactly(node, inputs, resolved, v);
      }
    case List(items) => ResolveItemsExactly(node, inputs, resolved, v);
    case _ =>
  }

  /** A mapping without an operator resolves to the mapping of its fields' resolutions. */
  lemma FieldsResolved(node: Value, inputs: map<string, Value>, resolved: map<string, Value>, v: Value)
    requires node.Dict? && "$input" !in node.fields && "$ref" !in node.fields
    ensures Resolve(node, inputs, resolved) == Ok(v)
            <==> v.Dict? && v.fields.Keys == node.fields.Keys && forall k :: k in node.fields ==> Resolve(node.fields[k], inputs, resolved) == Ok(v.fields[k])
  {
    hide Resolve;
    if k :| k in node.fields && Resolve(node.fields[k], inputs, resolved).Err? {
      FieldFails(node, inputs, resolved, k);
    } else {
      FieldsGive(node, inputs, resolved, ResolvedFields(node, inputs, resolved));
    }
    if v.Dict? && v.fields.Keys == node.fields.Keys && forall k :: k in node.fields ==> Resolve(node.fields[k], inputs, resolved) == Ok(v.fields[k]) {
      FieldsGive(node, inputs, resolved, v.fields);
    }
  }

  lemma {:induction false} ResolveFieldsExactly(node: Value, inputs: map<string, Value>, resolved: map<string, Value>, v: Value)
    requires node.Dict? && "$input" !in node.fields && "$ref" !in node.fields
    ensures Resolve(node, inputs, resolved) == Ok(v) <==> ResolvesTo(node, inputs, resolved, v)
    decreases node, 0
  {
    hide Resolve;
    FieldsResolved(node, inputs, resolved, v);
    if v.Dict? && v.fields.Keys == node.fields.Keys {
      forall k | k in node.fields ensures Resolve(node.fields[k], inputs, resolved) == Ok(v.fields[k]) <==> ResolvesTo(node.fields[k], inputs, resolved, v.fields[k]) {
        ResolveExactly(node.fields[k], inputs, resolved, v.fields[k]);
      }
    }
  }

  lemma {:induction false} ResolveItemsExactly(node: Value, inputs: map<string, Value>, resolved: map<string, Value>, v: Value)
    requires node.List?
    ensures Resolve(node, inputs, resolved) == Ok(v) <==> ResolvesTo(node, inputs, resolved, v)
    decreases node, 0
  {
    forall i, x | 0 <= i < |node.items| ensures Resolve(node.items[i], inputs, resolved) == Ok(x) <==> ResolvesTo(node.items[i], inputs, resolved, x) {
      ResolveExactly(node.items[i], inputs, resolved, x);
    }
    if ResolvesTo(node, inputs, resolved, v) {
      forall i | 0 <= i < |node.items| ensures Resolve(node.items[i], inputs, resolved) == Ok(v.items[i]) { assert ResolvesTo(node.items[i], inputs, resolved, v.items[i]); }
      assert ResolvedItems(node.items, inputs, resolved) == v.items;
    }
  }

  // ---------------------------------------------------------------- what a declaration mentions

  /** A `$ref`, alone in its mapping, with a path that begins with this name. */
  ghost predicate Refers(node: Value, n: string)
    decreases node
  {
    match node
    case Dict(fields) =>
      if "$ref" in fields then fields.Keys == {"$ref"} && exists path :: Spells(fields["$ref"], path) && path[0] == n
      else "$input" !in fields && exists k :: k in fields && Refers(fields[k], n)
    case List(items) => exists i :: 0 <= i < |items| && Refers(items[i], n)
    case _ => false
  }

  ghost predicate Takes(node: Value, n: string)
    decreases node
  {
    match node
    case Dict(fields) =>
      if "$input" in fields then fields.Keys == {"$input"} && exists path :: Spells(fields["$input"], path) && path[0] == n
      else "$ref" !in fields && exists k :: k in fields && Takes(fields[k], n)
    case List(items) => exists i :: 0 <= i < |items| && Takes(items[i], n)
    case _ => false
  }

  lemma OperandNames(node: Value, operator: string, n: string)
    requires node.Dict? && operator in node.fields
    ensures (Operand(node, operator).Some? && Operand(node, operator).value[0] == n)
            <==> node.fields.Keys == {operator} && exists path :: Spells(node.fields[operator], path) && path[0] == n
  {
    hide Spells, Path;
    OneKey(node.fields, operator);
    forall path ensures Path(node.fields[operator]) == Some(path) <==> Spells(node.fields[operator], path) { PathExactly(node.fields[operator], path); }
    var p := Path(node.fields[operator]);
    if p.Some? { assert Spells(node.fields[operator], p.value); }
  }

  /** The references of a node are exactly the names its `$ref` paths begin with. */
  lemma {:induction false} ReferencesExactly(node: Value, n: string)
    ensures n in References(node) <==> Refers(node, n)
    decreases node
  {
    hide Operand, Spells;
    match node
    case Dict(fields) =>
      if "$ref" in fields {
        OperandNames(node, "$ref", n);
      } else {
        forall k | k in fields ensures n in References(fields[k]) <==> Refers(fields[k], n) { ReferencesExactly(fields[k], n); }
      }
    case List(items) => forall i | 0 <= i < |items| ensures n in References(items[i]) <==> Refers(items[i], n) { ReferencesExactly(items[i], n); }
    case _ =>
  }

  /** The inputs of a node are exactly the names its `$input` paths begin with. */
  lemma {:induction false} InputsExactly(node: Value, n: string)
    ensures n in Inputs(node) <==> Takes(node, n)
    decreases node
  {
    hide Operand, Spells;
    match node
    case Dict(fields) =>
      if "$input" in fields {
        OperandNames(node, "$input", n);
      } else {
        forall k | k in fields ensures n in Inputs(fields[k]) <==> Takes(fields[k], n) { InputsExactly(fields[k], n); }
      }
    case List(items) => forall i | 0 <= i < |items| ensures n in Inputs(items[i]) <==> Takes(items[i], n) { InputsExactly(items[i], n); }
    case _ =>
  }
}
