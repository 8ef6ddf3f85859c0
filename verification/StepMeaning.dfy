/** What compiling, faulting and performing one step mean, stated without the functions that do it:
    every part of the compiled step, of the faulted step and of the committed result is related to
    the part of the document it comes from. */
module StepMeaning {
  import opened Order
  import opened Values
  import opened Expressions
  import opened Steps
  import opened Mappings

  // ---------------------------------------------------------------- compilation

  ghost predicate CompiledGenerator(w: World, g: Generator, scope: Scope, c: Generator) {
    match g
    case Plugin(name, version, args) =>
      && c.Plugin? && c.name == name && c.version == version && c.args.Keys == args.Keys
      && forall k :: k in args ==> Compile(args[k], w.resources, scope) == Ok(c.args[k])
    case _ => c == g
  }

  /** The compiled step has the names, kinds and constants of its document, every expression compiled. */
  ghost predicate CompiledStep(w: World, doc: StepDoc, scope: Scope, c: StepDoc) {
    && c.id == doc.id && c.advance == doc.advance && c.transition == doc.transition
    && c.generate.Keys == doc.generate.Keys
    && (forall n :: n in doc.generate ==> CompiledGenerator(w, doc.generate[n], scope, c.generate[n]))
    && CompiledMap(w, doc.derive, scope, c.derive) && CompiledMap(w, doc.write, scope, c.write)
    && |c.emit| == |doc.emit|
    && forall i :: 0 <= i < |doc.emit| ==> CompiledEmission(w, doc.emit[i], scope, c.emit[i])
  }

  ghost predicate CompiledMap(w: World, parts: map<string, Expr>, scope: Scope, c: map<string, Expr>) {
    c.Keys == parts.Keys && forall n :: n in parts ==> Compile(parts[n], w.resources, scope) == Ok(c[n])
  }

  lemma GeneratorExactly(w: World, g: Generator, scope: Scope, c: Generator)
    ensures CompileGenerator(w, g, scope) == Ok(c) <==> CompiledGenerator(w, g, scope, c)
  {
    hide Compile, CompileMap;
    if g.Plugin? {
      if c.Plugin? { CompileMapExactly(g.args, w.resources, scope, c.args); }
      var r := CompileMap(g.args, w.resources, scope);
      if r.Ok? { CompileMapExactly(g.args, w.resources, scope, r.value); }
    }
  }

  lemma {:induction false} GeneratorsExactly(w: World, gens: map<string, Generator>, names: seq<string>, scope: Scope, c: map<string, Generator>)
    requires Distinct(names) && forall n :: n in names ==> n in gens
    ensures CompileGenerators(w, gens, names, scope) == Ok(c)
            <==> c.Keys == Elements(names) && forall n :: n in names ==> CompiledGenerator(w, gens[n], scope, c[n])
    decreases |names|
  {
    hide CompileGenerator, CompiledGenerator;
    if names != [] {
      var n, rest := names[0], c - {names[0]};
      assert Elements(names) == {n} + Elements(names[1..]) by { assert forall m :: m in names <==> m == n || m in names[1..]; }
      assert n !in names[1..];
      GeneratorsExactly(w, gens, names[1..], scope, rest);
      var r := CompileGenerators(w, gens, names[1..], scope);
      if r.Ok? { GeneratorsExactly(w, gens, names[1..], scope, r.value); }
      if n in c { GeneratorExactly(w, gens[n], scope, c[n]); }
      var g := CompileGenerator(w, gens[n], scope);
      if g.Ok? { GeneratorExactly(w, gens[n], scope, g.value); }
      if c.Keys == Elements(names) { assert c == rest[n := c[n]]; }
      if r.Ok? && g.Ok? { assert r.value[n := g.value] - {n} == r.value; }
    }
  }

  ghost predicate CompiledEmission(w: World, e: Emission, scope: Scope, c: Emission) {
    c.kind == e.kind && CompiledMap(w, e.fields, scope, c.fields)
  }

  lemma {:induction false} EmissionsExactly(w: World, emit: seq<Emission>, scope: Scope, c: seq<Emission>)
    ensures CompileEmissions(w, emit, scope) == Ok(c)
            <==> |c| == |emit| && forall i :: 0 <= i < |emit| ==> CompiledEmission(w, emit[i], scope, c[i])
    decreases |emit|
  {
    hide CompiledEmission, CompileMap;
    if emit != [] {
      OneEmission(w, emit[0], scope, if c == [] then emit[0] else c[0]);
      EmissionsExactly(w, emit[1..], scope, if c == [] then [] else c[1..]);
      if c != [] && |c| == |emit| {
        assert forall i :: 0 < i < |emit| ==> emit[i] == emit[1..][i - 1] && c[i] == c[1..][i - 1];
        assert c == [c[0]] + c[1..];
      }
      var m, r := CompileMap(emit[0].fields, w.resources, scope), CompileEmissions(w, emit[1..], scope);
      if m.Ok? && r.Ok? {
        OneEmission(w, emit[0], scope, Emission(emit[0].kind, m.value));
        EmissionsExactly(w, emit[1..], scope, r.value);
        var q := [Emission(emit[0].kind, m.value)] + r.value;
        assert q[1..] == r.value;
        assert forall i :: 0 < i < |emit| ==> emit[i] == emit[1..][i - 1] && q[i] == q[1..][i - 1];
      }
    }
  }

  lemma OneEmission(w: World, e: Emission, scope: Scope, c: Emission)
    ensures CompiledEmission(w, e, scope, c) <==> CompileMap(e.fields, w.resources, scope) == Ok(c.fields) && c.kind == e.kind
  {
    hide Compile, CompileMap;
    CompileMapExactly(e.fields, w.resources, scope, c.fields);
  }

  lemma CompileStepExactly(w: World, doc: StepDoc, scope: Scope, c: StepDoc)
    ensures CompileStep(w, doc, scope) == Ok(c) <==> CompiledStep(w, doc, scope, c)
  {
    hide Compile, CompileMap, CompileGenerators, CompileEmissions, CompiledGenerator, CompiledEmission, Sorted;
    SortedDistinct(doc.generate.Keys);
    GeneratorsExactly(w, doc.generate, Sorted(doc.generate.Keys), scope, c.generate);
    assert Elements(Sorted(doc.generate.Keys)) == doc.generate.Keys;
    CompileMapExactly(doc.derive, w.resources, scope, c.derive);
    CompileMapExactly(doc.write, w.resources, scope, c.write);
    EmissionsExactly(w, doc.emit, scope, c.emit);
  }

  // ---------------------------------------------------------------- faults

  /** An enabled fault names the step, and its path and repetitions where it gives them. */
  predicate Applies(f: Fault, step: string, place: Place) {
    f.enabled && f.step == step && f.path in {None, Some(place.path)} && f.repetitions in {None, Some(place.repetitions)}
  }

  lemma MatchesExactly(f: Fault, step: string, place: Place)
    ensures Matches(f, step, place) <==> Applies(f, step, place)
  {
  }

  /** What a fault changes: a write, a local, or the emissions. */
  datatype Part = WriteOf(name: string) | LocalOf(name: string) | Emissions

  predicate Hits(f: Fault, part: Part) {
    match f.operator
    case OverrideWrite(target, _) => part == WriteOf(target)
    case OverrideLocal(target, _) => part == LocalOf(target)
    case SuppressEmissions => part == Emissions
  }

  /** Fault k is the last applying one that changes this part. */
  ghost predicate LastHit(faults: seq<Fault>, step: string, place: Place, part: Part, k: nat) {
    && k < |faults| && Applies(faults[k], step, place) && Hits(faults[k], part)
    && forall j :: k < j < |faults| && Applies(faults[j], step, place) ==> !Hits(faults[j], part)
  }

  ghost predicate NeverHit(faults: seq<Fault>, step: string, place: Place, part: Part) {
    forall j :: 0 <= j < |faults| && Applies(faults[j], step, place) ==> !Hits(faults[j], part)
  }

  /** What a fault brings: a compiled expression, or for a local the value it evaluates to. */
  function Brought(w: World, f: Fault, state: State, scope: Scope): Result<Expr> {
    match f.operator
    case OverrideWrite(_, value) => Compile(value, w.resources, scope)
    case OverrideLocal(_, value) =>
      var e :- Compile(value, w.resources, scope);
      var v :- Eval(w.prims, e, Env(state, map[], map[], scope));
      Ok(Literal(v))
    case SuppressEmissions => Ok(Literal(Null))
  }

  /** The part of the step after all faults, given the last fault that changed it. */
  ghost predicate PartIs(s: StepDoc, part: Part, brought: Expr) {
    match part
    case WriteOf(n) => n in s.write && s.write[n] == brought
    case LocalOf(n) => n in s.generate && brought.Literal? && s.generate[n] == Fixed(brought.value)
    case Emissions => s.emit == []
  }

  ghost predicate PartKept(s: StepDoc, spec: StepDoc, part: Part) {
    match part
    case WriteOf(n) => (n in s.write <==> n in spec.write) && (n in spec.write ==> s.write[n] == spec.write[n])
    case LocalOf(n) => (n in s.generate <==> n in spec.generate) && (n in spec.generate ==> s.generate[n] == spec.generate[n])
    case Emissions => s.emit == spec.emit
  }

  /** One applied fault. */
  lemma FaultEffect(w: World, spec: StepDoc, f: Fault, state: State, scope: Scope, part: Part)
    ensures var r, b := ApplyFault(w, spec, f, state, scope), Brought(w, f, state, scope);
            && (r.Ok? <==> b.Ok?) && (r.Err? ==> r.error == b.error)
            && (r.Ok? ==> r.value.id == spec.id && if Hits(f, part) then PartIs(r.value, part, b.value) else PartKept(r.value, spec, part))
  {
    hide Compile, Eval;
  }

  lemma {:induction false} PartUntouched(w: World, faults: seq<Fault>, spec: StepDoc, state: State, scope: Scope, place: Place, part: Part)
    requires NeverHit(faults, spec.id, place, part) && ApplyFaults(w, faults, spec, state, scope, place).Ok?
    ensures PartKept(ApplyFaults(w, faults, spec, state, scope, place).value.0, spec, part)
    decreases |faults|
  {
    hide ApplyFault, Brought, PartIs;
    if faults != [] {
      assert NeverHit(faults[1..], spec.id, place, part) by { assert forall j :: 0 <= j < |faults| - 1 ==> faults[1..][j] == faults[j + 1]; }
      if Matches(faults[0], spec.id, place) {
        FaultEffect(w, spec, faults[0], state, scope, part);
        PartUntouched(w, faults[1..], ApplyFault(w, spec, faults[0], state, scope).value, state, scope, place, part);
      } else {
        PartUntouched(w, faults[1..], spec, state, scope, place, part);
      }
    }
  }

  /** A part of the faulted step is what the last applying fault that changes it brings. */
  lemma {:induction false} LastFaultWins(w: World, faults: seq<Fault>, spec: StepDoc, state: State, scope: Scope, place: Place, part: Part, k: nat)
    requires LastHit(faults, spec.id, place, part, k) && ApplyFaults(w, faults, spec, state, scope, place).Ok?
    ensures var b := Brought(w, faults[k], state, scope);
            b.Ok? && PartIs(ApplyFaults(w, faults, spec, state, scope, place).value.0, part, b.value)
    decreases |faults|
  {
    hide ApplyFault, Brought;
    assert forall j :: 0 <= j < |faults| - 1 ==> faults[1..][j] == faults[j + 1];
    var next := if Matches(faults[0], spec.id, place) then ApplyFault(w, spec, faults[0], state, scope) else Ok(spec);
    FaultEffect(w, spec, faults[0], state, scope, part);
    if k > 0 {
      assert LastHit(faults[1..], spec.id, place, part, k - 1);
      LastFaultWins(w, faults[1..], next.value, state, scope, place, part, k - 1);
    } else {
      assert NeverHit(faults[1..], spec.id, place, part);
      PartUntouched(w, faults[1..], next.value, state, scope, place, part);
    }
  }

  /** The rising positions of the applying faults, all of them, with their identities. */
  ghost predicate AppliedAt(faults: seq<Fault>, step: string, place: Place, ids: seq<string>, at: seq<nat>) {
    && |at| == |ids| && (forall i, j :: 0 <= i < j < |at| ==> at[i] < at[j])
    && (forall i :: 0 <= i < |at| ==> at[i] < |faults| && Applies(faults[at[i]], step, place) && ids[i] == faults[at[i]].id)
    && forall k: nat :: k < |faults| && Applies(faults[k], step, place) ==> k in at
  }

  /** The positions seen behind one more fault in front. */
  function Shifted(at: seq<nat>): (q: seq<nat>) {
    seq(|at|, i requires 0 <= i < |at| => at[i] + 1)
  }

  lemma PassedBehind(f: Fault, rest: seq<Fault>, step: string, place: Place, ids: seq<string>, at: seq<nat>)
    requires AppliedAt(rest, step, place, ids, at) && !Applies(f, step, place)
    ensures AppliedAt([f] + rest, step, place, ids, Shifted(at))
  {
    hide Applies;
    var all := [f] + rest;
    forall k: nat | k < |all| && Applies(all[k], step, place) ensures k in Shifted(at) { ShiftedCovers(f, rest, step, place, ids, at, k); }
  }

  lemma ShiftedCovers(f: Fault, rest: seq<Fault>, step: string, place: Place, ids: seq<string>, at: seq<nat>, k: nat)
    requires AppliedAt(rest, step, place, ids, at) && 0 < k <= |rest| && Applies(rest[k - 1], step, place)
    ensures k in Shifted(at)
  {
    hide Applies;
    var i :| 0 <= i < |at| && at[i] == k - 1;
    assert Shifted(at)[i] == k;
  }

  lemma AppliedBehind(f: Fault, rest: seq<Fault>, step: string, place: Place, ids: seq<string>, at: seq<nat>)
    requires AppliedAt(rest, step, place, ids, at) && Applies(f, step, place)
    ensures AppliedAt([f] + rest, step, place, [f.id] + ids, [0] + Shifted(at))
  {
    hide Applies;
    var all, q := [f] + rest, [0] + Shifted(at);
    forall k: nat | k < |all| && Applies(all[k], step, place) ensures k in q {
      if k > 0 { ShiftedCovers(f, rest, step, place, ids, at, k); } else { assert q[0] == 0; }
    }
  }

  lemma {:induction false} AppliedInOrder(w: World, faults: seq<Fault>, spec: StepDoc, state: State, scope: Scope, place: Place) returns (at: seq<nat>)
    requires ApplyFaults(w, faults, spec, state, scope, place).Ok?
    ensures AppliedAt(faults, spec.id, place, ApplyFaults(w, faults, spec, state, scope, place).value.1, at)
    decreases |faults|
  {
    hide Brought, ApplyFault, AppliedAt, Applies, Matches;
    if faults == [] {
      at := [];
      assert AppliedAt([], spec.id, place, [], []) by { NothingApplied(spec.id, place); }
    } else {
      MatchesExactly(faults[0], spec.id, place);
      FaultEffect(w, spec, faults[0], state, scope, Emissions);
      assert faults == [faults[0]] + faults[1..];
      var next := if Matches(faults[0], spec.id, place) then ApplyFault(w, spec, faults[0], state, scope) else Ok(spec);
      at := AppliedInOrder(w, faults[1..], next.value, state, scope, place);
      var ids := ApplyFaults(w, faults[1..], next.value, state, scope, place).value.1;
      if Matches(faults[0], spec.id, place) {
        AppliedBehind(faults[0], faults[1..], spec.id, place, ids, at);
        at := [0] + Shifted(at);
      } else {
        PassedBehind(faults[0], faults[1..], spec.id, place, ids, at);
        at := Shifted(at);
      }
    }
  }

  lemma NothingApplied(step: string, place: Place)
    ensures AppliedAt([], step, place, [], [])
  {
  }

  /** Faulting fails with the first applying fault whose expression does not compile or evaluate. */
  ghost predicate FaultFails(w: World, faults: seq<Fault>, step: string, state: State, scope: Scope, place: Place, k: nat, x: Error) {
    && k < |faults| && Applies(faults[k], step, place) && Brought(w, faults[k], state, scope) == Err(x)
    && forall j :: 0 <= j < k && Applies(faults[j], step, place) ==> Brought(w, faults[j], state, scope).Ok?
  }

  lemma {:induction false} FaultsFailExactly(w: World, faults: seq<Fault>, spec: StepDoc, state: State, scope: Scope, place: Place, x: Error)
    ensures ApplyFaults(w, faults, spec, state, scope, place) == Err(x)
            <==> exists k: nat :: FaultFails(w, faults, spec.id, state, scope, place, k, x)
    decreases |faults|
  {
    hide ApplyFault, Brought, Applies, Matches, FaultFails;
    if faults == [] {
      forall k: nat ensures !FaultFails(w, faults, spec.id, state, scope, place, k, x) { OutOfRange(w, faults, spec.id, state, scope, place, k, x); }
    } else {
      MatchesExactly(faults[0], spec.id, place);
      FaultEffect(w, spec, faults[0], state, scope, Emissions);
      var next := if Matches(faults[0], spec.id, place) then ApplyFault(w, spec, faults[0], state, scope) else Ok(spec);
      assert [faults[0]] + faults[1..] == faults;
      FailsBehind(w, faults[0], faults[1..], spec.id, state, scope, place, 0, x);
      if next.Ok? {
        FaultsFailExactly(w, faults[1..], next.value, state, scope, place, x);
        if k: nat :| FaultFails(w, faults, spec.id, state, scope, place, k, x) {
          if k > 0 { FailsBehind(w, faults[0], faults[1..], spec.id, state, scope, place, k - 1, x); }
        }
        if k: nat :| FaultFails(w, faults[1..], spec.id, state, scope, place, k, x) {
          FailsBehind(w, faults[0], faults[1..], spec.id, state, scope, place, k, x);
        }
      } else {
        forall k: nat | FaultFails(w, faults, spec.id, state, scope, place, k, x) ensures k == 0 {
          if k > 0 { FailsBehind(w, faults[0], faults[1..], spec.id, state, scope, place, k - 1, x); }
        }
      }
    }
  }

  lemma OutOfRange(w: World, faults: seq<Fault>, step: string, state: State, scope: Scope, place: Place, k: nat, x: Error)
    requires |faults| <= k
    ensures !FaultFails(w, faults, step, state, scope, place, k, x)
  {
  }

  /** The first failing fault, seen behind one more fault in front. */
  lemma FailsBehind(w: World, f: Fault, rest: seq<Fault>, step: string, state: State, scope: Scope, place: Place, k: nat, x: Error)
    ensures FaultFails(w, [f] + rest, step, state, scope, place, 0, x) <==> Applies(f, step, place) && Brought(w, f, state, scope) == Err(x)
    ensures FaultFails(w, [f] + rest, step, state, scope, place, k + 1, x)
            <==> (Applies(f, step, place) ==> Brought(w, f, state, scope).Ok?) && FaultFails(w, rest, step, state, scope, place, k, x)
  {
    hide Applies, Brought;
    var all := [f] + rest;
    assert forall j :: 0 <= j < |rest| ==> rest[j] == all[j + 1];
  }
}
