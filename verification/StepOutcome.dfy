/** What performing one step does, stated without the functions that do it.  A step commits a result
    exactly when locals, derived values, a patch and artifacts exist that solve its declarations, and
    then the result is the old runner changed by exactly those. */
module StepOutcome {
  import opened Order
  import opened Values
  import opened Expressions
  import opened Graphs
  import opened Derivations
  import opened Steps
  import opened Mappings

  // ---------------------------------------------------------------- the parts of a step

  /** A generator draws once, for its own parameters, at its own address and the current time. */
  ghost predicate Drawn(w: World, g: Generator, at: Address, r: Runner, v: Value) {
    match g
    case IntegerIn(lo, hi) => w.draw(DrawInteger(lo, hi), at, r.clock) == Ok(v)
    case LogicalId(slot) => w.draw(DrawId(slot), at, r.clock) == Ok(v)
    case Fixed(value) => v == value
    case Plugin(name, version, args) =>
      exists m :: Evaluated(w, args, Env(r.state, map[], map[], None), m) && w.draw(DrawPlugin(name, version, m), at, r.clock) == Ok(v)
  }

  ghost predicate Evaluated(w: World, parts: map<string, Expr>, env: Env, m: map<string, Value>) {
    m.Keys == parts.Keys && forall n :: n in parts ==> Eval(w.prims, parts[n], env) == Ok(m[n])
  }

  /** `a` with a path below it. */
  function Below(a: Address, path: seq<string>): Address {
    Address(a.scenario, a.run, a.invocations, a.repetitions, a.step, a.path + path, a.actor)
  }

  ghost predicate LocalsOf(w: World, spec: StepDoc, at: Address, r: Runner, locals: map<string, Value>) {
    && locals.Keys == spec.generate.Keys
    && forall n :: n in spec.generate ==> Drawn(w, spec.generate[n], Below(at, ["generate", n]), r, locals[n])
  }

  /** The only values that satisfy every derived equation in the pre-state with these locals. */
  ghost predicate DerivedOf(w: World, spec: StepDoc, r: Runner, locals: map<string, Value>, derived: map<string, Value>) {
    && Known(spec.derive) && Acyclic(DependencyGraph(spec.derive))
    && derived.Keys == spec.derive.Keys
    && forall n :: n in spec.derive ==> Eval(w.prims, spec.derive[n], Env(r.state, locals, derived, None)) == Ok(derived[n])
  }

  ghost predicate PatchOf(w: World, spec: StepDoc, r: Runner, locals: map<string, Value>, derived: map<string, Value>, patch: map<string, Value>) {
    Evaluated(w, spec.write, Env(r.state, locals, derived, None), patch)
  }

  /** An artifact is addressed by its ordinal and kind, and sees the post-state alone. */
  ghost predicate ArtifactOf(w: World, e: Emission, ordinal: nat, post: State, at: Address, a: Artifact) {
    && a.kind == e.kind && a.address == Below(at, ["emit", Digits(ordinal), e.kind])
    && a.logicalId == w.artifactId(a.address)
    && a.value.Dict? && Evaluated(w, e.fields, Env(post, map[], map[], None), a.value.fields)
  }

  ghost predicate ArtifactsOf(w: World, emit: seq<Emission>, first: nat, post: State, at: Address, artifacts: seq<Artifact>) {
    && |artifacts| == |emit|
    && forall i :: 0 <= i < |emit| ==> ArtifactOf(w, emit[i], first + i, post, at, artifacts[i])
  }

  predicate Listed(artifacts: seq<Artifact>, emitted: seq<(string, string)>) {
    |emitted| == |artifacts| && forall i :: 0 <= i < |artifacts| ==> emitted[i] == (artifacts[i].logicalId, artifacts[i].kind)
  }

  /** Everything a committed step computed, and nothing besides. */
  ghost predicate Explains(w: World, spec: StepDoc, faults: seq<string>, at: Address, r: Runner,
                           locals: map<string, Value>, derived: map<string, Value>, n: Runner) {
    && LocalsOf(w, spec, at, r, locals) && DerivedOf(w, spec, r, locals, derived)
    && |n.history| == |r.history| + 1 && n.history[..|r.history|] == r.history
    && (var h := n.history[|r.history|];
        && PatchOf(w, spec, r, locals, derived, h.patch)
        && n.state == r.state + h.patch
        && |n.artifacts| >= |r.artifacts| && n.artifacts[..|r.artifacts|] == r.artifacts
        && ArtifactsOf(w, spec.emit, 0, n.state, at, n.artifacts[|r.artifacts|..])
        && n.clock == r.clock + spec.advance && n.nextStep == spec.transition
        && h.address == at && h.timestamp == n.clock
        && h.before == w.fingerprint(r.state) && h.after == w.fingerprint(n.state)
        && Listed(n.artifacts[|r.artifacts|..], h.emitted)
        && h.transition == spec.transition && h.faults == (if faults == [] then None else Some(faults)))
    && Holds(w, n.state)
  }

  // ---------------------------------------------------------------- each part exactly

  lemma GenerateExactly(w: World, g: Generator, at: Address, r: Runner, v: Value)
    ensures Generate(w, g, at, r) == Ok(v) <==> Drawn(w, g, at, r, v)
  {
    hide Eval, EvalMap;
    if g.Plugin? {
      var env := Env(r.state, map[], map[], None);
      forall m { EvalMapExactly(w.prims, g.args, env, m); }
      if m :| Evaluated(w, g.args, env, m) && w.draw(DrawPlugin(g.name, g.version, m), at, r.clock) == Ok(v) {
        EvalMapExactly(w.prims, g.args, env, m);
      }
      var m := EvalMap(w.prims, g.args, env);
      if m.Ok? { EvalMapExactly(w.prims, g.args, env, m.value); }
    }
  }

  lemma {:induction false} GenerateAllExactly(w: World, gens: map<string, Generator>, names: seq<string>, at: Address, r: Runner, locals: map<string, Value>)
    requires Distinct(names) && forall n :: n in names ==> n in gens
    ensures GenerateAll(w, gens, names, at, r) == Ok(locals)
            <==> locals.Keys == Elements(names)
                 && forall n :: n in names ==> Drawn(w, gens[n], Below(at, ["generate", n]), r, locals[n])
    decreases |names|
  {
    hide Generate, Drawn;
    if names != [] {
      var n, rest := names[0], locals - {names[0]};
      assert Elements(names) == {n} + Elements(names[1..]) by { assert forall m :: m in names <==> m == n || m in names[1..]; }
      assert n !in names[1..];
      GenerateAllExactly(w, gens, names[1..], at, r, rest);
      var q, v := GenerateAll(w, gens, names[1..], at, r), Generate(w, gens[n], Child(at, ["generate", n]), r);
      if q.Ok? { GenerateAllExactly(w, gens, names[1..], at, r, q.value); }
      if n in locals { GenerateExactly(w, gens[n], Below(at, ["generate", n]), r, locals[n]); }
      if v.Ok? { GenerateExactly(w, gens[n], Below(at, ["generate", n]), r, v.value); }
      if locals.Keys == Elements(names) { assert locals == rest[n := locals[n]]; }
      if q.Ok? && v.Ok? { assert q.value[n := v.value] - {n} == q.value; }
    }
  }

  lemma DeriveOnly(w: World, spec: StepDoc, r: Runner, locals: map<string, Value>, derived: map<string, Value>)
    ensures Derive(w.prims, spec.derive, Env(r.state, locals, map[], None)) == Ok(derived) <==> DerivedOf(w, spec, r, locals, derived)
  {
    hide Eval, Derive, Acyclic, Known;
    DeriveExactlySolution(w.prims, spec.derive, Env(r.state, locals, map[], None), derived);
  }

  lemma ArtifactExactly(w: World, e: Emission, ordinal: nat, post: State, at: Address, a: Artifact)
    ensures ArtifactOf(w, e, ordinal, post, at, a)
            <==> a.value.Dict? && EvalMap(w.prims, e.fields, Env(post, map[], map[], None)) == Ok(a.value.fields)
                 && a == Artifact(e.kind, a.value, w.artifactId(Child(at, ["emit", Digits(ordinal), e.kind])), Child(at, ["emit", Digits(ordinal), e.kind]))
  {
    hide Eval, EvalMap;
    if a.value.Dict? { EvalMapExactly(w.prims, e.fields, Env(post, map[], map[], None), a.value.fields); }
  }

  lemma {:induction false} EmitExactly(w: World, emit: seq<Emission>, first: nat, post: State, at: Address, artifacts: seq<Artifact>)
    ensures Emit(w, emit, first, post, at) == Ok(artifacts) <==> ArtifactsOf(w, emit, first, post, at, artifacts)
    decreases |emit|
  {
    hide EvalMap, ArtifactOf;
    if emit != [] {
      var m, q := EvalMap(w.prims, emit[0].fields, Env(post, map[], map[], None)), Emit(w, emit[1..], first + 1, post, at);
      if artifacts != [] {
        ArtifactExactly(w, emit[0], first, post, at, artifacts[0]);
        EmitExactly(w, emit[1..], first + 1, post, at, artifacts[1..]);
        assert artifacts == [artifacts[0]] + artifacts[1..];
        FirstArtifact(w, emit, first, post, at, artifacts);
      }
      if m.Ok? && q.Ok? {
        var place := Child(at, ["emit", Digits(first), emit[0].kind]);
        var all := [Artifact(emit[0].kind, Dict(m.value), w.artifactId(place), place)] + q.value;
        assert all[1..] == q.value;
      }
    }
  }

  lemma FirstArtifact(w: World, emit: seq<Emission>, first: nat, post: State, at: Address, artifacts: seq<Artifact>)
    requires emit != [] && artifacts != []
    ensures ArtifactsOf(w, emit, first, post, at, artifacts)
            <==> ArtifactOf(w, emit[0], first, post, at, artifacts[0]) && ArtifactsOf(w, emit[1..], first + 1, post, at, artifacts[1..])
  {
    hide ArtifactOf;
    if ArtifactsOf(w, emit, first, post, at, artifacts) {
      forall i | 0 <= i < |emit| - 1 ensures ArtifactOf(w, emit[1..][i], first + 1 + i, post, at, artifacts[1..][i]) {
        assert ArtifactOf(w, emit[i + 1], first + (i + 1), post, at, artifacts[i + 1]);
      }
    }
    if ArtifactOf(w, emit[0], first, post, at, artifacts[0]) && ArtifactsOf(w, emit[1..], first + 1, post, at, artifacts[1..]) {
      forall i | 0 <= i < |emit| ensures ArtifactOf(w, emit[i], first + i, post, at, artifacts[i]) {
        if i > 0 { assert ArtifactOf(w, emit[1..][i - 1], first + 1 + (i - 1), post, at, artifacts[1..][i - 1]); }
      }
    }
  }

  lemma {:induction false} EmittedExactly(artifacts: seq<Artifact>, emitted: seq<(string, string)>)
    ensures emitted == Emitted(artifacts) <==> Listed(artifacts, emitted)
    decreases |artifacts|
  {
    if artifacts != [] && emitted != [] {
      EmittedExactly(artifacts[1..], emitted[1..]);
      assert emitted == [emitted[0]] + emitted[1..];
      assert forall i :: 0 < i < |artifacts| ==> artifacts[i] == artifacts[1..][i - 1];
      assert forall i :: 0 < i < |emitted| ==> emitted[i] == emitted[1..][i - 1];
    }
  }

  // ---------------------------------------------------------------- the step

  /** A step commits n exactly when n is explained by locals and derived values of its own. */
  lemma PerformExactly(w: World, spec: StepDoc, faults: seq<string>, at: Address, r: Runner, n: Runner)
    ensures Perform(w, spec, faults, at, r) == Ok(n)
            <==> exists locals, derived :: Explains(w, spec, faults, at, r, locals, derived, n)
  {
    hide *;
    if Perform(w, spec, faults, at, r) == Ok(n) { PerformExplained(w, spec, faults, at, r, n); }
    if locals, derived :| Explains(w, spec, faults, at, r, locals, derived, n) {
      ExplainedPerforms(w, spec, faults, at, r, locals, derived, n);
    }
  }

  lemma PerformExplained(w: World, spec: StepDoc, faults: seq<string>, at: Address, r: Runner, n: Runner)
    requires Perform(w, spec, faults, at, r) == Ok(n)
    ensures exists locals, derived :: Explains(w, spec, faults, at, r, locals, derived, n)
  {
    hide GenerateAll, Derive, EvalMap, Emit, CheckInvariants, Emitted, Holds, LocalsOf, DerivedOf, PatchOf, ArtifactsOf, Listed;
    var locals := GenerateAll(w, spec.generate, Sorted(spec.generate.Keys), at, r).value;
    LocalsExactly(w, spec, at, r, locals);
    var derived := Derive(w.prims, spec.derive, Env(r.state, locals, map[], None)).value;
    DeriveOnly(w, spec, r, locals, derived);
    var c := Propose(w, spec, faults, at, r).value;
    PatchExactly(w, spec, r, locals, derived, c.record.patch);
    EmitExactly(w, spec.emit, 0, c.post, at, c.artifacts);
    EmittedExactly(c.artifacts, c.record.emitted);
    InvariantsHold(w, c.post);
    assert n.artifacts[|r.artifacts|..] == c.artifacts;
    assert n.history[|r.history|] == c.record;
    assert Explains(w, spec, faults, at, r, locals, derived, n);
  }

  lemma ExplainedPerforms(w: World, spec: StepDoc, faults: seq<string>, at: Address, r: Runner,
                          locals: map<string, Value>, derived: map<string, Value>, n: Runner)
    requires Explains(w, spec, faults, at, r, locals, derived, n)
    ensures Perform(w, spec, faults, at, r) == Ok(n)
  {
    hide GenerateAll, Derive, EvalMap, Complete, LocalsOf, DerivedOf, PatchOf, ArtifactsOf, Listed, Holds;
    var h, artifacts := n.history[|r.history|], n.artifacts[|r.artifacts|..];
    LocalsExactly(w, spec, at, r, locals);
    DeriveOnly(w, spec, r, locals, derived);
    PatchExactly(w, spec, r, locals, derived, h.patch);
    ExplainedCompletes(w, spec, faults, at, r, locals, derived, n);
    assert n.history == r.history + [h];
    assert n.artifacts == r.artifacts + artifacts;
  }

  lemma ExplainedCompletes(w: World, spec: StepDoc, faults: seq<string>, at: Address, r: Runner,
                           locals: map<string, Value>, derived: map<string, Value>, n: Runner)
    requires Explains(w, spec, faults, at, r, locals, derived, n)
    ensures var h := n.history[|r.history|];
            Complete(w, spec, faults, at, r, h.patch) == Ok(Candidate(n.state, n.artifacts[|r.artifacts|..], n.clock, h))
  {
    hide Emit, CheckInvariants, Emitted, Holds, LocalsOf, DerivedOf, PatchOf, ArtifactsOf, Listed;
    var artifacts := n.artifacts[|r.artifacts|..];
    EmitExactly(w, spec.emit, 0, n.state, at, artifacts);
    EmittedExactly(artifacts, n.history[|r.history|].emitted);
    InvariantsHold(w, n.state);
  }

  lemma LocalsExactly(w: World, spec: StepDoc, at: Address, r: Runner, locals: map<string, Value>)
    ensures GenerateAll(w, spec.generate, Sorted(spec.generate.Keys), at, r) == Ok(locals) <==> LocalsOf(w, spec, at, r, locals)
  {
    hide Drawn, GenerateAll;
    SortedDistinct(spec.generate.Keys);
    GenerateAllExactly(w, spec.generate, Sorted(spec.generate.Keys), at, r, locals);
    assert Elements(Sorted(spec.generate.Keys)) == spec.generate.Keys;
  }

  lemma PatchExactly(w: World, spec: StepDoc, r: Runner, locals: map<string, Value>, derived: map<string, Value>, patch: map<string, Value>)
    ensures EvalMap(w.prims, spec.write, Env(r.state, locals, derived, None)) == Ok(patch) <==> PatchOf(w, spec, r, locals, derived, patch)
  {
    hide Eval, EvalMap;
    EvalMapExactly(w.prims, spec.write, Env(r.state, locals, derived, None), patch);
  }

  lemma InvariantsHold(w: World, post: State)
    ensures CheckInvariants(w, w.invariants, post).Ok? <==> Holds(w, post)
  {
    hide Eval, CheckInvariants;
    InvariantsExactly(w, w.invariants, post);
  }

  // ---------------------------------------------------------------- how a step fails

  /** The first generator, by name, that cannot draw. */
  ghost predicate GenerationFails(w: World, spec: StepDoc, at: Address, r: Runner, x: Error) {
    exists k :: First(spec.generate.Keys, k, n => n in spec.generate && Generate(w, spec.generate[n], Below(at, ["generate", n]), r).Err?)
      && k in spec.generate && Generate(w, spec.generate[k], Below(at, ["generate", k]), r) == Err(x)
  }

  /** The first emission with a field that does not evaluate in the post-state. */
  ghost predicate EmissionFails(w: World, emit: seq<Emission>, post: State, x: Error) {
    exists i: nat :: EmissionFailsAt(w, emit, post, x, i)
  }

  predicate EmissionFailsAt(w: World, emit: seq<Emission>, post: State, x: Error, i: nat) {
    && i < |emit| && EvalMap(w.prims, emit[i].fields, Env(post, map[], map[], None)) == Err(x)
    && forall j :: 0 <= j < i ==> EvalMap(w.prims, emit[j].fields, Env(post, map[], map[], None)).Ok?
  }

  /** The first invariant that does not evaluate to true: it fails, is no boolean, or is false. */
  ghost predicate InvariantFails(w: World, invariants: seq<Expr>, post: State, x: Error) {
    exists i: nat :: InvariantFailsAt(w, invariants, post, x, i)
  }

  predicate InvariantFailsAt(w: World, invariants: seq<Expr>, post: State, x: Error, i: nat) {
    && i < |invariants| && Objects(Eval(w.prims, invariants[i], Env(post, map[], map[], None)), x)
    && forall j :: 0 <= j < i ==> Eval(w.prims, invariants[j], Env(post, map[], map[], None)) == Ok(Bool(true))
  }

  predicate Objects(outcome: Result<Value>, x: Error) {
    match outcome
    case Err(y) => x == y
    case Ok(Bool(b)) => !b && x == InvariantViolation
    case Ok(_) => x == InvariantDefinition
  }

  /** The first phase that fails gives the step's failure. */
  ghost predicate StepFails(w: World, spec: StepDoc, at: Address, r: Runner, x: Error) {
    || GenerationFails(w, spec, at, r, x)
    || exists locals :: LocalsOf(w, spec, at, r, locals) && FailsWith(w, spec, at, r, locals, x)
  }

  ghost predicate FailsWith(w: World, spec: StepDoc, at: Address, r: Runner, locals: map<string, Value>, x: Error) {
    || Derive(w.prims, spec.derive, Env(r.state, locals, map[], None)) == Err(x)
    || exists derived :: DerivedOf(w, spec, r, locals, derived) && WritingFails(w, spec, r, locals, derived, x)
  }

  ghost predicate WritingFails(w: World, spec: StepDoc, r: Runner, locals: map<string, Value>, derived: map<string, Value>, x: Error) {
    || EvalMap(w.prims, spec.write, Env(r.state, locals, derived, None)) == Err(x)
    || exists patch :: PatchOf(w, spec, r, locals, derived, patch) && PostFails(w, spec, r.state + patch, x)
  }

  ghost predicate PostFails(w: World, spec: StepDoc, post: State, x: Error) {
    || EmissionFails(w, spec.emit, post, x)
    || ((forall y :: !EmissionFails(w, spec.emit, post, y)) && InvariantFails(w, w.invariants, post, x))
  }

  lemma {:induction false} GenerateAllFails(w: World, gens: map<string, Generator>, names: seq<string>, at: Address, r: Runner, i: nat)
    requires (forall n :: n in names ==> n in gens) && i <= |names|
    requires forall j: nat :: j < i ==> Generate(w, gens[names[j]], Below(at, ["generate", names[j]]), r).Ok?
    requires i < |names| ==> Generate(w, gens[names[i]], Below(at, ["generate", names[i]]), r).Err?
    ensures var g := GenerateAll(w, gens, names, at, r);
            if i < |names| then g == Err(Generate(w, gens[names[i]], Below(at, ["generate", names[i]]), r).error) else g.Ok?
    decreases |names|
  {
    hide Generate;
    if i > 0 {
      assert forall j: nat :: 0 < j < |names| ==> names[j] == names[1..][j - 1];
      assert Generate(w, gens[names[0]], Below(at, ["generate", names[0]]), r).Ok?;
      GenerateAllFails(w, gens, names[1..], at, r, i - 1);
    }
  }

  lemma FirstGenerator(w: World, spec: StepDoc, at: Address, r: Runner, x: Error)
    requires GenerationFails(w, spec, at, r, x)
    ensures GenerateAll(w, spec.generate, Sorted(spec.generate.Keys), at, r) == Err(x)
  {
    hide Generate, GenerateAll, First;
    var gens := spec.generate;
    var stops := n => n in gens && Generate(w, gens[n], Below(at, ["generate", n]), r).Err?;
    var k :| First(gens.Keys, k, stops) && k in gens && Generate(w, gens[k], Below(at, ["generate", k]), r) == Err(x);
    var j := FirstIndex(gens.Keys, k, stops);
    GenerateAllFails(w, gens, Sorted(gens.Keys), at, r, j);
  }

  lemma GenerationFailsExactly(w: World, spec: StepDoc, at: Address, r: Runner, x: Error)
    ensures GenerateAll(w, spec.generate, Sorted(spec.generate.Keys), at, r) == Err(x) <==> GenerationFails(w, spec, at, r, x)
  {
    hide Generate, GenerateAll, First;
    var gens, names := spec.generate, Sorted(spec.generate.Keys);
    if GenerationFails(w, spec, at, r, x) { FirstGenerator(w, spec, at, r, x); }
    var stops := n => n in gens && Generate(w, gens[n], Below(at, ["generate", n]), r).Err?;
    var i := Until(names, stops);
    GenerateAllFails(w, gens, names, at, r, i);
    if i < |names| { UntilFirst(gens.Keys, stops, i); }
  }

  lemma EmissionFailsBehind(w: World, e: Emission, rest: seq<Emission>, post: State, x: Error, i: nat)
    ensures var r := EvalMap(w.prims, e.fields, Env(post, map[], map[], None));
            && (EmissionFailsAt(w, [e] + rest, post, x, 0) <==> r == Err(x))
            && (EmissionFailsAt(w, [e] + rest, post, x, i + 1) <==> r.Ok? && EmissionFailsAt(w, rest, post, x, i))
  {
    hide EvalMap;
    var all := [e] + rest;
    assert forall j :: 0 <= j < |rest| ==> rest[j] == all[j + 1];
  }

  lemma {:induction false} EmissionFailsExactly(w: World, emit: seq<Emission>, first: nat, post: State, at: Address, x: Error)
    ensures Emit(w, emit, first, post, at) == Err(x) <==> EmissionFails(w, emit, post, x)
    decreases |emit|
  {
    hide EvalMap, EmissionFailsAt;
    if emit == [] {
      forall i: nat ensures !EmissionFailsAt(w, emit, post, x, i) { NoEmission(w, post, x, i); }
    } else {
      EmissionFailsExactly(w, emit[1..], first + 1, post, at, x);
      assert [emit[0]] + emit[1..] == emit;
      EmissionFailsBehind(w, emit[0], emit[1..], post, x, 0);
      if i: nat :| EmissionFailsAt(w, emit, post, x, i) {
        if i > 0 { EmissionFailsBehind(w, emit[0], emit[1..], post, x, i - 1); }
      }
      if i: nat :| EmissionFailsAt(w, emit[1..], post, x, i) { EmissionFailsBehind(w, emit[0], emit[1..], post, x, i); }
    }
  }

  lemma NoEmission(w: World, post: State, x: Error, i: nat)
    ensures !EmissionFailsAt(w, [], post, x, i)
  {
  }

  lemma InvariantFailsBehind(w: World, e: Expr, rest: seq<Expr>, post: State, x: Error, i: nat)
    ensures var r := Eval(w.prims, e, Env(post, map[], map[], None));
            && (InvariantFailsAt(w, [e] + rest, post, x, 0) <==> Objects(r, x))
            && (InvariantFailsAt(w, [e] + rest, post, x, i + 1) <==> r == Ok(Bool(true)) && InvariantFailsAt(w, rest, post, x, i))
  {
    hide Eval, Objects;
    var all := [e] + rest;
    assert forall j :: 0 <= j < |rest| ==> rest[j] == all[j + 1];
  }

  lemma {:induction false} InvariantFailsExactly(w: World, invariants: seq<Expr>, post: State, x: Error)
    ensures CheckInvariants(w, invariants, post) == Err(x) <==> InvariantFails(w, invariants, post, x)
    decreases |invariants|
  {
    hide Eval, InvariantFailsAt;
    if invariants == [] {
      forall i: nat ensures !InvariantFailsAt(w, invariants, post, x, i) { NoInvariant(w, post, x, i); }
    } else {
      InvariantFailsExactly(w, invariants[1..], post, x);
      assert [invariants[0]] + invariants[1..] == invariants;
      InvariantFailsBehind(w, invariants[0], invariants[1..], post, x, 0);
      if i: nat :| InvariantFailsAt(w, invariants, post, x, i) {
        if i > 0 { InvariantFailsBehind(w, invariants[0], invariants[1..], post, x, i - 1); }
      }
      if i: nat :| InvariantFailsAt(w, invariants[1..], post, x, i) { InvariantFailsBehind(w, invariants[0], invariants[1..], post, x, i); }
    }
  }

  lemma NoInvariant(w: World, post: State, x: Error, i: nat)
    ensures !InvariantFailsAt(w, [], post, x, i)
  {
  }

  lemma PostFailsExactly(w: World, spec: StepDoc, faults: seq<string>, at: Address, r: Runner, patch: map<string, Value>, x: Error)
    ensures Complete(w, spec, faults, at, r, patch) == Err(x) <==> PostFails(w, spec, r.state + patch, x)
  {
    hide Emit, CheckInvariants, Emitted, EmissionFails, InvariantFails;
    var post := r.state + patch;
    forall y { EmissionFailsExactly(w, spec.emit, 0, post, at, y); }
    InvariantFailsExactly(w, w.invariants, post, x);
    var e := Emit(w, spec.emit, 0, post, at);
    if e.Err? { assert EmissionFails(w, spec.emit, post, e.error); }
  }

  lemma WritingFailsExactly(w: World, spec: StepDoc, faults: seq<string>, at: Address, r: Runner,
                            locals: map<string, Value>, derived: map<string, Value>, x: Error)
    ensures WritingFails(w, spec, r, locals, derived, x)
            <==> match EvalMap(w.prims, spec.write, Env(r.state, locals, derived, None))
                 case Err(y) => x == y
                 case Ok(patch) => Complete(w, spec, faults, at, r, patch) == Err(x)
  {
    hide EvalMap, Complete, PatchOf, PostFails;
    var m := EvalMap(w.prims, spec.write, Env(r.state, locals, derived, None));
    forall patch ensures PatchOf(w, spec, r, locals, derived, patch) <==> m == Ok(patch) { PatchExactly(w, spec, r, locals, derived, patch); }
    if m.Ok? {
      assert PatchOf(w, spec, r, locals, derived, m.value);
      PostFailsExactly(w, spec, faults, at, r, m.value, x);
    }
  }

  lemma FailsWithExactly(w: World, spec: StepDoc, faults: seq<string>, at: Address, r: Runner, locals: map<string, Value>, x: Error)
    requires LocalsOf(w, spec, at, r, locals)
    ensures Perform(w, spec, faults, at, r) == Err(x) <==> FailsWith(w, spec, at, r, locals, x)
  {
    hide GenerateAll, Derive, EvalMap, Complete, LocalsOf, DerivedOf, WritingFails;
    LocalsExactly(w, spec, at, r, locals);
    var d := Derive(w.prims, spec.derive, Env(r.state, locals, map[], None));
    forall derived ensures DerivedOf(w, spec, r, locals, derived) <==> d == Ok(derived) { DeriveOnly(w, spec, r, locals, derived); }
    if d.Ok? { WritingFailsExactly(w, spec, faults, at, r, locals, d.value, x); }
  }

  /** A step fails exactly with the failure of its first failing phase: drawing, deriving, writing,
      emitting, checking. */
  lemma PerformFailsExactly(w: World, spec: StepDoc, faults: seq<string>, at: Address, r: Runner, x: Error)
    ensures Perform(w, spec, faults, at, r) == Err(x) <==> StepFails(w, spec, at, r, x)
  {
    hide GenerateAll, LocalsOf, FailsWith, Derive, EvalMap, Complete, GenerationFails;
    var g := GenerateAll(w, spec.generate, Sorted(spec.generate.Keys), at, r);
    GenerationFailsExactly(w, spec, at, r, x);
    forall locals ensures LocalsOf(w, spec, at, r, locals) <==> g == Ok(locals) { LocalsExactly(w, spec, at, r, locals); }
    if g.Ok? {
      FailsWithExactly(w, spec, faults, at, r, g.value, x);
    }
  }

  // ---------------------------------------------------------------- a step occurrence

  /** Where a step occurrence stands: its place in the control structure, under the scenario's identity. */
  function AddressAt(who: Identity, site: Site): Address {
    Address(who.scenario, who.run, site.place.invocations, site.place.repetitions, site.spec.id, [], who.actor)
  }

  /** Executing a step occurrence commits exactly what its faulted step is explained to commit, and fails
      with the first fault that cannot be applied or as its faulted step does. */
  lemma SiteExactly(w: World, who: Identity, site: Site, r: Runner)
    ensures var f := ApplyFaults(w, w.faults, site.spec, r.state, site.scope, site.place);
            && (forall n :: ExecuteSite(w, who, site, r) == Ok(n)
                  <==> f.Ok? && exists locals, derived :: Explains(w, f.value.0, f.value.1, AddressAt(who, site), r, locals, derived, n))
            && (forall x :: ExecuteSite(w, who, site, r) == Err(x)
                  <==> f == Err(x) || (f.Ok? && StepFails(w, f.value.0, AddressAt(who, site), r, x)))
  {
    hide ApplyFaults, Perform, Explains, StepFails;
    var f := ApplyFaults(w, w.faults, site.spec, r.state, site.scope, site.place);
    if f.Ok? {
      var at := AddressAt(who, site);
      forall n ensures Perform(w, f.value.0, f.value.1, at, r) == Ok(n) <==> exists locals, derived :: Explains(w, f.value.0, f.value.1, at, r, locals, derived, n) {
        PerformExactly(w, f.value.0, f.value.1, at, r, n);
      }
      forall x ensures Perform(w, f.value.0, f.value.1, at, r) == Err(x) <==> StepFails(w, f.value.0, at, r, x) {
        PerformFailsExactly(w, f.value.0, f.value.1, at, r, x);
      }
    }
  }
}
