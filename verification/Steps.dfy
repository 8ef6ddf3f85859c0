/** One whole executable step: compilation in its scope, declared faults, candidate
    construction and validation.  Nothing is committed unless the whole step succeeds. */
module Steps {
  import opened Order
  import opened Values
  import opened Expressions
  import opened Derivations

  datatype Generator =
    | IntegerIn(minimum: int, maximum: int)
    | LogicalId(slot: string)
    | Fixed(value: Value)
    | Plugin(name: string, version: string, args: map<string, Expr>)

  datatype Emission = Emission(kind: string, fields: map<string, Expr>)

  /** A step document; compiling one yields another whose references are literals. */
  datatype StepDoc = StepDoc(
    id: string,
    generate: map<string, Generator>,
    derive: map<string, Expr>,
    write: map<string, Expr>,
    emit: seq<Emission>,
    advance: nat,
    transition: Option<string>
  )

  /** Where in the control structure a step occurs. */
  datatype Place = Place(invocations: seq<nat>, repetitions: seq<nat>, path: seq<string>)

  datatype Address = Address(
    scenario: string, run: nat, invocations: seq<nat>, repetitions: seq<nat>,
    step: string, path: seq<string>, actor: Option<string>
  )

  datatype Artifact = Artifact(kind: string, value: Value, logicalId: string, address: Address)

  datatype HistoryRecord = HistoryRecord(
    address: Address, timestamp: int, before: string, patch: map<string, Value>, after: string,
    emitted: seq<(string, string)>, transition: Option<string>, faults: Option<seq<string>>
  )

  datatype FaultOperator =
    | OverrideWrite(target: string, value: Expr)
    | OverrideLocal(target: string, value: Expr)
    | SuppressEmissions

  /** A fault at the `before_step` hook. */
  datatype Fault = Fault(
    id: string, enabled: bool, step: string,
    path: Option<seq<string>>, repetitions: Option<seq<nat>>, operator: FaultOperator
  )

  datatype Draw = DrawInteger(minimum: int, maximum: int) | DrawId(slot: string)
                | DrawPlugin(name: string, version: string, args: map<string, Value>)

  /** Everything an execution is given: resolved resources, declared invariants and faults, and the
      abstract functions for addressed generation, logical identities, hashing and call-site identity. */
  datatype World = World(
    prims: Primitives,
    resources: map<string, Value>,
    invariants: seq<Expr>,
    faults: seq<Fault>,
    draw: (Draw, Address, int) -> Result<Value>,
    artifactId: Address -> string,
    fingerprint: State -> string,
    invocation: (string, string) -> nat
  )

  /** Observable execution state: what one committed step changes. */
  datatype Runner = Runner(
    state: State, clock: int, history: seq<HistoryRecord>, artifacts: seq<Artifact>, nextStep: Option<string>
  )

  datatype Identity = Identity(scenario: string, run: nat, actor: Option<string>)

  function StepAddress(who: Identity, place: Place, step: string): Address {
    Address(who.scenario, who.run, place.invocations, place.repetitions, step, [], who.actor)
  }

  function Child(a: Address, path: seq<string>): Address {
    a.(path := a.path + path)
  }

  // ---------------------------------------------------------------- compilation

  function CompileGenerator(w: World, g: Generator, scope: Scope): Result<Generator> {
    match g
    case Plugin(name, version, args) =>
      var compiled :- CompileMap(args, w.resources, scope);
      Ok(Plugin(name, version, compiled))
    case _ => Ok(g)
  }

  function CompileGenerators(w: World, gens: map<string, Generator>, names: seq<string>, scope: Scope): Result<map<string, Generator>>
    requires forall n :: n in names ==> n in gens
  {
    if names == [] then Ok(map[])
    else
      var g :- CompileGenerator(w, gens[names[0]], scope);
      var rest :- CompileGenerators(w, gens, names[1..], scope);
      Ok(rest[names[0] := g])
  }

  function CompileEmissions(w: World, emit: seq<Emission>, scope: Scope): Result<seq<Emission>> {
    if emit == [] then Ok([])
    else
      var fields :- CompileMap(emit[0].fields, w.resources, scope);
      var rest :- CompileEmissions(w, emit[1..], scope);
      Ok([Emission(emit[0].kind, fields)] + rest)
  }

  function CompileStep(w: World, doc: StepDoc, scope: Scope): Result<StepDoc> {
    var generate :- CompileGenerators(w, doc.generate, Sorted(doc.generate.Keys), scope);
    var derive :- CompileMap(doc.derive, w.resources, scope);
    var write :- CompileMap(doc.write, w.resources, scope);
    var emit :- CompileEmissions(w, doc.emit, scope);
    Ok(doc.(generate := generate, derive := derive, write := write, emit := emit))
  }

  // ---------------------------------------------------------------- faults

  predicate Matches(f: Fault, step: string, place: Place) {
    && f.enabled && f.step == step
    && (f.path.Some? ==> f.path.value == place.path)
    && (f.repetitions.Some? ==> f.repetitions.value == place.repetitions)
  }

  function ApplyFault(w: World, spec: StepDoc, f: Fault, state: State, scope: Scope): Result<StepDoc> {
    match f.operator
    case OverrideWrite(target, value) =>
      var compiled :- Compile(value, w.resources, scope);
      Ok(spec.(write := spec.write[target := compiled]))
    case OverrideLocal(target, value) =>
      var compiled :- Compile(value, w.resources, scope);
      var v :- Eval(w.prims, compiled, Env(state, map[], map[], scope));
      Ok(spec.(generate := spec.generate[target := Fixed(v)]))
    case SuppressEmissions => Ok(spec.(emit := []))
  }

  /** The faulted step and the identities of the faults that applied, in declaration order. */
  function ApplyFaults(w: World, faults: seq<Fault>, spec: StepDoc, state: State, scope: Scope, place: Place): Result<(StepDoc, seq<string>)> {
    if faults == [] then Ok((spec, []))
    else if !Matches(faults[0], spec.id, place) then ApplyFaults(w, faults[1..], spec, state, scope, place)
    else
      var next :- ApplyFault(w, spec, faults[0], state, scope);
      var rest :- ApplyFaults(w, faults[1..], next, state, scope, place);
      Ok((rest.0, [faults[0].id] + rest.1))
  }

  // ---------------------------------------------------------------- candidate construction

  function Generate(w: World, g: Generator, at: Address, r: Runner): Result<Value> {
    match g
    case IntegerIn(lo, hi) => w.draw(DrawInteger(lo, hi), at, r.clock)
    case LogicalId(slot) => w.draw(DrawId(slot), at, r.clock)
    case Fixed(v) => Ok(v)
    case Plugin(name, version, args) =>
      var values :- EvalMap(w.prims, args, Env(r.state, map[], map[], None));
      w.draw(DrawPlugin(name, version, values), at, r.clock)
  }

  function GenerateAll(w: World, gens: map<string, Generator>, names: seq<string>, at: Address, r: Runner): Result<map<string, Value>>
    requires forall n :: n in names ==> n in gens
  {
    if names == [] then Ok(map[])
    else
      var v :- Generate(w, gens[names[0]], Child(at, ["generate", names[0]]), r);
      var rest :- GenerateAll(w, gens, names[1..], at, r);
      Ok(rest[names[0] := v])
  }

  /** Emissions see the post-state only. */
  function Emit(w: World, emit: seq<Emission>, ordinal: nat, post: State, at: Address): Result<seq<Artifact>> {
    if emit == [] then Ok([])
    else
      var value :- EvalMap(w.prims, emit[0].fields, Env(post, map[], map[], None));
      var place := Child(at, ["emit", Digits(ordinal), emit[0].kind]);
      var rest :- Emit(w, emit[1..], ordinal + 1, post, at);
      Ok([Artifact(emit[0].kind, Dict(value), w.artifactId(place), place)] + rest)
  }

  /** Declared invariants are evaluated in order against the candidate post-state. */
  function CheckInvariants(w: World, invariants: seq<Expr>, post: State): Result<()> {
    if invariants == [] then Ok(())
    else
      var v :- Eval(w.prims, invariants[0], Env(post, map[], map[], None));
      if !v.Bool? then Err(InvariantDefinition)
      else if !v.flag then Err(InvariantViolation)
      else CheckInvariants(w, invariants[1..], post)
  }

  function Emitted(artifacts: seq<Artifact>): seq<(string, string)> {
    if artifacts == [] then [] else [(artifacts[0].logicalId, artifacts[0].kind)] + Emitted(artifacts[1..])
  }

  datatype Candidate = Candidate(post: State, artifacts: seq<Artifact>, timestamp: int, record: HistoryRecord)

  /** Builds and validates a candidate; the runner is only read. */
  function Propose(w: World, spec: StepDoc, faults: seq<string>, at: Address, r: Runner): Result<Candidate> {
    var locals :- GenerateAll(w, spec.generate, Sorted(spec.generate.Keys), at, r);
    var derived :- Derive(w.prims, spec.derive, Env(r.state, locals, map[], None));
    var patch :- EvalMap(w.prims, spec.write, Env(r.state, locals, derived, None));
    Complete(w, spec, faults, at, r, patch)
  }

  /** From the patch to the validated candidate. */
  function Complete(w: World, spec: StepDoc, faults: seq<string>, at: Address, r: Runner, patch: map<string, Value>): Result<Candidate> {
    var post := r.state + patch;
    var timestamp := r.clock + spec.advance;
    var artifacts :- Emit(w, spec.emit, 0, post, at);
    var record := HistoryRecord(at, timestamp, w.fingerprint(r.state), patch, w.fingerprint(post),
                                Emitted(artifacts), spec.transition, if faults == [] then None else Some(faults));
    var _ :- CheckInvariants(w, w.invariants, post);
    Ok(Candidate(post, artifacts, timestamp, record))
  }

  function Commit(r: Runner, c: Candidate): Runner {
    Runner(c.post, c.timestamp, r.history + [c.record], r.artifacts + c.artifacts, c.record.transition)
  }

  function Perform(w: World, spec: StepDoc, faults: seq<string>, at: Address, r: Runner): Result<Runner> {
    var c :- Propose(w, spec, faults, at, r);
    Ok(Commit(r, c))
  }

  /** A step occurrence ready to execute: its compiled form, its scope and its place. */
  datatype Site = Site(spec: StepDoc, scope: Scope, place: Place)

  /** Faults, then the whole step. */
  function ExecuteSite(w: World, who: Identity, site: Site, r: Runner): Result<Runner> {
    var faulted :- ApplyFaults(w, w.faults, site.spec, r.state, site.scope, site.place);
    Perform(w, faulted.0, faulted.1, StepAddress(who, site.place, site.spec.id), r)
  }

  // ---------------------------------------------------------------- what a committed step guarantees

  ghost predicate Holds(w: World, state: State) {
    forall i :: 0 <= i < |w.invariants| ==>
      Eval(w.prims, w.invariants[i], Env(state, map[], map[], None)) == Ok(Bool(true))
  }

  lemma {:induction false} InvariantsExactly(w: World, invariants: seq<Expr>, post: State)
    ensures CheckInvariants(w, invariants, post).Ok?
            <==> forall i :: 0 <= i < |invariants| ==>
                   Eval(w.prims, invariants[i], Env(post, map[], map[], None)) == Ok(Bool(true))
    decreases |invariants|
  {
    hide Eval;
    if invariants != [] {
      InvariantsExactly(w, invariants[1..], post);
      assert forall i :: 0 < i < |invariants| ==> invariants[i] == invariants[1..][i - 1];
      var v := Eval(w.prims, invariants[0], Env(post, map[], map[], None));
      if v == Ok(Bool(true)) {
        if forall i :: 0 <= i < |invariants[1..]| ==>
             Eval(w.prims, invariants[1..][i], Env(post, map[], map[], None)) == Ok(Bool(true)) {
          forall i | 0 <= i < |invariants|
            ensures Eval(w.prims, invariants[i], Env(post, map[], map[], None)) == Ok(Bool(true))
          {
            if i > 0 { assert invariants[i] == invariants[1..][i - 1]; }
          }
        }
      }
    }
  }

  /** What no fault changes. */
  predicate SameStep(a: StepDoc, b: StepDoc) {
    a.id == b.id && a.derive == b.derive && a.advance == b.advance && a.transition == b.transition
  }

  lemma FaultKeepsStep(w: World, spec: StepDoc, f: Fault, state: State, scope: Scope)
    ensures var r := ApplyFault(w, spec, f, state, scope); r.Ok? ==> SameStep(r.value, spec)
  {
    hide Compile, Eval;
  }

  lemma {:induction false} FaultsKeepStep(w: World, faults: seq<Fault>, spec: StepDoc, state: State, scope: Scope, place: Place)
    ensures var r := ApplyFaults(w, faults, spec, state, scope, place); r.Ok? ==> SameStep(r.value.0, spec)
    decreases |faults|
  {
    hide ApplyFault, Matches;
    if faults != [] {
      if !Matches(faults[0], spec.id, place) {
        FaultsKeepStep(w, faults[1..], spec, state, scope, place);
      } else {
        FaultKeepsStep(w, spec, faults[0], state, scope);
        var next := ApplyFault(w, spec, faults[0], state, scope);
        if next.Ok? { FaultsKeepStep(w, faults[1..], next.value, state, scope, place); }
      }
    }
  }

  /** One committed step appends exactly one record that accounts for the whole change. */
  lemma CommittedStep(w: World, who: Identity, site: Site, r: Runner)
    requires ExecuteSite(w, who, site, r).Ok?
    ensures var n := ExecuteSite(w, who, site, r).value;
            && |n.history| == |r.history| + 1 && n.history[..|r.history|] == r.history
            && (var h := n.history[|r.history|];
                && h.address == StepAddress(who, site.place, site.spec.id)
                && h.timestamp == n.clock == r.clock + site.spec.advance
                && h.before == w.fingerprint(r.state) && h.after == w.fingerprint(n.state)
                && n.state == r.state + h.patch
                && h.transition == site.spec.transition == n.nextStep
                && n.artifacts[..|r.artifacts|] == r.artifacts
                && h.emitted == Emitted(n.artifacts[|r.artifacts|..]))
            && |n.artifacts| >= |r.artifacts|
            && Holds(w, n.state)
  {
    hide ApplyFaults, GenerateAll, Derive, EvalMap, Emit, CheckInvariants, Emitted;
    FaultsKeepStep(w, w.faults, site.spec, r.state, site.scope, site.place);
    var faulted := ApplyFaults(w, w.faults, site.spec, r.state, site.scope, site.place).value;
    var c := Propose(w, faulted.0, faulted.1, StepAddress(who, site.place, site.spec.id), r).value;
    InvariantsExactly(w, w.invariants, c.post);
    assert (r.artifacts + c.artifacts)[|r.artifacts|..] == c.artifacts;
  }
}
