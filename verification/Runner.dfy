/** The mutable runner: state, clock and history objects that one successful step updates together. */
module ScenarioRunners {
  import opened Order
  import opened Values
  import opened Expressions
  import opened Derivations
  import opened Steps

  class ScenarioState {
    var value: State

    constructor (initial: State)
      ensures value == initial
    {
      value := initial;
    }

    method Commit(candidate: State)
      modifies this
      ensures value == candidate
    {
      value := candidate;
    }
  }

  class ScenarioHistory {
    var records: seq<HistoryRecord>

    constructor ()
      ensures records == []
    {
      records := [];
    }

    method AppendCommitted(record: HistoryRecord)
      modifies this
      ensures records == old(records) + [record]
    {
      records := records + [record];
    }
  }

  class LogicalClock {
    var current: int

    constructor (reference: int)
      ensures current == reference
    {
      current := reference;
    }

    method Commit(timestamp: int)
      modifies this
      ensures current == timestamp
    {
      current := timestamp;
    }
  }

  class ScenarioRunner {
    const state: ScenarioState
    const clock: LogicalClock
    const history: ScenarioHistory
    var place: Place
    var artifacts: seq<Artifact>
    var nextStep: Option<string>

    constructor (initial: State, start: int)
      ensures fresh(state) && fresh(clock) && fresh(history)
      ensures View() == Runner(initial, start, [], [], None)
      ensures place == Place([], [], [])
    {
      state := new ScenarioState(initial);
      clock := new LogicalClock(start);
      history := new ScenarioHistory();
      place := Place([], [], []);
      artifacts := [];
      nextStep := None;
    }

    /** The value of everything a step may change. */
    ghost function View(): Runner
      reads this, state, clock, history
    {
      Runner(state.value, clock.current, history.records, artifacts, nextStep)
    }

    method SetPlace(p: Place)
      modifies this
      ensures place == p && View() == old(View())
    {
      place := p;
    }

    /** `run_step`: fills the locals, builds and validates the candidate, and only then commits
        state, history, artifacts and clock; every failure leaves all of them untouched. */
    method RunStep(w: World, who: Identity, spec: StepDoc, faults: seq<string>) returns (r: Result<Candidate>)
      modifies this, state, clock, history
      ensures r.Ok? <==> Perform(w, spec, faults, StepAddress(who, place, spec.id), old(View())).Ok?
      ensures r.Ok? ==> View() == Perform(w, spec, faults, StepAddress(who, place, spec.id), old(View())).value
      ensures r.Err? ==> View() == old(View())
      ensures r.Err? ==> Perform(w, spec, faults, StepAddress(who, place, spec.id), old(View())) == Err(r.error)
      ensures place == old(place)
    {
      var now := Runner(state.value, clock.current, history.records, artifacts, nextStep);
      r := BuildCandidate(w, spec, faults, StepAddress(who, place, spec.id), now);
      if r.Ok? {
        state.Commit(r.value.post);
        history.AppendCommitted(r.value.record);
        artifacts := artifacts + r.value.artifacts;
        clock.Commit(r.value.timestamp);
        nextStep := r.value.record.transition;
      }
    }
  }

  /** Everything up to the commit: reads the runner, changes nothing. */
  method BuildCandidate(w: World, spec: StepDoc, faults: seq<string>, at: Address, now: Runner) returns (r: Result<Candidate>)
    ensures r == Propose(w, spec, faults, at, now)
  {
    var locals := GenerateLocals(w, spec.generate, at, now);
    if locals.Err? { return Err(locals.error); }
    var derived := ResolveDerivations(w.prims, spec.derive, Env(now.state, locals.value, map[], None));
    if derived.Err? { return Err(derived.error); }
    var patch := EvalMap(w.prims, spec.write, Env(now.state, locals.value, derived.value, None));
    if patch.Err? { return Err(patch.error); }
    r := FinishCandidate(w, spec, faults, at, now, patch.value);
  }

  method FinishCandidate(w: World, spec: StepDoc, faults: seq<string>, at: Address, now: Runner, patch: map<string, Value>)
      returns (r: Result<Candidate>)
    ensures r == Complete(w, spec, faults, at, now, patch)
  {
    var post := now.state + patch;
    var timestamp := now.clock + spec.advance;
    var emitted := Emit(w, spec.emit, 0, post, at);
    if emitted.Err? { return Err(emitted.error); }
    var record := HistoryRecord(at, timestamp, w.fingerprint(now.state), patch, w.fingerprint(post),
                                Emitted(emitted.value), spec.transition, if faults == [] then None else Some(faults));
    var valid := CheckInvariants(w, w.invariants, post);
    if valid.Err? { return Err(valid.error); }
    r := Ok(Candidate(post, emitted.value, timestamp, record));
  }

  method GenerateLocals(w: World, gens: map<string, Generator>, at: Address, now: Runner) returns (r: Result<map<string, Value>>)
    ensures r == GenerateAll(w, gens, Sorted(gens.Keys), at, now)
  {
    SortedDistinct(gens.Keys);
    r := GenerateInOrder(w, gens, Sorted(gens.Keys), at, now);
  }

  /** The loop over sorted generator names. */
  method GenerateInOrder(w: World, gens: map<string, Generator>, names: seq<string>, at: Address, now: Runner)
      returns (r: Result<map<string, Value>>)
    requires Distinct(names) && forall n :: n in names ==> n in gens
    ensures r == GenerateAll(w, gens, names, at, now)
  {
    var locals: map<string, Value> := map[];
    var i := 0;
    JoinEmpty(GenerateAll(w, gens, names, at, now));
    assert names[0..] == names;
    while i < |names|
      invariant 0 <= i <= |names|
      invariant GenerateAll(w, gens, names, at, now) == Join(locals, GenerateAll(w, gens, names[i..], at, now))
    {
      var v := Generate(w, gens[names[i]], Child(at, ["generate", names[i]]), now);
      assert names[i..] == [names[i]] + names[i + 1..];
      if v.Err? {
        return Err(v.error);
      }
      JoinStep(w, gens, names[i], names[i + 1..], at, now, locals, v.value);
      locals := locals[names[i] := v.value];
      i := i + 1;
    }
    assert locals + map[] == locals;
    r := Ok(locals);
  }

  ghost function Join(left: map<string, Value>, right: Result<map<string, Value>>): Result<map<string, Value>> {
    match right case Ok(m) => Ok(left + m) case Err(e) => Err(e)
  }

  lemma JoinEmpty(r: Result<map<string, Value>>)
    ensures Join(map[], r) == r
  {
    if r.Ok? { assert map[] + r.value == r.value; }
  }

  lemma JoinStep(w: World, gens: map<string, Generator>, name: string, rest: seq<string>, at: Address, now: Runner,
                 locals: map<string, Value>, v: Value)
    requires name in gens && name !in rest && forall n :: n in rest ==> n in gens
    requires Generate(w, gens[name], Child(at, ["generate", name]), now) == Ok(v)
    ensures Join(locals, GenerateAll(w, gens, [name] + rest, at, now))
            == Join(locals[name := v], GenerateAll(w, gens, rest, at, now))
  {
    GeneratedNames(w, gens, rest, at, now);
    var r := GenerateAll(w, gens, rest, at, now);
    assert ([name] + rest)[1..] == rest;
    if r.Ok? {
      assert locals + r.value[name := v] == locals[name := v] + r.value;
    }
  }

  lemma {:induction false} GeneratedNames(w: World, gens: map<string, Generator>, names: seq<string>, at: Address, now: Runner)
    requires forall n :: n in names ==> n in gens
    ensures var r := GenerateAll(w, gens, names, at, now);
            r.Ok? ==> forall n :: n in r.value <==> n in names
    decreases |names|
  {
    if names != [] {
      GeneratedNames(w, gens, names[1..], at, now);
      assert names == [names[0]] + names[1..];
    }
  }
}
