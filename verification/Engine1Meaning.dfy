/** What Engine 1 does with a whole program, stated as a relation: a document that does not compile is
    refused before anything runs; any other runs its steps as the big-step relation says. */
module Engine1Meaning {
  import opened Order
  import opened Values
  import opened Steps
  import opened Programs
  import opened Mappings
  import opened Interpreter
  import opened BigStep
  import opened Actors
  import opened SingleActor

  predicate FlowUncompiled(w: World, p: Program, name: string) {
    name in p.subflows && CompileSequence(w, p.subflows[name], None).Err?
  }

  /** The first failing step of the program's own steps, or else of the first failing subflow by name. */
  ghost predicate DocumentFails(w: World, p: Program, x: Error) {
    || CompilationFails(w, p.steps, None, x)
    || ((forall y :: !CompilationFails(w, p.steps, None, y)) && FlowsFail(w, p, x))
  }

  ghost predicate FlowsFail(w: World, p: Program, x: Error) {
    exists name :: First(p.subflows.Keys, name, n => FlowUncompiled(w, p, n))
      && name in p.subflows && CompilationFails(w, p.subflows[name], None, x)
  }

  lemma {:induction false} FlowsUncompiled(w: World, p: Program, names: seq<string>, i: nat)
    requires (forall n :: n in names ==> n in p.subflows) && i <= |names|
    requires forall j: nat :: j < i ==> !FlowUncompiled(w, p, names[j])
    requires i < |names| ==> FlowUncompiled(w, p, names[i])
    ensures var r := CompileFlows(w, p, names);
            if i < |names| then r == Err(CompileSequence(w, p.subflows[names[i]], None).error) else r.Ok?
    decreases |names|
  {
    hide CompileSequence;
    if i > 0 {
      assert forall j: nat :: 0 < j < |names| ==> names[j] == names[1..][j - 1];
      assert !FlowUncompiled(w, p, names[0]);
      FlowsUncompiled(w, p, names[1..], i - 1);
    }
  }

  lemma FirstFlow(w: World, p: Program, x: Error)
    requires FlowsFail(w, p, x)
    ensures CompileFlows(w, p, Sorted(p.subflows.Keys)) == Err(x)
  {
    hide CompileSequence, CompileFlows, First, CompilationFails;
    var stops := n => FlowUncompiled(w, p, n);
    var name :| First(p.subflows.Keys, name, stops) && name in p.subflows && CompilationFails(w, p.subflows[name], None, x);
    var j := FirstIndex(p.subflows.Keys, name, stops);
    CompileSequenceExactly(w, p.subflows[name], None, x);
    assert FlowUncompiled(w, p, name);
    forall l: nat | l < j ensures !FlowUncompiled(w, p, Sorted(p.subflows.Keys)[l]) { assert !stops(Sorted(p.subflows.Keys)[l]); }
    FlowsUncompiled(w, p, Sorted(p.subflows.Keys), j);
  }

  lemma FlowsFailExactly(w: World, p: Program, x: Error)
    ensures CompileFlows(w, p, Sorted(p.subflows.Keys)) == Err(x) <==> FlowsFail(w, p, x)
  {
    hide CompileSequence, CompileFlows, First, CompilationFails;
    if FlowsFail(w, p, x) { FirstFlow(w, p, x); }
    var names := Sorted(p.subflows.Keys);
    var stops := n => FlowUncompiled(w, p, n);
    var i := Until(names, stops);
    FlowsUncompiled(w, p, names, i);
    if i < |names| {
      UntilFirst(p.subflows.Keys, stops, i);
      CompileSequenceExactly(w, p.subflows[names[i]], None, x);
    }
  }

  lemma DocumentFailsExactly(w: World, p: Program, x: Error)
    ensures CompileDocument(w, p) == Err(x) <==> DocumentFails(w, p, x)
  {
    hide CompileSequence, CompileFlows, CompilationFails, FlowsFail;
    forall y ensures CompileSequence(w, p.steps, None) == Err(y) <==> CompilationFails(w, p.steps, None, y) {
      CompileSequenceExactly(w, p.steps, None, y);
    }
    FlowsFailExactly(w, p, x);
    var r := CompileSequence(w, p.steps, None);
    if r.Err? { assert CompilationFails(w, p.steps, None, r.error); }
  }

  /** Each step occurrence is executed on the state the runner shows. */
  ghost function Machinery(w: World, sc: Scenario, run: nat, p: Program, rank: map<string, nat>): Ctx<Runner> {
    Ctx(w, p, rank, RunnerMachine(w, Identity(sc.id, run, None)), true)
  }

  lemma MachineryMeans(w: World, sc: Scenario, run: nat, p: Program, rank: map<string, nat>, site: Site, r: Runner)
    ensures var c := Machinery(w, sc, run, p, rank);
            c.m.view(r) == r.state && c.m.exec(site, r) == ExecuteSite(w, Identity(sc.id, run, None), site, r) && c.eager
  {
  }

  ghost predicate Engine1Means(w: World, sc: Scenario, run: nat, p: Program, rank: map<string, nat>, o: Outcome<Runner>)
    requires Ranked(p, rank)
  {
    var initial := Runner(sc.initial, sc.start, [], [], None);
    if exists x :: DocumentFails(w, p, x) then exists x :: DocumentFails(w, p, x) && o == Refused(initial, x)
    else SequenceRuns(Machinery(w, sc, run, p, rank), None, 0, None, Place([], [], []), initial, o)
  }

  lemma Engine1Exactly(w: World, sc: Scenario, run: nat, p: Program, rank: map<string, nat>, o: Outcome<Runner>)
    requires Ranked(p, rank)
    ensures o == Engine1(w, sc, run, p, rank) <==> Engine1Means(w, sc, run, p, rank, o)
  {
    hide CompileDocument, DocumentFails, SequenceRuns, ExecSequence, Ranked;
    forall x ensures CompileDocument(w, p) == Err(x) <==> DocumentFails(w, p, x) { DocumentFailsExactly(w, p, x); }
    var compiled := CompileDocument(w, p);
    if compiled.Err? { assert DocumentFails(w, p, compiled.error); }
    SequenceExactly(Machinery(w, sc, run, p, rank), None, 0, None, Place([], [], []), Runner(sc.initial, sc.start, [], [], None), o);
  }
}
