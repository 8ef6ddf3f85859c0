/** The greedy actor-deletion shrinker: what it may remove, what it keeps, when its result is
    one-minimal, and how many evaluations and executions it spends. */
module Shrinking {
  import opened Order
  import opened Values

  datatype Actor = Actor(steps: seq<string>, subflows: map<string, string>, rest: string)

  /** A validated scenario document; `other` is its payload without the actors. */
  datatype Doc = Doc(actors: map<string, Actor>, other: string, invariants: seq<string>)

  datatype Failure = Failure(actor: string, code: string, ordinal: nat)

  datatype Signature = Signature(classification: string, failure: Option<Failure>)

  /** One execution: native result and schedule, and the violated invariant and step. */
  datatype Run = Run(
    result: string, schedule: string, signature: Signature, scheduleFailure: Option<Failure>,
    scheduleReference: string, scheduleHash: string, resultScenario: string, scheduleScenario: string,
    resources: string, scheduleResources: string, violated: string, step: string, selected: seq<string>)

  /** What lies outside the shrinker: parsing, textual splicing, the reading of the evidence, plugins, the
      request's coordinates, resources, execution, replay and the clock.  Executions and clock readings
      are numbered, so they may differ from one time to the next. */
  datatype Env = Env(
    validate: string -> Option<Doc>, layout: string -> bool, splice: (string, string) -> Option<string>,
    legible: Run -> bool, plugins: Doc -> bool, coordinates: (Run, Doc) -> bool, resources: Doc -> Option<string>,
    hash: Doc -> string, execute: (Doc, nat) -> Option<Run>, replay: (Run, Doc, nat) -> bool, late: nat -> bool)

  datatype Request = Request(source: string, run: Run, maxEvaluations: nat, maxExecutions: nat, repetitions: nat)

  datatype Stop = DEADLINE_REACHED | TOTAL_EXECUTION_BUDGET_EXHAUSTED | EVALUATION_BUDGET_EXHAUSTED | NO_FURTHER_ACCEPTABLE_DELETION

  // ---------------------------------------------------------------- which deletion is a candidate

  /** `_content_guard`. */
  predicate Guarded(original: Doc, candidate: Doc, removed: set<string>, target: string) {
    && original.other == candidate.other
    && candidate.actors.Keys == original.actors.Keys - removed
    && (forall a :: a in candidate.actors ==> candidate.actors[a] == original.actors[a])
    && target in candidate.actors
    && |candidate.invariants| == 1 && candidate.invariants == original.invariants
  }

  /** The candidate source and document after deleting one more actor; None counts as invalid. */
  function Candidate(env: Env, original: Doc, source: string, current: Doc, removed: set<string>, address: string, target: string): Option<(string, Doc)> {
    match env.splice(source, address)
    case None => None
    case Some(text) =>
      match env.validate(text)
      case None => None
      case Some(doc) =>
        if env.layout(text) && |doc.actors| < |current.actors| && Guarded(original, doc, removed + {address}, target)
        then Some((text, doc)) else None
  }

  /** A deletion is a candidate exactly when the spliced source is valid and differs from the original by
      the removed actors alone, keeps the target, and has the one invariant. */
  lemma CandidateExactly(env: Env, original: Doc, source: string, current: Doc, removed: set<string>, address: string, target: string, text: string, doc: Doc)
    ensures Candidate(env, original, source, current, removed, address, target) == Some((text, doc))
            <==> env.splice(source, address) == Some(text) && env.validate(text) == Some(doc) && env.layout(text)
                 && |doc.actors| < |current.actors| && |original.invariants| == 1
                 && doc == Doc(original.actors - (removed + {address}), original.other, original.invariants)
                 && target in original.actors && target !in removed && target != address
  {
    var gone := removed + {address};
    if Guarded(original, doc, gone, target) { assert doc.actors == original.actors - gone; }
    if doc == Doc(original.actors - gone, original.other, original.invariants) { assert doc.actors.Keys == original.actors.Keys - gone; }
  }

  // ---------------------------------------------------------------- when a candidate is accepted

  /** What every accepted run must show again. */
  datatype Goal = Goal(signature: Signature, violated: string, step: string, resources: string)

  predicate Reproduces(goal: Goal, first: Run, hash: string) {
    && first.signature == goal.signature
    && first.scheduleFailure.Some? && first.signature.failure == first.scheduleFailure
    && first.scheduleReference == first.scheduleHash
    && first.resultScenario == hash && first.scheduleScenario == hash
    && first.resources == goal.resources
  }

  /** The runs numbered from `start` on all failed natively, identically and on the target. */
  predicate Repeats(env: Env, goal: Goal, doc: Doc, start: nat, n: nat) {
    && (forall i :: start <= i < start + n ==> env.execute(doc, i).Some?)
    && forall i :: start <= i < start + n ==>
         && env.execute(doc, i).value.result == env.execute(doc, start).value.result
         && env.execute(doc, i).value.schedule == env.execute(doc, start).value.schedule
         && env.execute(doc, i).value.violated == goal.violated
         && env.execute(doc, i).value.step == goal.step
  }

  /** The acceptance predicate of one evaluation whose first execution has number `start`. */
  predicate Accepts(env: Env, goal: Goal, doc: Doc, start: nat, repetitions: nat)
    requires repetitions > 0
  {
    && Repeats(env, goal, doc, start, repetitions)
    && Reproduces(goal, env.execute(doc, start).value, env.hash(doc))
    && env.replay(env.execute(doc, start).value, doc, start + repetitions)
  }

  /** An evaluation is accepted exactly when every run fails as the first one does, on the target step and
      invariant, the first one shows the expected signature, its schedule's own failure, hashes that fit the
      candidate and the accepted resources, and then replays exactly. */
  lemma AcceptsExactly(env: Env, goal: Goal, doc: Doc, start: nat, repetitions: nat)
    requires repetitions > 0
    ensures Accepts(env, goal, doc, start, repetitions)
            <==> env.execute(doc, start).Some?
                 && (var first := env.execute(doc, start).value;
                     && (forall i :: start <= i < start + repetitions ==> SameRun(env.execute(doc, i), first, goal))
                     && first.signature == goal.signature && first.signature.failure.Some? && first.scheduleFailure == first.signature.failure
                     && first.scheduleReference == first.scheduleHash && first.resources == goal.resources
                     && first.resultScenario == env.hash(doc) && first.scheduleScenario == env.hash(doc)
                     && env.replay(first, doc, start + repetitions))
  {
    if Repeats(env, goal, doc, start, repetitions) {
      assert env.execute(doc, start).Some?;
      forall i | start <= i < start + repetitions ensures SameRun(env.execute(doc, i), env.execute(doc, start).value, goal) {
        assert env.execute(doc, i).Some?;
      }
    }
    if env.execute(doc, start).Some? && forall i :: start <= i < start + repetitions ==> SameRun(env.execute(doc, i), env.execute(doc, start).value, goal) {
      forall i | start <= i < start + repetitions ensures env.execute(doc, i).Some? {
        assert SameRun(env.execute(doc, i), env.execute(doc, start).value, goal);
      }
    }
  }

  predicate SameRun(run: Option<Run>, first: Run, goal: Goal) {
    && run.Some? && run.value.result == first.result && run.value.schedule == first.schedule
    && run.value.violated == goal.violated && run.value.step == goal.step
  }

  // ---------------------------------------------------------------- the execution budget

  class Budget {
    const env: Env
    const limit: nat
    var executions: nat
    var readings: nat
    var stop: Option<Stop>

    constructor (env: Env, limit: nat)
      ensures this.env == env && this.limit == limit && executions == 0 && readings == 0 && stop == None
    {
      this.env, this.limit := env, limit;
      executions, readings, stop := 0, 0, None;
    }

    /** No clock reading so far was late. */
    ghost predicate InTime()
      reads this`readings
    {
      forall r: nat :: r < readings ==> !env.late(r)
    }

    /** A stop is recorded for its own reason only: the last reading was the first late one, or none was
        and the limit was met. */
    ghost predicate StopsRightly()
      reads this
    {
      && (stop == None ==> InTime())
      && (stop == Some(DEADLINE_REACHED) ==> readings > 0 && env.late(readings - 1) && forall r: nat :: r < readings - 1 ==> !env.late(r))
      && (stop == Some(TOTAL_EXECUTION_BUDGET_EXHAUSTED) ==> InTime() && executions == limit)
      && (stop.Some? ==> stop.value == DEADLINE_REACHED || stop.value == TOTAL_EXECUTION_BUDGET_EXHAUSTED)
    }

    method Late() returns (late: bool)
      modifies this`readings
      ensures readings == old(readings) + 1 && late == env.late(old(readings))
    {
      late := env.late(readings);
      readings := readings + 1;
    }

    /** `_Budget.take`. */
    method Take() returns (ok: bool)
      requires executions <= limit && stop == None && StopsRightly()
      modifies this
      ensures executions <= limit && StopsRightly() && readings == old(readings) + 1
      ensures ok ==> executions == old(executions) + 1 && stop == None
      ensures !ok ==> executions == old(executions) && stop.Some?
    {
      var late := Late();
      if late {
        stop := Some(DEADLINE_REACHED);
        return false;
      }
      if executions >= limit {
        stop := Some(TOTAL_EXECUTION_BUDGET_EXHAUSTED);
        return false;
      }
      executions := executions + 1;
      ok := true;
    }

    /** `_run_failed`: one numbered execution, None when it did not fail natively or was not allowed. */
    method RunFailed(doc: Doc) returns (run: Option<Run>)
      requires executions <= limit && stop == None && StopsRightly()
      modifies this
      ensures executions <= limit && StopsRightly() && readings == old(readings) + 1
      ensures stop == None ==> executions == old(executions) + 1 && run == env.execute(doc, old(executions))
      ensures stop.Some? ==> run == None && executions == old(executions)
    {
      var ok := Take();
      if !ok { return None; }
      run := env.execute(doc, executions - 1);
    }

    /** `_replay`. */
    method Replay(run: Run, doc: Doc) returns (exact: bool)
      requires executions <= limit && stop == None && StopsRightly()
      modifies this
      ensures executions <= limit && StopsRightly() && readings == old(readings) + 1
      ensures stop == None ==> executions == old(executions) + 1 && exact == env.replay(run, doc, old(executions))
      ensures stop.Some? ==> !exact && executions == old(executions)
    {
      var ok := Take();
      if !ok { return false; }
      exact := env.replay(run, doc, executions - 1);
    }

    /** The body of one evaluation: repeated runs, the predicate, one replay of the first run. */
    method Evaluate(goal: Goal, doc: Doc, repetitions: nat) returns (accepted: Option<Run>)
      requires repetitions > 0 && executions <= limit && stop == None && StopsRightly()
      modifies this
      ensures executions <= limit && old(executions) <= executions <= old(executions) + repetitions + 1
      ensures StopsRightly() && readings - old(readings) == executions - old(executions) + if stop == None then 0 else 1
      ensures stop.Some? ==> accepted == None
      ensures stop == None ==> (accepted.Some? <==> Accepts(env, goal, doc, old(executions), repetitions))
      ensures accepted.Some? ==> accepted == env.execute(doc, old(executions)) && old(executions) + repetitions < executions
      ensures stop == None ==> old(executions) < executions
    {
      hide StopsRightly;
      ghost var start := executions;
      var runs: seq<Run> := [];
      while |runs| < repetitions
        invariant |runs| <= repetitions && stop == None && executions == start + |runs| <= limit
        invariant StopsRightly() && readings == old(readings) + |runs|
        invariant forall i :: 0 <= i < |runs| ==> env.execute(doc, start + i) == Some(runs[i])
        decreases repetitions - |runs|
      {
        var run := RunFailed(doc);
        if run == None {
          assert stop == None ==> env.execute(doc, start + |runs|) == None;
          return None;
        }
        runs := runs + [run.value];
      }
      var first := runs[0];
      assert env.execute(doc, start + 0) == Some(first);
      var same := forall i :: 0 <= i < |runs| ==>
        && runs[i].result == first.result && runs[i].schedule == first.schedule
        && runs[i].violated == goal.violated && runs[i].step == goal.step;
      SameRuns(env, goal, doc, start, runs);
      if !same || !Reproduces(goal, first, env.hash(doc)) { return None; }
      var exact := Replay(first, doc);
      accepted := if exact then Some(first) else None;
    }
  }

  lemma SameRuns(env: Env, goal: Goal, doc: Doc, start: nat, runs: seq<Run>)
    requires |runs| > 0 && forall i :: 0 <= i < |runs| ==> env.execute(doc, start + i) == Some(runs[i])
    ensures Repeats(env, goal, doc, start, |runs|)
       <==> forall i :: 0 <= i < |runs| ==>
              && runs[i].result == runs[0].result && runs[i].schedule == runs[0].schedule
              && runs[i].violated == goal.violated && runs[i].step == goal.step
  {
    assert env.execute(doc, start + 0) == Some(runs[0]);
    forall i | start <= i < start + |runs| ensures env.execute(doc, i) == Some(runs[i - start]) {
      assert env.execute(doc, start + (i - start)) == Some(runs[i - start]);
    }
    forall i | 0 <= i < |runs| ensures runs[i] == env.execute(doc, start + i).value {}
  }

  // ---------------------------------------------------------------- one pass over the eligible actors

  /** Evaluations used by `k` complete passes over `n` eligible actors, one removed by each. */
  function Spent(n: nat, k: nat): nat
    requires k <= n + 1
  {
    if k == 0 then 0 else Spent(n, k - 1) + (n - (k - 1))
  }

  lemma {:induction false} SpentBound(n: nat, k: nat)
    requires k <= n + 1
    ensures 2 * Spent(n, k) == k * (2 * n + 1 - k)
    ensures 2 * Spent(n, k) <= n * (n + 1)
  {
    if k > 0 {
      SpentBound(n, k - 1);
      NextRow(k - 1, 2 * n + 1);
    }
    if k <= n { Triangle(k, n - k); }
  }

  lemma NextRow(a: int, m: int)
    ensures (a + 1) * (m - (a + 1)) == a * (m - a) + (m - 2 * a - 1)
  {
  }

  lemma Triangle(k: nat, d: nat)
    ensures k * (k + 2 * d + 1) <= (k + d) * (k + d + 1)
  {
    assert (k + d) * (k + d + 1) == k * (k + 2 * d + 1) + d * (d + 1);
  }

  /** The executions allowed after `evaluations` evaluations of `r` runs each. */
  function Allowance(r: nat, evaluations: nat): nat {
    1 + r + evaluations * (r + 1)
  }

  lemma AllowanceStep(r: nat, evaluations: nat)
    ensures Allowance(r, evaluations + 1) == Allowance(r, evaluations) + r + 1
  {
  }

  /** Deleting `address` from the accepted source is invalid, or an evaluation of it, beginning with one of
      the `used` executions performed, was not accepted. */
  ghost predicate Undeletable(env: Env, goal: Goal, original: Doc, source: string, current: Doc, removed: set<string>, address: string, target: string, repetitions: nat, used: nat)
    requires repetitions > 0
  {
    match Candidate(env, original, source, current, removed, address, target)
    case None => true
    case Some(candidate) => exists e: nat :: e < used && !Accepts(env, goal, candidate.1, e, repetitions)
  }

  lemma StillUndeletable(env: Env, goal: Goal, original: Doc, source: string, current: Doc, removed: set<string>, address: string, target: string, repetitions: nat, used: nat, more: nat)
    requires repetitions > 0 && used <= more
    requires Undeletable(env, goal, original, source, current, removed, address, target, repetitions, used)
    ensures Undeletable(env, goal, original, source, current, removed, address, target, repetitions, more)
  {
    hide Candidate, Accepts;
  }

  /** The eligible actors from position `i` on that are still present. */
  function Present(eligible: seq<string>, i: nat, removed: seq<string>): set<string>
    requires i <= |eligible|
  {
    set a | a in eligible[i..] && a !in removed
  }

  lemma PresentStep(eligible: seq<string>, i: nat, removed: seq<string>)
    requires i < |eligible| && Distinct(eligible)
    ensures eligible[i] in removed ==> Present(eligible, i, removed) == Present(eligible, i + 1, removed)
    ensures eligible[i] !in removed ==> |Present(eligible, i, removed)| == |Present(eligible, i + 1, removed)| + 1
  {
    var now, next := Present(eligible, i, removed), Present(eligible, i + 1, removed);
    assert forall a :: a in eligible[i..] <==> a == eligible[i] || a in eligible[i + 1..];
    if eligible[i] !in removed {
      assert now == next + {eligible[i]};
      assert eligible[i] !in next;
    } else {
      assert now == next;
    }
  }

  lemma {:induction false} DistinctSize(q: seq<string>)
    requires Distinct(q)
    ensures |Elements(q)| == |q|
    decreases |q|
  {
    if q == [] {
      assert Elements(q) == {};
    } else {
      DistinctSize(q[1..]);
      assert q == [q[0]] + q[1..];
      assert Elements(q) == {q[0]} + Elements(q[1..]);
      assert q[0] !in Elements(q[1..]);
    }
  }

  lemma PresentSize(eligible: seq<string>, removed: seq<string>)
    requires Distinct(eligible) && Distinct(removed) && forall a :: a in removed ==> a in eligible
    ensures |Present(eligible, 0, removed)| == |eligible| - |removed|
  {
    DistinctSize(eligible);
    DistinctSize(removed);
    assert eligible[0..] == eligible;
    assert Present(eligible, 0, removed) == Elements(eligible) - Elements(removed);
    assert Elements(removed) <= Elements(eligible);
    assert |Elements(eligible) - Elements(removed)| == |Elements(eligible)| - |Elements(removed)|;
  }

  lemma CandidateKept(env: Env, original: Doc, source: string, current: Doc, removed: set<string>, address: string, target: string)
    ensures var c := Candidate(env, original, source, current, removed, address, target);
            c.Some? ==> env.validate(c.value.0) == Some(c.value.1) && Guarded(original, c.value.1, removed + {address}, target)
  {
    hide Guarded;
  }

  lemma AcceptedSignature(env: Env, goal: Goal, doc: Doc, start: nat, repetitions: nat)
    requires repetitions > 0 && Accepts(env, goal, doc, start, repetitions)
    ensures env.execute(doc, start).Some? && env.execute(doc, start).value.signature == goal.signature
  {
  }

  // ---------------------------------------------------------------- the order of deletions

  /** An evaluation that began with execution e was accepted, all its executions being among those performed. */
  predicate AcceptedFrom(env: Env, goal: Goal, doc: Doc, repetitions: nat, used: nat, e: nat)
    requires repetitions > 0
  {
    e + repetitions < used && Accepts(env, goal, doc, e, repetitions)
  }

  ghost predicate Proven(env: Env, goal: Goal, doc: Doc, repetitions: nat, used: nat)
    requires repetitions > 0
  {
    exists e: nat :: AcceptedFrom(env, goal, doc, repetitions, used, e)
  }

  /** The k-th deletion: its candidate was accepted by executions that were performed, and every
      remaining eligible actor before it was tried in vain on the same source. */
  ghost predicate Deleted(env: Env, goal: Goal, original: Doc, eligible: seq<string>, target: string, repetitions: nat,
                          removed: seq<string>, trail: seq<(string, Doc)>, k: nat, used: nat)
    requires repetitions > 0 && k < |removed| && |trail| == |removed| + 1
  {
    var gone := Elements(removed[..k]);
    && removed[k] in eligible && removed[k] !in gone
    && Candidate(env, original, trail[k].0, trail[k].1, gone, removed[k], target) == Some(trail[k + 1])
    && Proven(env, goal, trail[k + 1].1, repetitions, used)
    && forall i, j :: 0 <= i < j < |eligible| && eligible[j] == removed[k] && eligible[i] !in gone ==>
         Undeletable(env, goal, original, trail[k].0, trail[k].1, gone, eligible[i], target, repetitions, used)
  }

  /** The sources passed through, from the first to the current one, each by one deletion. */
  ghost predicate Greedy(env: Env, goal: Goal, original: Doc, eligible: seq<string>, target: string, repetitions: nat,
                         removed: seq<string>, trail: seq<(string, Doc)>, used: nat)
    requires repetitions > 0
  {
    |trail| == |removed| + 1
    && forall k :: 0 <= k < |removed| ==> Deleted(env, goal, original, eligible, target, repetitions, removed, trail, k, used)
  }

  lemma GreedyLater(env: Env, goal: Goal, original: Doc, eligible: seq<string>, target: string, repetitions: nat,
                    removed: seq<string>, trail: seq<(string, Doc)>, used: nat, more: nat)
    requires repetitions > 0 && used <= more && Greedy(env, goal, original, eligible, target, repetitions, removed, trail, used)
    ensures Greedy(env, goal, original, eligible, target, repetitions, removed, trail, more)
  {
    hide Accepts, Candidate, Undeletable, Elements;
    forall k | 0 <= k < |removed| ensures Deleted(env, goal, original, eligible, target, repetitions, removed, trail, k, more) {
      var gone := Elements(removed[..k]);
      assert Deleted(env, goal, original, eligible, target, repetitions, removed, trail, k, used);
      var e: nat :| AcceptedFrom(env, goal, trail[k + 1].1, repetitions, used, e);
      assert AcceptedFrom(env, goal, trail[k + 1].1, repetitions, more, e);
      forall i, j | 0 <= i < j < |eligible| && eligible[j] == removed[k] && eligible[i] !in gone
        ensures Undeletable(env, goal, original, trail[k].0, trail[k].1, gone, eligible[i], target, repetitions, more)
      {
        StillUndeletable(env, goal, original, trail[k].0, trail[k].1, gone, eligible[i], target, repetitions, used, more);
      }
    }
  }

  lemma GreedyNext(env: Env, goal: Goal, original: Doc, eligible: seq<string>, target: string, repetitions: nat,
                   removed: seq<string>, trail: seq<(string, Doc)>, address: string, next: (string, Doc), used: nat)
    requires repetitions > 0 && Greedy(env, goal, original, eligible, target, repetitions, removed, trail, used)
    requires Deleted(env, goal, original, eligible, target, repetitions, removed + [address], trail + [next], |removed|, used)
    ensures Greedy(env, goal, original, eligible, target, repetitions, removed + [address], trail + [next], used)
  {
    hide Accepts, Candidate, Undeletable, Elements;
    forall k | 0 <= k < |removed| ensures Deleted(env, goal, original, eligible, target, repetitions, removed + [address], trail + [next], k, used) {
      assert (removed + [address])[..k] == removed[..k];
      assert Deleted(env, goal, original, eligible, target, repetitions, removed, trail, k, used);
    }
  }

  /** Why the loop stopped, from the clock and the two counters: each performed execution and each
      begun evaluation took one clock reading. */
  ghost predicate StopsFor(env: Env, stop: Stop, executions: nat, evaluations: nat, maxExecutions: nat, maxEvaluations: nat) {
    var readings := executions + evaluations;
    && (forall r: nat :: r < readings ==> !env.late(r))
    && match stop
       case DEADLINE_REACHED => env.late(readings)
       case TOTAL_EXECUTION_BUDGET_EXHAUSTED => executions == maxExecutions && !env.late(readings)
       case EVALUATION_BUDGET_EXHAUSTED => evaluations == maxEvaluations
       case NO_FURTHER_ACCEPTABLE_DELETION => true
  }

  datatype Ending = Changed | Exhausted | Halted(stop: Stop)

  /** The mutable state of one shrinking attempt, after the baseline was reproduced. */
  class Reduction {
    const env: Env
    const original: Doc
    const goal: Goal
    const target: string
    const eligible: seq<string>
    const repetitions: nat
    const maxEvaluations: nat
    const budget: Budget
    const first: Run
    var source: string
    var current: Doc
    var final: Run
    var removed: seq<string>
    var evaluations: nat
    var accepted: nat
    var rejected: nat
    var invalid: nat
    ghost var trail: seq<(string, Doc)>

    constructor (env: Env, request: Request, original: Doc, goal: Goal, target: string, eligible: seq<string>, budget: Budget)
      requires request.repetitions > 0 && budget.env == env
      requires env.validate(request.source) == Some(original)
      requires |original.invariants| == 1 && target in original.actors && Distinct(eligible)
      requires request.run.signature == goal.signature && budget.stop == None
      requires budget.executions <= budget.limit && budget.executions <= 1 + request.repetitions
      ensures Valid() && this.env == env && this.original == original && this.goal == goal && this.target == target
      ensures this.eligible == eligible && this.repetitions == request.repetitions && this.budget == budget
      ensures maxEvaluations == request.maxEvaluations && first == request.run
      ensures removed == [] && evaluations == 0 && accepted + rejected + invalid == 0
      ensures source == request.source && current == original && trail == [(request.source, original)]
    {
      this.env, this.original, this.goal, this.target := env, original, goal, target;
      this.eligible, this.repetitions, this.budget := eligible, request.repetitions, budget;
      maxEvaluations, first := request.maxEvaluations, request.run;
      source, current, final := request.source, original, request.run;
      removed, evaluations, accepted, rejected, invalid := [], 0, 0, 0, 0;
      trail := [(request.source, original)];
      assert Elements<string>([]) == {};
    }

    /** What every accepted deletion keeps. */
    ghost predicate Kept()
      reads this, budget`executions
      requires repetitions > 0
    {
      && Distinct(removed) && (forall a :: a in removed ==> a in eligible)
      && Guarded(original, current, Elements(removed), target)
      && env.validate(source) == Some(current)
      && final.signature == goal.signature
      && (removed == [] ==> final == first)
      && (removed != [] ==> exists e: nat :: e + repetitions < budget.executions && Accepts(env, goal, current, e, repetitions) && env.execute(current, e) == Some(final))
    }

    /** What the counters say. */
    ghost predicate Counted()
      reads this, budget
    {
      && budget.executions <= budget.limit
      && budget.executions <= Allowance(repetitions, evaluations)
      && evaluations <= maxEvaluations
      && accepted == |removed|
      && accepted + rejected + invalid <= evaluations <= accepted + rejected + invalid + 1
    }

    ghost predicate Valid()
      reads this, budget
    {
      repetitions > 0 && budget.env == env && Distinct(eligible) && Kept() && Counted() && trail != []
    }

    /** The clock has been read once for every execution and evaluation, and `extra` times more. */
    ghost predicate Clocked(extra: nat)
      reads this, budget
    {
      budget.env == env && budget.StopsRightly() && budget.readings == budget.executions + evaluations + extra
    }

    /** The deletions so far were greedy, from the first source to the current one. */
    ghost predicate Followed()
      reads this, budget`executions
      requires repetitions > 0
    {
      && Greedy(env, goal, original, eligible, target, repetitions, removed, trail, budget.executions)
      && trail[|removed|] == (source, current)
    }

    /** One deletion attempt; true when it changed the source. */
    method Attempt(address: string) returns (changed: bool)
      requires Valid() && budget.stop == None && evaluations == accepted + rejected + invalid && Clocked(1)
      requires evaluations < maxEvaluations
      requires address in eligible && address !in removed
      modifies this, budget
      ensures Valid() && evaluations == old(evaluations) + 1 && Clocked(if budget.stop == None then 0 else 1)
      ensures changed ==> removed == old(removed) + [address] && trail == old(trail) + [(source, current)]
      ensures changed ==> Candidate(env, original, old(source), old(current), Elements(old(removed)), address, target) == Some((source, current))
      ensures changed ==> Proven(env, goal, current, repetitions, budget.executions)
      ensures !changed ==> removed == old(removed) && source == old(source) && current == old(current) && final == old(final)
                           && trail == old(trail)
      ensures invalid == old(invalid) + if Candidate(env, original, old(source), old(current), Elements(old(removed)), address, target) == None then 1 else 0
      ensures accepted == old(accepted) + if changed then 1 else 0
      ensures budget.stop == None ==> evaluations == accepted + rejected + invalid
      ensures budget.stop.Some? ==> !changed
      ensures budget.stop == None && !changed ==>
                Undeletable(env, goal, original, source, current, Elements(removed), address, target, repetitions, budget.executions)
      ensures budget.executions >= old(budget.executions)
    {
      hide Allowance, Accepts, Candidate, Guarded, Distinct, Elements, Budget.StopsRightly;
      AllowanceStep(repetitions, evaluations);
      evaluations := evaluations + 1;
      var candidate := Candidate(env, original, source, current, Elements(removed), address, target);
      if candidate == None {
        invalid := invalid + 1;
        return false;
      }
      var (text, doc) := candidate.value;
      ghost var start := budget.executions;
      var run := budget.Evaluate(goal, doc, repetitions);
      if budget.stop.Some? { return false; }
      if run == None {
        rejected := rejected + 1;
        assert !Accepts(env, goal, doc, start, repetitions);
        return false;
      }
      Accept(address, text, doc, run.value, start);
      assert AcceptedFrom(env, goal, current, repetitions, budget.executions, start);
      changed := true;
    }

    /** The candidate becomes the current source. */
    method Accept(address: string, text: string, doc: Doc, run: Run, ghost start: nat)
      requires repetitions > 0 && Kept() && Candidate(env, original, source, current, Elements(removed), address, target) == Some((text, doc))
      requires Accepts(env, goal, doc, start, repetitions) && env.execute(doc, start) == Some(run)
      requires start + repetitions < budget.executions
      requires address in eligible && address !in removed
      modifies this`source, this`current, this`final, this`removed, this`accepted, this`trail
      ensures Kept() && removed == old(removed) + [address] && accepted == old(accepted) + 1
      ensures source == text && current == doc && trail == old(trail) + [(text, doc)]
    {
      hide Accepts, Candidate, Guarded;
      assert Elements(removed + [address]) == Elements(removed) + {address};
      CandidateKept(env, original, source, current, Elements(removed), address, target);
      AcceptedSignature(env, goal, doc, start, repetitions);
      source, current, final := text, doc, run;
      removed := removed + [address];
      trail := trail + [(text, doc)];
      accepted := accepted + 1;
    }

    /** No remaining eligible actor can be deleted from the current source. */
    ghost predicate OneMinimal()
      reads this, budget`executions
      requires repetitions > 0
    {
      forall a :: a in eligible && a !in removed ==>
        Undeletable(env, goal, original, source, current, Elements(removed), a, target, repetitions, budget.executions)
    }

    /** One pass of the greedy loop, up to the first accepted deletion. */
    method Pass() returns (ending: Ending)
      requires Valid() && budget.stop == None && evaluations == accepted + rejected + invalid && Clocked(0) && Followed()
      modifies this, budget
      ensures Valid() && evaluations <= old(evaluations) + (|eligible| - old(|removed|)) && Followed() && trail[0] == old(trail[0])
      ensures ending.Changed? ==> |removed| == old(|removed|) + 1
      ensures !ending.Changed? ==> removed == old(removed)
      ensures !ending.Halted? ==> budget.stop == None && evaluations == accepted + rejected + invalid && Clocked(0)
      ensures ending.Exhausted? ==> OneMinimal()
      ensures ending.Halted? ==> StopsFor(env, ending.stop, budget.executions, evaluations, budget.limit, maxEvaluations)
                                 && ending.stop != NO_FURTHER_ACCEPTABLE_DELETION
    {
      hide Undeletable, Kept, Counted, Present, Greedy, Elements, Candidate, Accepts, StopsFor;
      ghost var before := removed;
      PassSize();
      for i := 0 to |eligible|
        invariant Valid() && budget.stop == None && evaluations == accepted + rejected + invalid && Clocked(0) && Followed()
        invariant removed == before && source == old(source) && current == old(current) && trail == old(trail)
        invariant evaluations + |Present(eligible, i, before)| <= old(evaluations) + (|eligible| - |before|)
        invariant forall j :: 0 <= j < i && eligible[j] !in before ==>
          Undeletable(env, goal, original, source, current, Elements(before), eligible[j], target, repetitions, budget.executions)
      {
        PresentStep(eligible, i, before);
        ghost var used := budget.executions;
        if eligible[i] !in removed {
          var halt := Ready();
          if halt.Some? { return Halted(halt.value); }
          var changed := Attempt(eligible[i]);
          GreedyLater(env, goal, original, eligible, target, repetitions, before, old(trail), used, budget.executions);
          forall j | 0 <= j < i && eligible[j] !in before
            ensures Undeletable(env, goal, original, old(source), old(current), Elements(before), eligible[j], target, repetitions, budget.executions)
          {
            StillUndeletable(env, goal, original, old(source), old(current), Elements(before), eligible[j], target, repetitions, used, budget.executions);
          }
          if budget.stop.Some? {
            BudgetStops();
            return Halted(budget.stop.value);
          }
          if changed {
            FirstDeletable(before, old(trail), eligible[i], i);
            return Changed;
          }
        }
      }
      ending := Exhausted;
    }

    /** A deletion after all earlier eligible actors were tried in vain keeps the deletions greedy. */
    lemma FirstDeletable(before: seq<string>, was: seq<(string, Doc)>, address: string, i: nat)
      requires repetitions > 0 && Distinct(eligible) && i < |eligible| && eligible[i] == address && address !in before
      requires Greedy(env, goal, original, eligible, target, repetitions, before, was, budget.executions)
      requires removed == before + [address] && trail == was + [(source, current)]
      requires Candidate(env, original, was[|before|].0, was[|before|].1, Elements(before), address, target) == Some((source, current))
      requires Proven(env, goal, current, repetitions, budget.executions)
      requires forall j :: 0 <= j < i && eligible[j] !in before ==>
                 Undeletable(env, goal, original, was[|before|].0, was[|before|].1, Elements(before), eligible[j], target, repetitions, budget.executions)
      ensures Followed()
    {
      hide Undeletable, Candidate, Accepts;
      assert removed[..|before|] == before;
      assert Deleted(env, goal, original, eligible, target, repetitions, removed, trail, |before|, budget.executions);
      GreedyNext(env, goal, original, eligible, target, repetitions, before, was, address, (source, current), budget.executions);
    }

    /** A stop the budget recorded during an evaluation. */
    lemma BudgetStops()
      requires Clocked(1) && budget.stop.Some? && evaluations <= maxEvaluations
      ensures StopsFor(env, budget.stop.value, budget.executions, evaluations, budget.limit, maxEvaluations)
      ensures budget.stop.value != NO_FURTHER_ACCEPTABLE_DELETION
    {
    }

    /** The two checks before each evaluation. */
    method Ready() returns (halt: Option<Stop>)
      requires Valid() && budget.stop == None && Clocked(0)
      modifies budget`readings
      ensures Valid()
      ensures halt == None ==> evaluations < maxEvaluations && Clocked(1)
      ensures halt.Some? ==> halt.value != NO_FURTHER_ACCEPTABLE_DELETION
                             && StopsFor(env, halt.value, budget.executions, evaluations, budget.limit, maxEvaluations)
    {
      if evaluations >= maxEvaluations { return Some(EVALUATION_BUDGET_EXHAUSTED); }
      var late := budget.Late();
      halt := if late then Some(DEADLINE_REACHED) else None;
    }

    lemma PassSize()
      requires Valid()
      ensures |Present(eligible, 0, removed)| == |eligible| - |removed|
    {
      PresentSize(eligible, removed);
    }

    /** The greedy loop: passes until one is complete without a deletion, or a bound stops it. */
    method Reduce() returns (stop: Stop)
      requires Valid() && budget.stop == None && removed == [] && evaluations == 0 && accepted + rejected + invalid == 0
      requires Clocked(0) && Followed()
      modifies this, budget
      ensures Valid() && Followed() && trail[0] == old(trail[0])
      ensures stop == NO_FURTHER_ACCEPTABLE_DELETION ==> OneMinimal() && evaluations == accepted + rejected + invalid
      ensures StopsFor(env, stop, budget.executions, evaluations, budget.limit, maxEvaluations)
      ensures 2 * evaluations <= |eligible| * (|eligible| + 1)
    {
      hide Kept, Counted, Undeletable, OneMinimal, Greedy, Budget.StopsRightly;
      var n := |eligible|;
      while true
        invariant Valid() && budget.stop == None && evaluations == accepted + rejected + invalid && Clocked(0) && Followed()
        invariant trail[0] == old(trail[0])
        invariant |removed| <= n && evaluations <= Spent(n, |removed|)
        decreases n - |removed|
      {
        ghost var k := |removed|;
        RemovedFits();
        var ending := Pass();
        SpentBound(n, k + 1);
        RemovedFits();
        match ending
        case Changed =>
        case Exhausted =>
          InTime();
          return NO_FURTHER_ACCEPTABLE_DELETION;
        case Halted(why) => return why;
      }
    }

    lemma InTime()
      requires Clocked(0) && budget.stop == None
      ensures StopsFor(env, NO_FURTHER_ACCEPTABLE_DELETION, budget.executions, evaluations, budget.limit, maxEvaluations)
    {
    }

    lemma RemovedFits()
      requires Valid()
      ensures |removed| <= |eligible|
    {
      PassSize();
    }
  }

  // ---------------------------------------------------------------- the whole operation

  datatype Reason =
    | BASELINE_MALFORMED_OR_INVALID
    | PLUGINS_UNSUPPORTED
    | EXACTLY_ONE_POST_STATE_INVARIANT_REQUIRED
    | NATIVE_FAILED_INVARIANT_VIOLATION_REQUIRED
    | FAILING_ACTOR_NOT_DECLARED
    | FAILING_ACTOR_MUST_HAVE_ONE_DIRECT_STEP
    | EVIDENCE_COORDINATES_OR_LINKAGE_MISMATCH
    | INPUTS_OR_RESOURCES_INVALID
    | RESOURCE_COORDINATES_MISMATCH
    | BASELINE_EXACT_REPLAY_FAILED
    | BASELINE_NATIVE_REPRODUCTION_FAILED
    | BASELINE_NOT_DETERMINISTIC_OR_TARGET_MISMATCH
    | BUDGET(stop: Stop)

  /** The baseline facts the checks establish, in the order they are made. */
  function Baseline(env: Env, request: Request): (b: (Option<Reason>, Option<Doc>))
    ensures b.0 == None ==>
              && b.1.Some? && env.validate(request.source) == b.1 && |b.1.value.invariants| == 1
              && request.run.signature.failure.Some? && request.run.signature.failure.value.actor in b.1.value.actors
              && |b.1.value.actors[request.run.signature.failure.value.actor].steps| == 1
  {
    match env.validate(request.source)
    case None => (Some(BASELINE_MALFORMED_OR_INVALID), None)
    case Some(doc) =>
      var run := request.run;
      if !env.layout(request.source) || !env.legible(run) then (Some(BASELINE_MALFORMED_OR_INVALID), None)
      else if env.plugins(doc) then (Some(PLUGINS_UNSUPPORTED), None)
      else if |doc.invariants| != 1 then (Some(EXACTLY_ONE_POST_STATE_INVARIANT_REQUIRED), None)
      else if run.signature.classification != "FAILED" || run.signature.failure == None
              || run.signature.failure.value.code != "InvariantViolation"
      then (Some(NATIVE_FAILED_INVARIANT_VIOLATION_REQUIRED), None)
      else
        var target := run.signature.failure.value.actor;
        if target !in doc.actors then (Some(FAILING_ACTOR_NOT_DECLARED), None)
        else if |doc.actors[target].steps| != 1 || |doc.actors[target].subflows| != 0
        then (Some(FAILING_ACTOR_MUST_HAVE_ONE_DIRECT_STEP), None)
        else if run.resultScenario != env.hash(doc) || run.scheduleScenario != env.hash(doc) || !env.coordinates(run, doc)
                || run.scheduleReference != run.scheduleHash || run.signature.failure != run.scheduleFailure
        then (Some(EVIDENCE_COORDINATES_OR_LINKAGE_MISMATCH), None)
        else if env.resources(doc) == None then (Some(INPUTS_OR_RESOURCES_INVALID), None)
        else if env.resources(doc).value != run.resources || env.resources(doc).value != run.scheduleResources
        then (Some(RESOURCE_COORDINATES_MISMATCH), None)
        else (None, Some(doc))
  }

  /** The checks on the request, in order. */
  const CHECKS: seq<Reason> := [
    BASELINE_MALFORMED_OR_INVALID, PLUGINS_UNSUPPORTED, EXACTLY_ONE_POST_STATE_INVARIANT_REQUIRED,
    NATIVE_FAILED_INVARIANT_VIOLATION_REQUIRED, FAILING_ACTOR_NOT_DECLARED, FAILING_ACTOR_MUST_HAVE_ONE_DIRECT_STEP,
    EVIDENCE_COORDINATES_OR_LINKAGE_MISMATCH, INPUTS_OR_RESOURCES_INVALID, RESOURCE_COORDINATES_MISMATCH]

  /** What each check asks of the request, each by itself. */
  predicate Meets(env: Env, request: Request, check: Reason) {
    var doc, run := env.validate(request.source), request.run;
    match check
    case BASELINE_MALFORMED_OR_INVALID => doc.Some? && env.layout(request.source) && env.legible(run)
    case PLUGINS_UNSUPPORTED => doc.Some? && !env.plugins(doc.value)
    case EXACTLY_ONE_POST_STATE_INVARIANT_REQUIRED => doc.Some? && |doc.value.invariants| == 1
    case NATIVE_FAILED_INVARIANT_VIOLATION_REQUIRED =>
      run.signature.classification == "FAILED" && run.signature.failure.Some? && run.signature.failure.value.code == "InvariantViolation"
    case FAILING_ACTOR_NOT_DECLARED => doc.Some? && run.signature.failure.Some? && run.signature.failure.value.actor in doc.value.actors
    case FAILING_ACTOR_MUST_HAVE_ONE_DIRECT_STEP =>
      && doc.Some? && run.signature.failure.Some? && run.signature.failure.value.actor in doc.value.actors
      && var actor := doc.value.actors[run.signature.failure.value.actor]; |actor.steps| == 1 && actor.subflows == map[]
    case EVIDENCE_COORDINATES_OR_LINKAGE_MISMATCH =>
      && doc.Some? && run.resultScenario == run.scheduleScenario == env.hash(doc.value) && env.coordinates(run, doc.value)
      && run.scheduleReference == run.scheduleHash && run.signature.failure == run.scheduleFailure
    case INPUTS_OR_RESOURCES_INVALID => doc.Some? && env.resources(doc.value).Some?
    case RESOURCE_COORDINATES_MISMATCH =>
      doc.Some? && env.resources(doc.value) == Some(run.resources) && run.resources == run.scheduleResources
    case _ => true
  }

  /** Check i is the first the request does not meet. */
  ghost predicate FirstUnmet(env: Env, request: Request, i: nat, reason: Reason) {
    i < |CHECKS| && CHECKS[i] == reason && !Meets(env, request, reason) && forall j :: 0 <= j < i ==> Meets(env, request, CHECKS[j])
  }

  lemma BaselineExactly(env: Env, request: Request)
    ensures forall reason :: Baseline(env, request).0 == Some(reason) <==> exists i: nat :: FirstUnmet(env, request, i, reason)
    ensures Baseline(env, request).0 == None <==> forall i :: 0 <= i < |CHECKS| ==> Meets(env, request, CHECKS[i])
  {
    var i: nat := 0;
    while i < |CHECKS| && Meets(env, request, CHECKS[i])
      invariant i <= |CHECKS| && forall j :: 0 <= j < i ==> Meets(env, request, CHECKS[j])
    {
      i := i + 1;
    }
    BaselineAt(env, request, i);
    if i < |CHECKS| { assert FirstUnmet(env, request, i, CHECKS[i]); }
    forall reason, k: nat | FirstUnmet(env, request, k, reason) ensures k == i {}
  }

  lemma BaselineAt(env: Env, request: Request, i: nat)
    requires i <= |CHECKS| && (forall j :: 0 <= j < i ==> Meets(env, request, CHECKS[j])) && (i < |CHECKS| ==> !Meets(env, request, CHECKS[i]))
    ensures Baseline(env, request).0 == if i < |CHECKS| then Some(CHECKS[i]) else None
  {
    assert (i > 0 ==> Meets(env, request, CHECKS[0])) && (i > 1 ==> Meets(env, request, CHECKS[1])) && (i > 2 ==> Meets(env, request, CHECKS[2]));
    assert (i > 3 ==> Meets(env, request, CHECKS[3])) && (i > 4 ==> Meets(env, request, CHECKS[4])) && (i > 5 ==> Meets(env, request, CHECKS[5]));
    assert (i > 6 ==> Meets(env, request, CHECKS[6])) && (i > 7 ==> Meets(env, request, CHECKS[7])) && (i > 8 ==> Meets(env, request, CHECKS[8]));
  }

  /** Run number `n` of the baseline equals the recorded evidence on the target. */
  predicate Reproduced(env: Env, goal: Goal, run: Run, doc: Doc, n: nat) {
    && env.execute(doc, n).Some?
    && env.execute(doc, n).value.result == run.result && env.execute(doc, n).value.schedule == run.schedule
    && env.execute(doc, n).value.violated == goal.violated && env.execute(doc, n).value.step == goal.step
  }

  /** Execution k of the baseline, the exact replay and then the repetitions, is allowed and agrees. */
  predicate Confirmed(env: Env, request: Request, goal: Goal, doc: Doc, k: nat) {
    !env.late(k) && k < request.maxExecutions
    && if k == 0 then env.replay(request.run, doc, 0) else Reproduced(env, goal, request.run, doc, k)
  }

  /** What execution k finds when it is not allowed, or does not agree. */
  predicate Unconfirmed(env: Env, request: Request, goal: Goal, doc: Doc, k: nat, reason: Reason, used: nat) {
    if env.late(k) then reason == BUDGET(DEADLINE_REACHED) && used == k
    else if k >= request.maxExecutions then reason == BUDGET(TOTAL_EXECUTION_BUDGET_EXHAUSTED) && used == k
    else
      && used == k + 1
      && if k == 0 then reason == BASELINE_EXACT_REPLAY_FAILED && !env.replay(request.run, doc, 0)
         else if env.execute(doc, k) == None then reason == BASELINE_NATIVE_REPRODUCTION_FAILED
         else reason == BASELINE_NOT_DETERMINISTIC_OR_TARGET_MISMATCH && !Reproduced(env, goal, request.run, doc, k)
  }

  /** Execution k is the first that is not confirmed. */
  ghost predicate FirstUnconfirmed(env: Env, request: Request, goal: Goal, doc: Doc, k: nat, reason: Reason, used: nat) {
    k <= request.repetitions && Unconfirmed(env, request, goal, doc, k, reason, used)
    && forall j: nat :: j < k ==> Confirmed(env, request, goal, doc, j)
  }

  /** The exact replay and the repeated reproduction of the baseline. */
  method Reproduce(budget: Budget, request: Request, goal: Goal, doc: Doc) returns (reason: Option<Reason>)
    requires budget.executions == 0 && budget.readings == 0 && budget.stop == None && budget.limit == request.maxExecutions
    modifies budget
    ensures budget.executions <= budget.limit && budget.executions <= 1 + request.repetitions
    ensures reason == None ==>
              && budget.stop == None && budget.StopsRightly() && budget.readings == budget.executions == 1 + request.repetitions
              && forall k: nat :: k <= request.repetitions ==> Confirmed(budget.env, request, goal, doc, k)
    ensures reason.Some? ==> exists k: nat :: FirstUnconfirmed(budget.env, request, goal, doc, k, reason.value, budget.executions)
  {
    hide Reproduced;
    var run := request.run;
    var exact := budget.Replay(run, doc);
    if !exact {
      reason := Some(if budget.stop.Some? then BUDGET(budget.stop.value) else BASELINE_EXACT_REPLAY_FAILED);
      assert FirstUnconfirmed(budget.env, request, goal, doc, 0, reason.value, budget.executions);
      return;
    }
    for i := 0 to request.repetitions
      invariant budget.stop == None && budget.StopsRightly() && budget.readings == budget.executions == 1 + i <= budget.limit
      invariant forall k: nat :: k <= i ==> Confirmed(budget.env, request, goal, doc, k)
    {
      var again := budget.RunFailed(doc);
      if again == None {
        reason := Some(if budget.stop.Some? then BUDGET(budget.stop.value) else BASELINE_NATIVE_REPRODUCTION_FAILED);
        assert FirstUnconfirmed(budget.env, request, goal, doc, i + 1, reason.value, budget.executions);
        return;
      }
      AgainReproduced(budget.env, goal, run, doc, i + 1);
      if again.value.result != run.result || again.value.schedule != run.schedule
         || again.value.violated != goal.violated || again.value.step != goal.step {
        reason := Some(BASELINE_NOT_DETERMINISTIC_OR_TARGET_MISMATCH);
        assert FirstUnconfirmed(budget.env, request, goal, doc, i + 1, reason.value, budget.executions);
        return;
      }
    }
    reason := None;
  }

  lemma AgainReproduced(env: Env, goal: Goal, run: Run, doc: Doc, n: nat)
    ensures Reproduced(env, goal, run, doc, n)
            <==> env.execute(doc, n).Some?
                 && (var again := env.execute(doc, n).value;
                     again.result == run.result && again.schedule == run.schedule && again.violated == goal.violated && again.step == goal.step)
  {
  }

  datatype Outcome =
    | Rejected(reason: Reason, used: nat)
    | Shrunk(stop: Stop, source: string, doc: Doc, removed: seq<string>, eligible: seq<string>, final: Run,
             evaluations: nat, executions: nat, accepted: nat, rejected: nat, invalid: nat)

  function GoalOf(run: Run, doc: Doc): Goal
    requires run.signature.failure.Some? && run.signature.failure.value.actor in doc.actors
    requires |doc.invariants| == 1 && |doc.actors[run.signature.failure.value.actor].steps| == 1
  {
    Goal(run.signature, doc.invariants[0], doc.actors[run.signature.failure.value.actor].steps[0], run.resources)
  }

  /** What a finished attempt promises about the actors it removed. */
  ghost predicate OnlyUnneeded(request: Request, doc: Doc, o: Outcome)
    requires o.Shrunk? && request.run.signature.failure.Some?
  {
    && Distinct(o.removed)
    && (forall a :: a in o.removed ==>
          a in doc.actors && a != request.run.signature.failure.value.actor && a !in request.run.selected)
    && (forall a :: a in o.eligible <==>
          a in doc.actors && a != request.run.signature.failure.value.actor && a !in request.run.selected)
    && Guarded(doc, o.doc, Elements(o.removed), request.run.signature.failure.value.actor)
  }

  /** The failing actor named by the recorded evidence. */
  function TargetOf(request: Request): string
    requires request.run.signature.failure.Some?
  {
    request.run.signature.failure.value.actor
  }

  /** What was reproduced at the start, and what the final source still shows. */
  ghost predicate Preserved(env: Env, request: Request, doc: Doc, goal: Goal, o: Outcome)
    requires o.Shrunk? && request.repetitions > 0
  {
    && env.replay(request.run, doc, 0)
    && (forall n :: 1 <= n <= request.repetitions ==> Reproduced(env, goal, request.run, doc, n))
    && env.validate(o.source) == Some(o.doc) && o.final.signature == request.run.signature
    && (o.removed == [] ==> o.final == request.run)
    && (o.removed != [] ==>
          exists e: nat :: e + request.repetitions < o.executions && Accepts(env, goal, o.doc, e, request.repetitions) && env.execute(o.doc, e) == Some(o.final))
  }

  /** A complete final pass: no remaining eligible actor can be deleted. */
  ghost predicate Minimal(env: Env, request: Request, doc: Doc, goal: Goal, o: Outcome)
    requires o.Shrunk? && request.repetitions > 0 && request.run.signature.failure.Some?
  {
    forall a :: a in o.eligible && a !in o.removed ==>
      Undeletable(env, goal, doc, o.source, o.doc, Elements(o.removed), a, TargetOf(request), request.repetitions, o.executions)
  }

  /** The spending limits and the outcome counts. */
  predicate Bounded(request: Request, o: Outcome)
    requires o.Shrunk?
  {
    && 2 * o.evaluations <= |o.eligible| * (|o.eligible| + 1) && o.evaluations <= request.maxEvaluations
    && o.executions <= Allowance(request.repetitions, o.evaluations) && o.executions <= request.maxExecutions
    && o.accepted == |o.removed|
    && o.accepted + o.rejected + o.invalid <= o.evaluations <= o.accepted + o.rejected + o.invalid + 1
  }

  /** The baseline is refused: by the first check on the request that is not met, before any execution,
      or by the first execution of the baseline that is not allowed or does not agree. */
  ghost predicate Refused(env: Env, request: Request, reason: Reason, used: nat) {
    || (used == 0 && exists i: nat :: FirstUnmet(env, request, i, reason))
    || (Sound(env, request)
        && exists k: nat :: FirstUnconfirmed(env, request, GoalIn(env, request), DocIn(env, request), k, reason, used))
  }

  /** Every check on the request is met. */
  ghost predicate Sound(env: Env, request: Request) {
    forall i :: 0 <= i < |CHECKS| ==> Meets(env, request, CHECKS[i])
  }

  lemma SoundRequest(env: Env, request: Request)
    requires Sound(env, request)
    ensures env.validate(request.source).Some?
    ensures var doc, failure := env.validate(request.source).value, request.run.signature.failure;
            |doc.invariants| == 1 && failure.Some? && failure.value.actor in doc.actors && |doc.actors[failure.value.actor].steps| == 1
  {
    assert Meets(env, request, CHECKS[2]) && Meets(env, request, CHECKS[5]);
  }

  ghost function DocIn(env: Env, request: Request): Doc
    requires Sound(env, request)
  {
    SoundRequest(env, request);
    env.validate(request.source).value
  }

  ghost function GoalIn(env: Env, request: Request): Goal
    requires Sound(env, request)
  {
    SoundRequest(env, request);
    GoalOf(request.run, DocIn(env, request))
  }

  /** The baseline stands: every check is met and every execution of the baseline is confirmed. */
  ghost predicate Stands(env: Env, request: Request) {
    Sound(env, request)
    && forall k: nat :: k <= request.repetitions ==> Confirmed(env, request, GoalIn(env, request), DocIn(env, request), k)
  }

  /** A baseline is refused for one reason only, after one number of executions, and never if it stands. */
  lemma RefusedOnce(env: Env, request: Request, a: Reason, m: nat, b: Reason, n: nat)
    requires Refused(env, request, a, m)
    ensures Refused(env, request, b, n) ==> a == b && m == n
    ensures !Stands(env, request)
  {
    hide Meets, Confirmed, Unconfirmed;
    if i: nat :| FirstUnmet(env, request, i, a) {
      assert !Sound(env, request);
      if j: nat :| FirstUnmet(env, request, j, b) { assert i == j; }
    } else {
      var doc, goal := DocIn(env, request), GoalIn(env, request);
      var k: nat :| FirstUnconfirmed(env, request, goal, doc, k, a, m);
      UnconfirmedOnce(env, request, goal, doc, k, a, m, b, n);
      if l: nat :| FirstUnconfirmed(env, request, goal, doc, l, b, n) {
        UnconfirmedOnce(env, request, goal, doc, l, b, n, b, n);
      }
    }
  }

  lemma UnconfirmedOnce(env: Env, request: Request, goal: Goal, doc: Doc, k: nat, a: Reason, m: nat, b: Reason, n: nat)
    requires Unconfirmed(env, request, goal, doc, k, a, m)
    ensures !Confirmed(env, request, goal, doc, k)
    ensures Unconfirmed(env, request, goal, doc, k, b, n) ==> a == b && m == n
  {
  }

  /** The deletions were made greedily in address order, from the request's source to the one returned. */
  ghost predicate GreedilyShrunk(env: Env, request: Request, doc: Doc, goal: Goal, o: Outcome)
    requires o.Shrunk? && request.repetitions > 0 && request.run.signature.failure.Some?
  {
    Ascending(o.eligible)
    && exists trail: seq<(string, Doc)> ::
         && Greedy(env, goal, doc, o.eligible, TargetOf(request), request.repetitions, o.removed, trail, o.executions)
         && trail[0] == (request.source, doc) && trail[|o.removed|] == (o.source, o.doc)
  }

  /** `shrink_failed_scenario`: refused exactly when the baseline does not stand, for the first reason
      it does not; otherwise shrunk greedily until the reason it reports. */
  method Shrink(env: Env, request: Request) returns (o: Outcome)
    requires request.repetitions >= 3
    ensures o.Rejected? ==> Refused(env, request, o.reason, o.used) && o.used <= request.maxExecutions && o.used <= 1 + request.repetitions
    ensures o.Shrunk? ==>
              && Stands(env, request)
              && (SoundRequest(env, request);
                 var doc, goal := DocIn(env, request), GoalIn(env, request);
                 && OnlyUnneeded(request, doc, o) && Preserved(env, request, doc, goal, o) && Bounded(request, o)
                 && GreedilyShrunk(env, request, doc, goal, o)
                 && StopsFor(env, o.stop, o.executions, o.evaluations, request.maxExecutions, request.maxEvaluations)
                 && (o.stop == NO_FURTHER_ACCEPTABLE_DELETION ==> Minimal(env, request, doc, goal, o)))
  {
    hide OnlyUnneeded, Preserved, Minimal, Bounded, Baseline, GoalOf, Meets, Confirmed, Unconfirmed, StopsFor, GreedilyShrunk;
    var budget := new Budget(env, request.maxExecutions);
    var (refused, checked) := Baseline(env, request);
    BaselineExactly(env, request);
    if refused.Some? { return Rejected(refused.value, 0); }
    var doc := checked.value;
    var goal := GoalOf(request.run, doc);
    assert Sound(env, request) && doc == DocIn(env, request) && goal == GoalIn(env, request);
    var reason := Reproduce(budget, request, goal, doc);
    if reason.Some? { return Rejected(reason.value, budget.executions); }
    GoalSignature(request.run, doc);
    ConfirmedRuns(env, request, goal, doc);
    o := ReduceFrom(env, request, doc, goal, budget);
  }

  lemma ConfirmedRuns(env: Env, request: Request, goal: Goal, doc: Doc)
    requires forall k: nat :: k <= request.repetitions ==> Confirmed(env, request, goal, doc, k)
    ensures env.replay(request.run, doc, 0) && forall n :: 1 <= n <= request.repetitions ==> Reproduced(env, goal, request.run, doc, n)
  {
    hide Reproduced;
    assert Confirmed(env, request, goal, doc, 0);
    forall n | 1 <= n <= request.repetitions ensures Reproduced(env, goal, request.run, doc, n) { assert Confirmed(env, request, goal, doc, n); }
  }

  lemma GoalSignature(run: Run, doc: Doc)
    requires run.signature.failure.Some? && run.signature.failure.value.actor in doc.actors
    requires |doc.invariants| == 1 && |doc.actors[run.signature.failure.value.actor].steps| == 1
    ensures GoalOf(run, doc).signature == run.signature && GoalOf(run, doc).resources == run.resources
    ensures [GoalOf(run, doc).violated] == doc.invariants
    ensures [GoalOf(run, doc).step] == doc.actors[run.signature.failure.value.actor].steps
  {
  }

  /** The greedy loop from a reproduced baseline. */
  method ReduceFrom(env: Env, request: Request, doc: Doc, goal: Goal, budget: Budget) returns (o: Outcome)
    requires request.repetitions > 0 && budget.env == env && budget.limit == request.maxExecutions && budget.stop == None
    requires budget.executions <= budget.limit && budget.executions <= 1 + request.repetitions
    requires budget.StopsRightly() && budget.readings == budget.executions
    requires env.validate(request.source) == Some(doc) && |doc.invariants| == 1
    requires request.run.signature.failure.Some? && TargetOf(request) in doc.actors && goal.signature == request.run.signature
    requires env.replay(request.run, doc, 0) && forall n :: 1 <= n <= request.repetitions ==> Reproduced(env, goal, request.run, doc, n)
    modifies budget
    ensures o.Shrunk? && OnlyUnneeded(request, doc, o) && Preserved(env, request, doc, goal, o) && Bounded(request, o)
    ensures GreedilyShrunk(env, request, doc, goal, o)
    ensures StopsFor(env, o.stop, o.executions, o.evaluations, request.maxExecutions, request.maxEvaluations)
    ensures o.stop == NO_FURTHER_ACCEPTABLE_DELETION ==> Minimal(env, request, doc, goal, o)
  {
    hide Accepts, Guarded, Candidate, Undeletable, Reproduced, Allowance, Eligible, StopsFor, Budget.StopsRightly;
    var eligible := Eligible(doc, TargetOf(request), request.run.selected);
    var r := new Reduction(env, request, doc, goal, TargetOf(request), eligible, budget);
    assert Greedy(env, goal, doc, eligible, TargetOf(request), request.repetitions, [], r.trail, budget.executions);
    var stop := r.Reduce();
    o := Shrunk(stop, r.source, r.current, r.removed, eligible, r.final, r.evaluations, budget.executions, r.accepted, r.rejected, r.invalid);
  }

  /** The declared actors that neither failed nor were ever selected, in canonical order. */
  function Eligible(doc: Doc, target: string, selected: seq<string>): (q: seq<string>)
    ensures Distinct(q) && Ascending(q)
    ensures forall a :: a in q <==> a in doc.actors && a != target && a !in selected
  {
    var names := doc.actors.Keys - {target} - Elements(selected);
    SortedDistinct(names);
    SortedAscending(names);
    Sorted(names)
  }

  /** When executions and replays do not depend on when they happen, a complete pass means that
      deleting any one remaining eligible actor is invalid or is never accepted. */
  lemma OneMinimalWhenDeterministic(env: Env, goal: Goal, original: Doc, source: string, current: Doc, removed: set<string>, address: string, target: string, repetitions: nat, used: nat)
    requires repetitions > 0
    requires forall d, i, j :: env.execute(d, i) == env.execute(d, j)
    requires forall r, d, i, j :: env.replay(r, d, i) == env.replay(r, d, j)
    requires Undeletable(env, goal, original, source, current, removed, address, target, repetitions, used)
    ensures var c := Candidate(env, original, source, current, removed, address, target);
            c.Some? ==> forall e: nat :: !Accepts(env, goal, c.value.1, e, repetitions)
  {
    hide Candidate;
    var c := Candidate(env, original, source, current, removed, address, target);
    if c.Some? {
      var doc := c.value.1;
      var bad: nat :| !Accepts(env, goal, doc, bad, repetitions);
      forall e: nat ensures !Accepts(env, goal, doc, e, repetitions) {
        SameVerdict(env, goal, doc, e, bad, repetitions);
      }
    }
  }

  lemma SameVerdict(env: Env, goal: Goal, doc: Doc, a: nat, b: nat, repetitions: nat)
    requires repetitions > 0
    requires forall i, j :: env.execute(doc, i) == env.execute(doc, j)
    requires forall r, i, j :: env.replay(r, doc, i) == env.replay(r, doc, j)
    ensures Accepts(env, goal, doc, a, repetitions) ==> Accepts(env, goal, doc, b, repetitions)
  {
    assert env.execute(doc, a) == env.execute(doc, b);
    if Accepts(env, goal, doc, a, repetitions) {
      forall i | b <= i < b + repetitions ensures env.execute(doc, i) == env.execute(doc, a) {}
      assert env.replay(env.execute(doc, a).value, doc, a + repetitions) == env.replay(env.execute(doc, a).value, doc, b + repetitions);
    }
  }
}
