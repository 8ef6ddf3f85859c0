/** Ordered sliding windows over a worker pool: whatever order the workers finish in, results come
    out once each and in plan order, and no more than the window is ever in flight. */
module Windows {
  import opened Values

  const MAX_WORKERS: nat := 64
  const MAX_IN_FLIGHT: nat := 64

  /** A first-in, first-out worker pool.  Which running task finishes next is left open. */
  class Executor<Q, R> {
    const call: Q -> R
    const workers: nat
    var tasks: seq<Q>
    var started: nat
    var running: set<nat>
    var done: map<nat, R>

    ghost predicate Valid()
      reads this
    {
      && workers > 0 && started <= |tasks| && |running| <= workers
      && (forall t: nat :: t in running || t in done <==> t < started)
      && running !! done.Keys
      && forall t :: t in done ==> t < started && done[t] == call(tasks[t])
    }

    constructor (call: Q -> R, workers: nat)
      requires workers > 0
      ensures Valid() && this.call == call && this.workers == workers && tasks == []
    {
      this.call, this.workers := call, workers;
      tasks, started, running, done := [], 0, {}, map[];
    }

    method Submit(q: Q) returns (ticket: nat)
      requires Valid()
      modifies this`tasks
      ensures Valid() && ticket == |old(tasks)| && tasks == old(tasks) + [q]
    {
      ticket := |tasks|;
      tasks := tasks + [q];
    }

    method Start()
      requires Valid() && |running| < workers && started < |tasks|
      modifies this`started, this`running
      ensures Valid() && started == old(started) + 1 && |running| == |old(running)| + 1
    {
      running := running + {started};
      started := started + 1;
    }

    /** Some running task, any of them, finishes. */
    method Finish()
      requires Valid() && running != {}
      modifies this`running, this`done
      ensures Valid() && |running| == |old(running)| - 1
    {
      var t :| t in running;
      running, done := running - {t}, done[t := call(tasks[t])];
    }

    /** `Future.result()`: lets the pool run, in any order, until this task is done. */
    method Await(ticket: nat) returns (r: R)
      requires Valid() && ticket < |tasks|
      modifies this`started, this`running, this`done
      ensures Valid() && r == call(tasks[ticket])
    {
      while ticket !in done
        invariant Valid()
        decreases 2 * (|tasks| - started) + |running|
      {
        var start := |running| < workers && started < |tasks|;
        if start && running != {} { start := *; }
        if start { Start(); } else { Finish(); }
      }
      r := done[ticket];
    }
  }

  // ---------------------------------------------------------------- batches

  datatype Status = SUCCESS | FAILURE | NOT_RUN

  datatype Request = Request(runId: string, child: string)

  datatype Item = Item(request: Request, status: Status, retained: nat)

  datatype Plan = Plan(items: seq<Request>, failFast: bool, retainedBound: nat)

  /** What executing one request comes to. */
  datatype Executed = Executed(success: bool, retained: nat)

  function Ran(q: Request, e: Executed): Item {
    Item(q, if e.success then SUCCESS else FAILURE, e.retained)
  }

  predicate FailedBefore(plan: Plan, outcome: Request -> Executed, i: nat)
    requires i <= |plan.items|
  {
    exists j :: 0 <= j < i && !outcome(plan.items[j]).success
  }

  /** The item the plan calls for at position `i`. */
  function Due(plan: Plan, outcome: Request -> Executed, i: nat): Item
    requires i < |plan.items|
  {
    if plan.failFast && FailedBefore(plan, outcome, i) then Item(plan.items[i], NOT_RUN, 0)
    else Ran(plan.items[i], outcome(plan.items[i]))
  }

  /** Without fail-fast every request is executed; with it, exactly those up to and including the first
      failure are.  An executed item has its execution's own status and size. */
  lemma DueExactly(plan: Plan, outcome: Request -> Executed, i: nat)
    requires i < |plan.items|
    ensures var item := Due(plan, outcome, i);
            && item.request == plan.items[i]
            && (item.status == NOT_RUN <==> plan.failFast && exists j :: 0 <= j < i && !outcome(plan.items[j]).success)
            && (item.status == NOT_RUN ==> item.retained == 0)
            && (item.status != NOT_RUN ==>
                  item.retained == outcome(plan.items[i]).retained && (item.status == SUCCESS <==> outcome(plan.items[i]).success))
  {
    assert FailedBefore(plan, outcome, i) <==> exists j :: 0 <= j < i && !outcome(plan.items[j]).success;
  }

  function AllDue(plan: Plan, outcome: Request -> Executed): (r: seq<Item>)
    ensures |r| == |plan.items| && forall i :: 0 <= i < |r| ==> r[i] == Due(plan, outcome, i)
  {
    seq(|plan.items|, i requires 0 <= i < |plan.items| => Due(plan, outcome, i))
  }

  /** How many requests a fail-fast run executes: all through the first failure at or after `i`. */
  function Through(plan: Plan, outcome: Request -> Executed, i: nat): (n: nat)
    requires i <= |plan.items|
    ensures i <= n <= |plan.items|
    ensures forall j :: i <= j < n - 1 ==> outcome(plan.items[j]).success
    ensures n < |plan.items| ==> i < n && !outcome(plan.items[n - 1]).success
    decreases |plan.items| - i
  {
    if i == |plan.items| then i
    else if !outcome(plan.items[i]).success then i + 1
    else Through(plan, outcome, i + 1)
  }

  /** The requests handed to execution once `n` items have come out: through the first failure in fail-fast
      mode, and as far as the window reaches otherwise. */
  function Handed(plan: Plan, outcome: Request -> Executed, maxInFlight: nat, n: nat): seq<Request>
    requires n <= |plan.items|
  {
    if plan.failFast then plan.items[..if n < Through(plan, outcome, 0) then n else Through(plan, outcome, 0)]
    else plan.items[..Reached(n, maxInFlight, |plan.items|)]
  }

  /** The items so far are what the plan calls for, each within the bound. */
  ghost predicate Emitted(plan: Plan, outcome: Request -> Executed, items: seq<Item>) {
    items <= AllDue(plan, outcome) && forall i :: 0 <= i < |items| ==> items[i].retained <= plan.retainedBound
  }

  /** The stream ended properly, or stopped at the first item over the bound. */
  ghost predicate Streamed(plan: Plan, outcome: Request -> Executed, items: seq<Item>, ok: bool) {
    && Emitted(plan, outcome, items)
    && (ok <==> |items| == |plan.items|)
    && (!ok ==> Due(plan, outcome, |items|).retained > plan.retainedBound)
  }

  lemma NothingEmitted(plan: Plan, outcome: Request -> Executed)
    ensures Emitted(plan, outcome, [])
  {
  }

  lemma EmittedNext(plan: Plan, outcome: Request -> Executed, items: seq<Item>, item: Item)
    requires Emitted(plan, outcome, items) && |items| < |plan.items|
    requires item == Due(plan, outcome, |items|) && item.retained <= plan.retainedBound
    ensures Emitted(plan, outcome, items + [item])
  {
    hide Due;
  }

  datatype Envelope = Envelope(records: seq<Item>, success: nat, failure: nat, notRun: nat)

  class OrderedBatchStream {
    const plan: Plan
    const workers: nat
    const maxInFlight: nat
    var records: seq<Item>
    var envelope: Option<Envelope>
    var peak: nat
    /** The requests handed to execution so far, in order. */
    ghost var handed: seq<Request>

    constructor (plan: Plan, workers: nat, maxInFlight: nat)
      ensures this.plan == plan && this.workers == workers && this.maxInFlight == maxInFlight
      ensures records == [] && envelope == None && peak == 0 && handed == []
    {
      this.plan, this.workers, this.maxInFlight := plan, workers, maxInFlight;
      records, envelope, peak, handed := [], None, 0, [];
    }

    /** Exhausts the stream; `peak` is the largest number of futures held at once. */
    method Exhaust(outcome: Request -> Executed) returns (ok: bool)
      requires records == [] && envelope == None && peak == 0 && handed == []
      requires 1 <= workers <= maxInFlight
      modifies this
      ensures Streamed(plan, outcome, records, ok) && peak <= maxInFlight
      ensures handed == Handed(plan, outcome, maxInFlight, if ok || !plan.failFast then |records| else |records| + 1)
      ensures ok ==> records == AllDue(plan, outcome) && envelope == Some(Summary(records))
      ensures !ok ==> envelope == None
    {
      if plan.failFast {
        ok := RunFailFast(outcome);
      } else {
        ok := RunWindow(outcome);
      }
      if ok {
        assert records == AllDue(plan, outcome);
        envelope := Some(Summary(records));
      }
    }

    /** One request after another; everything after the first failure is not run. */
    method RunFailFast(outcome: Request -> Executed) returns (ok: bool)
      requires plan.failFast && records == [] && handed == []
      modifies this`records, this`handed
      ensures Streamed(plan, outcome, records, ok)
      ensures handed == Handed(plan, outcome, maxInFlight, if ok then |records| else |records| + 1)
    {
      hide Handed, Through;
      var failed := false;
      NothingHanded(plan, outcome, maxInFlight);
      for i := 0 to |plan.items|
        invariant |records| == i && Emitted(plan, outcome, records)
        invariant failed == FailedBefore(plan, outcome, i)
        invariant handed == Handed(plan, outcome, maxInFlight, i)
      {
        var q := plan.items[i];
        HandedNext(plan, outcome, maxInFlight, i);
        if !failed { handed := handed + [q]; }
        var item := if failed then Item(q, NOT_RUN, 0) else Ran(q, outcome(q));
        assert item == Due(plan, outcome, i);
        if !failed && item.retained > plan.retainedBound { return false; }
        records := records + [item];
        failed := failed || item.status == FAILURE;
      }
      ok := true;
    }

    /** The sliding window: futures by position, refilled one for each one taken. */
    method RunWindow(outcome: Request -> Executed) returns (ok: bool)
      requires !plan.failFast && records == [] && peak == 0 && 1 <= workers <= maxInFlight && handed == []
      modifies this`records, this`peak, this`handed
      ensures Streamed(plan, outcome, records, ok) && peak <= maxInFlight
      ensures handed == Handed(plan, outcome, maxInFlight, |records|)
    {
      hide Held, AllDue, Due, Emitted, Handed;
      NothingEmitted(plan, outcome);
      if plan.items == [] {
        NothingHanded(plan, outcome, maxInFlight);
        return true;
      }
      var window := if maxInFlight < |plan.items| then maxInFlight else |plan.items|;
      var executor := new Executor(outcome, workers);
      var futures: map<nat, nat> := map[];
      var submitted := 0;
      NoneHeld(plan, executor.tasks, futures);
      while submitted < window
        invariant submitted <= window && executor.Valid() && fresh(executor)
        invariant Held(plan, executor.tasks, futures, 0, submitted) && peak == submitted && records == []
      {
        futures, submitted := SubmitNext(executor, futures, 0, submitted);
      }
      ok := Slide(executor, futures, window, outcome);
    }

    /** Taking results in plan order and refilling the window. */
    method Slide(executor: Executor<Request, Executed>, filled: map<nat, nat>, window: nat, outcome: Request -> Executed) returns (ok: bool)
      requires !plan.failFast && records == [] && peak == window && 0 < window <= |plan.items|
      requires executor.Valid() && executor.call == outcome && Held(plan, executor.tasks, filled, 0, window)
      requires window == if maxInFlight < |plan.items| then maxInFlight else |plan.items|
      modifies this`records, this`peak, this`handed, executor
      ensures Streamed(plan, outcome, records, ok) && peak == window
      ensures handed == Handed(plan, outcome, maxInFlight, |records|)
    {
      hide Held, AllDue, Due, Emitted, Handed;
      var n := |plan.items|;
      var futures, submitted := filled, window;
      NothingEmitted(plan, outcome);
      for position := 0 to n
        invariant executor.Valid() && executor.call == outcome
        invariant submitted == Reached(position, window, n) && peak == window
        invariant Held(plan, executor.tasks, futures, position, submitted)
        invariant Emitted(plan, outcome, records) && |records| == position
      {
        var item;
        item, futures := TakeNext(executor, futures, position, submitted, outcome);
        if item.retained > plan.retainedBound {
          handed := executor.tasks;
          WindowHanded(plan, outcome, maxInFlight, handed, futures, position, position + 1, submitted);
          return false;
        }
        EmittedNext(plan, outcome, records, item);
        records := records + [item];
        futures, submitted := Refill(executor, futures, position + 1, submitted, window);
      }
      handed := executor.tasks;
      WindowHanded(plan, outcome, maxInFlight, handed, futures, n, n, submitted);
      ok := true;
    }

    /** One more submission for the future just taken, if any request is left. */
    method Refill(executor: Executor<Request, Executed>, futures: map<nat, nat>, position: nat, submitted: nat, window: nat) returns (held: map<nat, nat>, next: nat)
      requires executor.Valid() && 0 < position <= |plan.items| && 0 < window
      requires submitted == Reached(position - 1, window, |plan.items|) && peak == window
      requires Held(plan, executor.tasks, futures, position, submitted)
      modifies executor`tasks, this`peak
      ensures executor.Valid() && next == Reached(position, window, |plan.items|) && peak == window
      ensures Held(plan, executor.tasks, held, position, next)
    {
      hide Held;
      held, next := futures, submitted;
      if submitted < |plan.items| { held, next := SubmitNext(executor, futures, position, submitted); }
    }

    /** The result of the future at `position`, which is never missing. */
    method TakeNext(executor: Executor<Request, Executed>, futures: map<nat, nat>, position: nat, submitted: nat, outcome: Request -> Executed)
      returns (item: Item, rest: map<nat, nat>)
      requires executor.Valid() && executor.call == outcome && !plan.failFast
      requires position < submitted && Held(plan, executor.tasks, futures, position, submitted)
      modifies executor`started, executor`running, executor`done
      ensures executor.Valid() && item == Due(plan, outcome, position)
      ensures Held(plan, executor.tasks, rest, position + 1, submitted)
    {
      var ticket := futures[position];
      rest := futures - {position};
      var executed := executor.Await(ticket);
      item := Ran(plan.items[position], executed);
    }

    method SubmitNext(executor: Executor<Request, Executed>, futures: map<nat, nat>, position: nat, submitted: nat) returns (held: map<nat, nat>, next: nat)
      requires executor.Valid() && position <= submitted < |plan.items|
      requires Held(plan, executor.tasks, futures, position, submitted)
      modifies executor`tasks, this`peak
      ensures executor.Valid() && next == submitted + 1 && Held(plan, executor.tasks, held, position, next)
      ensures |held| == |futures| + 1 == next - position
      ensures peak == if old(peak) < next - position then next - position else old(peak)
    {
      IntervalSize(futures, position, submitted);
      var ticket := executor.Submit(plan.items[submitted]);
      held, next := futures[submitted := ticket], submitted + 1;
      IntervalSize(held, position, next);
      if peak < |held| { peak := |held|; }
    }
  }

  /** How many of `n` requests a window of the given size has reached at a position. */
  function Reached(position: nat, window: nat, n: nat): nat {
    if position + window < n then position + window else n
  }

  /** Exactly the positions from `first` up to `next` have a future, each for its own request, and the
      requests up to `next` were submitted in plan order. */
  ghost predicate Held(plan: Plan, tasks: seq<Request>, futures: map<nat, nat>, first: nat, next: nat) {
    && first <= next <= |plan.items|
    && tasks == plan.items[..next]
    && (forall p: nat :: p in futures <==> first <= p < next)
    && forall p :: p in futures ==> futures[p] < |tasks| && tasks[futures[p]] == plan.items[p]
  }

  /** In window mode the submitted requests are those the window reaches. */
  lemma WindowHanded(plan: Plan, outcome: Request -> Executed, maxInFlight: nat, tasks: seq<Request>, futures: map<nat, nat>, n: nat, first: nat, next: nat)
    requires !plan.failFast && Held(plan, tasks, futures, first, next) && n <= |plan.items|
    requires next == Reached(n, maxInFlight, |plan.items|)
    ensures tasks == Handed(plan, outcome, maxInFlight, n)
  {
  }

  lemma NothingHanded(plan: Plan, outcome: Request -> Executed, maxInFlight: nat)
    requires plan.failFast || plan.items == []
    ensures Handed(plan, outcome, maxInFlight, 0) == []
  {
  }

  /** Fail-fast mode hands out one more request until one has failed, and none after that. */
  lemma HandedNext(plan: Plan, outcome: Request -> Executed, maxInFlight: nat, i: nat)
    requires plan.failFast && i < |plan.items|
    ensures Handed(plan, outcome, maxInFlight, i + 1)
         == Handed(plan, outcome, maxInFlight, i) + if FailedBefore(plan, outcome, i) then [] else [plan.items[i]]
  {
    var n := Through(plan, outcome, 0);
    if n <= i { assert !outcome(plan.items[n - 1]).success; }
  }

  lemma NoneHeld(plan: Plan, tasks: seq<Request>, futures: map<nat, nat>)
    requires futures == map[] && tasks == []
    ensures Held(plan, tasks, futures, 0, 0)
  {
  }

  lemma {:induction false} IntervalSize(futures: map<nat, nat>, first: nat, next: nat)
    requires first <= next && forall p: nat :: p in futures <==> first <= p < next
    ensures |futures| == next - first
    decreases next - first
  {
    if first == next {
      assert futures.Keys == {};
    } else {
      var rest := futures - {first};
      IntervalSize(rest, first + 1, next);
      assert futures.Keys == rest.Keys + {first};
    }
  }

  // ---------------------------------------------------------------- the envelope and the whole batch

  function CountOf(items: seq<Item>, status: Status): nat {
    if items == [] then 0 else (if items[0].status == status then 1 else 0) + CountOf(items[1..], status)
  }

  ghost function HavingFrom(items: seq<Item>, status: Status, from: nat): set<int> {
    set i | from <= i < |items| && items[i].status == status
  }

  /** A count is the number of items with its status. */
  lemma {:induction false} CountExactly(items: seq<Item>, status: Status, from: nat)
    requires from <= |items|
    ensures CountOf(items[from..], status) == |HavingFrom(items, status, from)|
    decreases |items| - from
  {
    if from < |items| {
      CountExactly(items, status, from + 1);
      var rest := HavingFrom(items, status, from + 1);
      assert HavingFrom(items, status, from) == if items[from].status == status then rest + {from} else rest;
      assert items[from..][1..] == items[from + 1..];
    } else {
      assert HavingFrom(items, status, from) == {};
    }
  }

  function Summary(items: seq<Item>): Envelope {
    Envelope(items, CountOf(items, SUCCESS), CountOf(items, FAILURE), CountOf(items, NOT_RUN))
  }

  /** The three counts partition the records. */
  lemma {:induction false} CountsPartition(items: seq<Item>)
    ensures CountOf(items, SUCCESS) + CountOf(items, FAILURE) + CountOf(items, NOT_RUN) == |items|
    decreases |items|
  {
    if items != [] { CountsPartition(items[1..]); }
  }

  /** Fail-fast hands out exactly the prefix through the first failure and marks the rest as not run. */
  lemma FailFastPrefix(plan: Plan, outcome: Request -> Executed, f: nat)
    requires plan.failFast && f < |plan.items|
    requires !outcome(plan.items[f]).success && !FailedBefore(plan, outcome, f)
    ensures forall i :: 0 <= i < |plan.items| ==>
              Due(plan, outcome, i).status == if i < f then SUCCESS else if i == f then FAILURE else NOT_RUN
    ensures forall maxInFlight :: Handed(plan, outcome, maxInFlight, |plan.items|) == plan.items[..f + 1]
  {
    var n := Through(plan, outcome, 0);
    assert n == f + 1;
    forall i | 0 <= i < |plan.items|
      ensures Due(plan, outcome, i).status == if i < f then SUCCESS else if i == f then FAILURE else NOT_RUN
    {
      if i > f { assert FailedBefore(plan, outcome, i); }
      if i <= f { assert !FailedBefore(plan, outcome, i); }
      if i < f { assert outcome(plan.items[i]).success; }
    }
  }

  function Retained(items: seq<Item>): nat {
    if items == [] then 0 else Retained(items[..|items| - 1]) + items[|items| - 1].retained
  }

  lemma {:induction false} RetainedGrows(items: seq<Item>, i: nat)
    requires i <= |items|
    ensures Retained(items[..i]) <= Retained(items)
    ensures i < |items| ==> Retained(items[..i]) + items[i].retained <= Retained(items)
    decreases |items| - i
  {
    if i < |items| {
      RetainedGrows(items, i + 1);
      assert items[..i + 1][..i] == items[..i];
    } else {
      assert items[..i] == items;
    }
  }

  datatype BatchExecution =
    | Batch(items: seq<Item>, envelope: Envelope)
    | ResultBoundError
    | InvalidWorkerCount
    | InvalidExecutionOption
    | InvalidStreamingBound

  /** `_validate_options`, in its order. */
  function OptionsError(plan: Plan, workers: int, maxInFlight: int): (e: Option<BatchExecution>)
    ensures e == None <==> 1 <= workers <= maxInFlight <= MAX_IN_FLIGHT && workers <= MAX_WORKERS && (plan.failFast ==> workers == 1)
  {
    if !(1 <= workers <= MAX_WORKERS) then Some(InvalidWorkerCount)
    else if plan.failFast && workers != 1 then Some(InvalidExecutionOption)
    else if !(1 <= maxInFlight <= MAX_IN_FLIGHT) || maxInFlight < workers then Some(InvalidStreamingBound)
    else None
  }

  /** `execute_batch`: with valid options it succeeds exactly when everything due fits the
      retained-result bound together. */
  method ExecuteBatch(plan: Plan, outcome: Request -> Executed, workers: int, maxInFlight: int) returns (batch: BatchExecution)
    ensures OptionsError(plan, workers, maxInFlight).Some? ==> Some(batch) == OptionsError(plan, workers, maxInFlight)
    ensures OptionsError(plan, workers, maxInFlight) == None ==>
              batch == if Retained(AllDue(plan, outcome)) <= plan.retainedBound
                       then Batch(AllDue(plan, outcome), Summary(AllDue(plan, outcome))) else ResultBoundError
  {
    hide Handed, Due, FailedBefore;
    var invalid := OptionsError(plan, workers, maxInFlight);
    if invalid.Some? { return invalid.value; }
    var stream := new OrderedBatchStream(plan, workers, maxInFlight);
    var ok := stream.Exhaust(outcome);
    ghost var due := AllDue(plan, outcome);
    var items, retained := [], 0;
    for i := 0 to |stream.records|
      invariant items == stream.records[..i] && retained == Retained(items) <= plan.retainedBound
    {
      assert stream.records[..i + 1][..i] == stream.records[..i];
      retained := retained + stream.records[i].retained;
      items := items + [stream.records[i]];
      assert items == due[..i + 1];
      if retained > plan.retainedBound {
        RetainedGrows(due, i + 1);
        return ResultBoundError;
      }
    }
    if !ok {
      RetainedGrows(due, |stream.records|);
      return ResultBoundError;
    }
    assert items == due;
    batch := Batch(items, stream.envelope.value);
  }
}
