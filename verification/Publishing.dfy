/** Publishing evidence bundles through an adapter: a sliding window over an iterator of unknown
    length, returning exactly one receipt per bundle in caller order. */
module Publishing {
  import opened Values
  import opened Windows

  const MAX_ADAPTER_IN_FLIGHT: nat := 1024
  const MAX_ADAPTER_RECEIPTS_BYTES: nat := 16777216

  /** One step of the caller's iterator; after the last one it is exhausted. */
  datatype Pulled = Bundle(id: string) | NotABundle | IterableFails

  /** What the adapter does with a bundle. */
  datatype Published = Located(locator: string) | AdapterRaises | WrongType

  datatype Receipt = Receipt(bundle: string, ordinal: nat, published: Published)

  datatype Failed = ContractError | OrchestrationError | BoundError

  type Adapter = string -> Published

  /** `_invoke`: an adapter exception becomes a failure receipt, a wrong type a contract error. */
  function Invoke(publish: Adapter, id: string, ordinal: nat): Option<Receipt> {
    if publish(id).WrongType? then None else Some(Receipt(id, ordinal, publish(id)))
  }

  function ReceiptAt(source: seq<Pulled>, publish: Adapter, i: nat): Option<Receipt>
    requires i < |source|
  {
    if source[i].Bundle? then Invoke(publish, source[i].id, i) else None
  }

  /** The receipts are those of the first bundles, in caller order. */
  ghost predicate InOrder(source: seq<Pulled>, publish: Adapter, receipts: seq<Receipt>) {
    |receipts| <= |source| && forall i :: 0 <= i < |receipts| ==> ReceiptAt(source, publish, i) == Some(receipts[i])
  }

  function Bytes(size: Receipt -> nat, receipts: seq<Receipt>): nat {
    if receipts == [] then 0 else Bytes(size, receipts[..|receipts| - 1]) + size(receipts[|receipts| - 1])
  }

  lemma {:induction false} BytesGrow(size: Receipt -> nat, receipts: seq<Receipt>, i: nat)
    requires i <= |receipts|
    ensures Bytes(size, receipts[..i]) <= Bytes(size, receipts)
    decreases |receipts| - i
  {
    if i < |receipts| {
      BytesGrow(size, receipts, i + 1);
      assert receipts[..i + 1][..i] == receipts[..i];
    } else {
      assert receipts[..i] == receipts;
    }
  }

  /** The receipt at position i names the i-th bundle, its position, and the adapter's own answer. */
  lemma ReceiptsMean(source: seq<Pulled>, publish: Adapter, receipts: seq<Receipt>, i: nat)
    requires InOrder(source, publish, receipts) && i < |receipts|
    ensures source[i].Bundle? && !publish(source[i].id).WrongType?
    ensures receipts[i].bundle == source[i].id && receipts[i].ordinal == i && receipts[i].published == publish(source[i].id)
  {
    assert ReceiptAt(source, publish, i) == Some(receipts[i]);
  }

  /** Every bundle has its receipt, in caller order, and together they fit. */
  ghost predicate AllPublished(source: seq<Pulled>, publish: Adapter, size: Receipt -> nat, limit: nat, receipts: seq<Receipt>) {
    InOrder(source, publish, receipts) && |receipts| == |source| && Bytes(size, receipts) <= limit
  }

  lemma {:induction false} ReceiptsDetermined(source: seq<Pulled>, publish: Adapter, a: seq<Receipt>, b: seq<Receipt>)
    requires InOrder(source, publish, a) && InOrder(source, publish, b) && |a| <= |b|
    ensures a <= b
  {
    forall i | 0 <= i < |a| ensures a[i] == b[i] { assert ReceiptAt(source, publish, i) == Some(b[i]); }
  }

  predicate Bundles(source: seq<Pulled>, next: nat)
    requires next <= |source|
  {
    forall i :: 0 <= i < next ==> source[i].Bundle?
  }

  /** Exactly the ordinals from `output` up to `next` have a future, each for its own bundle. */
  ghost predicate Scheduled(source: seq<Pulled>, tasks: seq<(string, nat)>, futures: map<nat, nat>, output: nat, next: nat) {
    && output <= next <= |source|
    && Bundles(source, next)
    && (forall p: nat :: p in futures <==> output <= p < next)
    && forall p :: p in futures ==> futures[p] < |tasks| && tasks[futures[p]] == (source[p].id, p)
  }

  lemma ScheduledNext(source: seq<Pulled>, tasks: seq<(string, nat)>, futures: map<nat, nat>, output: nat, next: nat, id: string)
    requires Scheduled(source, tasks, futures, output, next) && next < |source| && source[next] == Bundle(id)
    ensures var held := futures[next := |tasks|];
            Scheduled(source, tasks + [(id, next)], held, output, next + 1) && |held| == next + 1 - output
  {
    IntervalSize(futures[next := |tasks|], output, next + 1);
  }

  lemma ScheduledOldest(source: seq<Pulled>, tasks: seq<(string, nat)>, futures: map<nat, nat>, output: nat, next: nat)
    requires Scheduled(source, tasks, futures, output, next)
    ensures futures == map[] <==> output == next
    ensures |futures| == next - output
    ensures next <= |source| && Bundles(source, next)
  {
    IntervalSize(futures, output, next);
  }

  datatype Submission = Submitted | Drained | Rejected(failed: Failed)

  class Publisher {
    const source: seq<Pulled>
    const publish: Adapter
    const executor: Executor<(string, nat), Option<Receipt>>
    var nextOrdinal: nat
    var exhausted: bool
    var futures: map<nat, nat>
    var peak: nat

    constructor (source: seq<Pulled>, publish: Adapter, workers: nat)
      requires workers > 0
      ensures Valid(0) && fresh(executor) && this.source == source && this.publish == publish && nextOrdinal == 0 && !exhausted && peak == 0
    {
      this.source, this.publish := source, publish;
      executor := new Executor((q: (string, nat)) => Invoke(publish, q.0, q.1), workers);
      nextOrdinal, exhausted, futures, peak := 0, false, map[], 0;
    }

    /** The futures are exactly those of the ordinals from `output` up to the next one. */
    ghost predicate Valid(output: nat)
      reads this, executor
    {
      && executor.Valid()
      && executor.call == ((q: (string, nat)) => Invoke(publish, q.0, q.1))
      && (exhausted ==> nextOrdinal == |source|)
      && Scheduled(source, executor.tasks, futures, output, nextOrdinal)
    }

    /** Futures are left exactly while some ordinal awaits its output. */
    lemma Oldest(output: nat)
      requires Valid(output)
      ensures futures == map[] <==> output == nextOrdinal
      ensures output <= nextOrdinal <= |source|
      ensures output < nextOrdinal ==> source[output].Bundle?
      ensures Bundles(source, nextOrdinal)
    {
      ScheduledOldest(source, executor.tasks, futures, output, nextOrdinal);
    }

    /** `submit_one`. */
    method SubmitOne(ghost output: nat) returns (s: Submission)
      requires Valid(output)
      modifies this`nextOrdinal, this`exhausted, this`futures, this`peak, executor`tasks
      ensures s.Submitted? ==> Valid(output) && !old(exhausted) && nextOrdinal == old(nextOrdinal) + 1 && |futures| == nextOrdinal - output
      ensures peak == (if s.Submitted? && old(peak) < |futures| then |futures| else old(peak))
      ensures s.Drained? ==> Valid(output) && exhausted && nextOrdinal == old(nextOrdinal) && futures == old(futures)
      ensures s.Rejected? ==>
                && nextOrdinal == old(nextOrdinal) < |source| && !source[nextOrdinal].Bundle?
                && (s.failed.ContractError? <==> source[nextOrdinal].NotABundle?)
                && (s.failed.OrchestrationError? <==> source[nextOrdinal].IterableFails?)
    {
      if exhausted { return Drained; }
      if nextOrdinal == |source| {
        exhausted := true;
        return Drained;
      }
      match source[nextOrdinal] {
        case IterableFails => return Rejected(OrchestrationError);
        case NotABundle => return Rejected(ContractError);
        case Bundle(id) =>
          Submit(id, output);
          s := Submitted;
      }
    }

    method Submit(id: string, ghost output: nat)
      requires Valid(output) && !exhausted && nextOrdinal < |source| && source[nextOrdinal] == Bundle(id)
      modifies this`nextOrdinal, this`futures, this`peak, executor`tasks
      ensures Valid(output) && nextOrdinal == old(nextOrdinal) + 1 && |futures| == nextOrdinal - output
      ensures peak == if old(peak) < |futures| then |futures| else old(peak)
    {
      hide Scheduled, Bundles, Invoke;
      ScheduledNext(source, executor.tasks, futures, output, nextOrdinal, id);
      var ordinal := nextOrdinal;
      nextOrdinal := nextOrdinal + 1;
      var ticket := executor.Submit((id, ordinal));
      futures := futures[ordinal := ticket];
      assert |futures| == nextOrdinal - output;
      if peak < |futures| { peak := |futures|; }
    }

    /** The receipt of the oldest future, which is never missing. */
    method TakeOldest(output: nat) returns (receipt: Option<Receipt>)
      requires Valid(output) && output < nextOrdinal
      modifies this`futures, executor`started, executor`running, executor`done
      ensures Valid(output + 1) && receipt == ReceiptAt(source, publish, output)
    {
      var ticket := futures[output];
      futures := futures - {output};
      receipt := executor.Await(ticket);
    }
  }

  datatype Outcome = Receipts(receipts: seq<Receipt>) | Failure(failed: Failed)

  // ---------------------------------------------------------------- which failure comes first

  /** What pulling the p-th bundle raises; the iterator may have ended before it. */
  function PullFailure(source: seq<Pulled>, p: nat): Option<Failed> {
    if p >= |source| then None
    else
      match source[p]
      case Bundle(_) => None
      case NotABundle => Some(ContractError)
      case IterableFails => Some(OrchestrationError)
  }

  /** The size of the receipts before the n-th. */
  function SizeBefore(source: seq<Pulled>, publish: Adapter, size: Receipt -> nat, n: nat): nat
    requires n <= |source|
  {
    if n == 0 then 0
    else
      SizeBefore(source, publish, size, n - 1)
      + match ReceiptAt(source, publish, n - 1) case None => 0 case Some(r) => size(r)
  }

  /** What taking the o-th receipt raises. */
  function TakeFailure(source: seq<Pulled>, publish: Adapter, size: Receipt -> nat, limit: nat, o: nat): Option<Failed> {
    if o >= |source| || !source[o].Bundle? then None
    else if ReceiptAt(source, publish, o) == None then Some(ContractError)
    else if SizeBefore(source, publish, size, o + 1) > limit then Some(BoundError)
    else None
  }

  /** The events of a publication in their order: the first `window` bundles are pulled, then receipts are
      taken and bundles pulled by turns, so that receipt o is followed by bundle o + window. */
  function FailureAt(source: seq<Pulled>, publish: Adapter, size: Receipt -> nat, window: nat, limit: nat, t: nat): Option<Failed> {
    if t < window then PullFailure(source, t)
    else
      var turn := (t - window) / 2;
      if (t - window) % 2 == 0 then TakeFailure(source, publish, size, limit, turn) else PullFailure(source, window + turn)
  }

  ghost predicate ClearUntil(source: seq<Pulled>, publish: Adapter, size: Receipt -> nat, window: nat, limit: nat, t: nat) {
    forall u :: 0 <= u < t ==> FailureAt(source, publish, size, window, limit, u) == None
  }

  /** The first failing event decides; without one, every bundle gets its receipt. */
  ghost predicate Decided(source: seq<Pulled>, publish: Adapter, size: Receipt -> nat, window: nat, limit: nat, outcome: Outcome) {
    match outcome
    case Receipts(receipts) =>
      && AllPublished(source, publish, size, limit, receipts)
      && forall t: nat :: FailureAt(source, publish, size, window, limit, t) == None
    case Failure(failed) =>
      exists t: nat :: FailureAt(source, publish, size, window, limit, t) == Some(failed) && ClearUntil(source, publish, size, window, limit, t)
  }

  /** There is only one such outcome. */
  lemma DecidedOnce(source: seq<Pulled>, publish: Adapter, size: Receipt -> nat, window: nat, limit: nat, a: Outcome, b: Outcome)
    requires Decided(source, publish, size, window, limit, a) && Decided(source, publish, size, window, limit, b)
    ensures a == b
  {
    hide FailureAt, InOrder;
    match (a, b)
    case (Receipts(x), Receipts(y)) =>
      ReceiptsDetermined(source, publish, x, y);
      ReceiptsDetermined(source, publish, y, x);
    case (Failure(f), Failure(g)) =>
      var t: nat :| FailureAt(source, publish, size, window, limit, t) == Some(f) && ClearUntil(source, publish, size, window, limit, t);
      var u: nat :| FailureAt(source, publish, size, window, limit, u) == Some(g) && ClearUntil(source, publish, size, window, limit, u);
      assert t == u;
    case _ =>
  }

  lemma {:induction false} SizeIsBytes(source: seq<Pulled>, publish: Adapter, size: Receipt -> nat, receipts: seq<Receipt>)
    requires InOrder(source, publish, receipts)
    ensures SizeBefore(source, publish, size, |receipts|) == Bytes(size, receipts)
    decreases |receipts|
  {
    if receipts != [] {
      var front := receipts[..|receipts| - 1];
      assert InOrder(source, publish, front) by {
        forall i | 0 <= i < |front| ensures ReceiptAt(source, publish, i) == Some(front[i]) { assert front[i] == receipts[i]; }
      }
      SizeIsBytes(source, publish, size, front);
      assert ReceiptAt(source, publish, |receipts| - 1) == Some(receipts[|receipts| - 1]);
    }
  }

  lemma {:induction false} SizeGrows(source: seq<Pulled>, publish: Adapter, size: Receipt -> nat, m: nat, n: nat)
    requires m <= n <= |source|
    ensures SizeBefore(source, publish, size, m) <= SizeBefore(source, publish, size, n)
    decreases n - m
  {
    if m < n { SizeGrows(source, publish, size, m, n - 1); }
  }

  /** With the first `next` pulls and the first receipts behind it, no event before the next one has failed. */
  lemma ClearBehind(source: seq<Pulled>, publish: Adapter, size: Receipt -> nat, window: nat, limit: nat, receipts: seq<Receipt>, next: nat, t: nat)
    requires InOrder(source, publish, receipts) && Bytes(size, receipts) <= limit
    requires next <= |source| && Bundles(source, next)
    requires next < |source| ==> t <= window || (t - window) / 2 + window <= next
    requires |receipts| < |source| ==> t <= window || (t - window + 1) / 2 <= |receipts|
    requires next < |source| && t <= window ==> t <= next
    ensures ClearUntil(source, publish, size, window, limit, t)
  {
    hide ReceiptAt, SizeBefore, Bytes;
    SizeIsBytes(source, publish, size, receipts);
    forall u | 0 <= u < t ensures FailureAt(source, publish, size, window, limit, u) == None {
      if u >= window {
        var turn := (u - window) / 2;
        if turn < |receipts| {
          assert ReceiptAt(source, publish, turn) == Some(receipts[turn]);
          SizeGrows(source, publish, size, turn + 1, |receipts|);
        }
      }
    }
  }

  /** The checks on the window, the workers and the receipt bound. */
  predicate OptionsValid(workers: int, maxInFlight: int, limit: int) {
    1 <= workers <= maxInFlight <= MAX_ADAPTER_IN_FLIGHT && 0 <= limit <= MAX_ADAPTER_RECEIPTS_BYTES
  }

  /** `publish_evidence_bundles`; `peak` is the largest number of futures held at once. */
  method PublishBundles(source: seq<Pulled>, publish: Adapter, size: Receipt -> nat, workers: int, maxInFlight: int, limit: int)
    returns (outcome: Outcome, peak: nat)
    ensures !OptionsValid(workers, maxInFlight, limit) ==> outcome == Failure(BoundError) && peak == 0
    ensures OptionsValid(workers, maxInFlight, limit) ==>
              Decided(source, publish, size, maxInFlight, limit, outcome) && peak <= maxInFlight
  {
    hide FailureAt;
    if !OptionsValid(workers, maxInFlight, limit) { return Failure(BoundError), 0; }
    var publisher := new Publisher(source, publish, workers);
    while |publisher.futures| < maxInFlight && !publisher.exhausted
      invariant publisher.Valid(0) && fresh(publisher) && fresh(publisher.executor)
      invariant |publisher.futures| == publisher.nextOrdinal == publisher.peak <= maxInFlight
      decreases maxInFlight - |publisher.futures|, !publisher.exhausted
    {
      var s := publisher.SubmitOne(0);
      if s.Rejected? {
        PullRejected(source, publish, size, maxInFlight, limit, [], publisher.nextOrdinal, s.failed);
        return Failure(s.failed), publisher.peak;
      }
    }
    outcome := Deliver(publisher, size, maxInFlight, limit);
    peak := publisher.peak;
  }

  method Deliver(publisher: Publisher, size: Receipt -> nat, ghost window: nat, limit: nat) returns (outcome: Outcome)
    requires publisher.Valid(0) && (publisher.exhausted || publisher.nextOrdinal == window) && window > 0
    requires publisher.peak <= window && publisher.nextOrdinal <= window
    modifies publisher, publisher.executor
    ensures Decided(publisher.source, publisher.publish, size, window, limit, outcome) && publisher.peak <= window
  {
    hide InOrder, Bytes, ReceiptAt, Scheduled, FailureAt, Decided, TakeFailure;
    var receipts: seq<Receipt>, aggregate := [], 0;
    NoReceipts(publisher.source, publisher.publish, size);
    while publisher.futures != map[]
      invariant publisher.Valid(|receipts|) && InOrder(publisher.source, publisher.publish, receipts)
      invariant aggregate == Bytes(size, receipts) <= limit
      invariant publisher.nextOrdinal <= |receipts| + window && publisher.peak <= window
      invariant publisher.exhausted || publisher.nextOrdinal == |receipts| + window
      decreases |publisher.source| - |receipts|
    {
      publisher.Oldest(|receipts|);
      var failed;
      failed, receipts, aggregate := TakeReceipt(publisher, size, window, limit, receipts, aggregate);
      if failed.Some? { return Failure(failed.value); }
      publisher.Oldest(|receipts|);
      var s := publisher.SubmitOne(|receipts|);
      if s.Rejected? {
        PullRejected(publisher.source, publisher.publish, size, window, limit, receipts, publisher.nextOrdinal, s.failed);
        return Failure(s.failed);
      }
    }
    publisher.Oldest(|receipts|);
    AllTaken(publisher.source, publisher.publish, size, window, limit, receipts);
    outcome := Receipts(receipts);
  }

  /** One receipt: the oldest one, unless it is missing or does not fit. */
  method TakeReceipt(publisher: Publisher, size: Receipt -> nat, ghost window: nat, limit: nat, receipts: seq<Receipt>, aggregate: nat)
    returns (failed: Option<Failed>, more: seq<Receipt>, total: nat)
    requires publisher.Valid(|receipts|) && |receipts| < publisher.nextOrdinal
    requires publisher.exhausted || publisher.nextOrdinal == |receipts| + window
    requires InOrder(publisher.source, publisher.publish, receipts) && aggregate == Bytes(size, receipts) <= limit
    modifies publisher`futures, publisher.executor
    ensures failed.Some? ==> Decided(publisher.source, publisher.publish, size, window, limit, Failure(failed.value))
    ensures failed == None ==>
              && publisher.Valid(|more|) && |more| == |receipts| + 1
              && InOrder(publisher.source, publisher.publish, more) && total == Bytes(size, more) <= limit
  {
    hide InOrder, Bytes, ReceiptAt, Scheduled, FailureAt, Decided, PullFailure, TakeFailure;
    var source, publish, output := publisher.source, publisher.publish, |receipts|;
    publisher.Oldest(output);
    assert source[output].Bundle?;
    more, total := receipts, aggregate;
    var receipt := publisher.TakeOldest(output);
    if receipt == None {
      MissingReceipt(source, publish, size, limit, output);
      TakeRejected(source, publish, size, window, limit, receipts, publisher.nextOrdinal, ContractError);
      return Some(ContractError), more, total;
    }
    if aggregate + size(receipt.value) > limit {
      ExcessReceipt(source, publish, size, limit, receipts, receipt.value);
      TakeRejected(source, publish, size, window, limit, receipts, publisher.nextOrdinal, BoundError);
      return Some(BoundError), more, total;
    }
    NextReceipt(source, publish, size, receipts, receipt.value);
    failed, more, total := None, receipts + [receipt.value], aggregate + size(receipt.value);
  }

  lemma NoReceipts(source: seq<Pulled>, publish: Adapter, size: Receipt -> nat)
    ensures InOrder(source, publish, []) && Bytes(size, []) == 0
  {
  }

  lemma NextReceipt(source: seq<Pulled>, publish: Adapter, size: Receipt -> nat, receipts: seq<Receipt>, r: Receipt)
    requires InOrder(source, publish, receipts) && |receipts| < |source| && ReceiptAt(source, publish, |receipts|) == Some(r)
    ensures InOrder(source, publish, receipts + [r]) && Bytes(size, receipts + [r]) == Bytes(size, receipts) + size(r)
  {
    assert (receipts + [r])[..|receipts|] == receipts;
  }

  /** A rejected pull is the first failing event. */
  lemma PullRejected(source: seq<Pulled>, publish: Adapter, size: Receipt -> nat, window: nat, limit: nat, receipts: seq<Receipt>, next: nat, failed: Failed)
    requires InOrder(source, publish, receipts) && Bytes(size, receipts) <= limit
    requires next < |source| && PullFailure(source, next) == Some(failed) && Bundles(source, next)
    requires if receipts == [] then next < window else next == window + |receipts| - 1
    ensures Decided(source, publish, size, window, limit, Failure(failed))
  {
    hide ReceiptAt, SizeBefore, Bytes, InOrder;
    var t := if receipts == [] then next else window + 2 * (|receipts| - 1) + 1;
    ClearBehind(source, publish, size, window, limit, receipts, next, t);
    assert FailureAt(source, publish, size, window, limit, t) == Some(failed);
  }

  /** So is a receipt that is missing or does not fit. */
  lemma TakeRejected(source: seq<Pulled>, publish: Adapter, size: Receipt -> nat, window: nat, limit: nat, receipts: seq<Receipt>, next: nat, failed: Failed)
    requires InOrder(source, publish, receipts) && Bytes(size, receipts) <= limit
    requires |receipts| < next <= |source| && Bundles(source, next)
    requires next == |source| || next == window + |receipts|
    requires TakeFailure(source, publish, size, limit, |receipts|) == Some(failed)
    ensures Decided(source, publish, size, window, limit, Failure(failed))
  {
    hide ReceiptAt, SizeBefore, Bytes, InOrder, TakeFailure;
    var t := window + 2 * |receipts|;
    ClearBehind(source, publish, size, window, limit, receipts, next, t);
    assert FailureAt(source, publish, size, window, limit, t) == Some(failed);
  }

  lemma MissingReceipt(source: seq<Pulled>, publish: Adapter, size: Receipt -> nat, limit: nat, o: nat)
    requires o < |source| && source[o].Bundle? && ReceiptAt(source, publish, o) == None
    ensures TakeFailure(source, publish, size, limit, o) == Some(ContractError)
  {
  }

  lemma ExcessReceipt(source: seq<Pulled>, publish: Adapter, size: Receipt -> nat, limit: nat, receipts: seq<Receipt>, r: Receipt)
    requires InOrder(source, publish, receipts) && |receipts| < |source| && source[|receipts|].Bundle?
    requires ReceiptAt(source, publish, |receipts|) == Some(r) && Bytes(size, receipts) + size(r) > limit
    ensures TakeFailure(source, publish, size, limit, |receipts|) == Some(BoundError)
  {
    hide ReceiptAt;
    SizeIsBytes(source, publish, size, receipts);
  }

  /** With every receipt taken, no event at all has failed. */
  lemma AllTaken(source: seq<Pulled>, publish: Adapter, size: Receipt -> nat, window: nat, limit: nat, receipts: seq<Receipt>)
    requires AllPublished(source, publish, size, limit, receipts)
    ensures Decided(source, publish, size, window, limit, Receipts(receipts))
  {
    hide Bytes;
    forall t: nat ensures FailureAt(source, publish, size, window, limit, t) == None {
      assert Bundles(source, |source|) by { forall p | 0 <= p < |source| ensures source[p].Bundle? { assert ReceiptAt(source, publish, p) == Some(receipts[p]); } }
      ClearBehind(source, publish, size, window, limit, receipts, |source|, t + 1);
    }
  }

  /** When every bundle can be published within the limit, that is the only outcome. */
  lemma PublishedExcludesFailure(source: seq<Pulled>, publish: Adapter, size: Receipt -> nat, window: nat, limit: nat, receipts: seq<Receipt>, outcome: Outcome)
    requires AllPublished(source, publish, size, limit, receipts) && Decided(source, publish, size, window, limit, outcome)
    ensures outcome == Receipts(receipts)
  {
    hide FailureAt, InOrder, Decided;
    AllTaken(source, publish, size, window, limit, receipts);
    DecidedOnce(source, publish, size, window, limit, outcome, Receipts(receipts));
  }
}
