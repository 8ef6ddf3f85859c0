/** Suite execution against its offline verification: what the executor retains, how it classifies
    each case, and when the verifier accepts the suite with the executor's own children. */
module Suites {
  import opened Values
  import opened Steps
  import opened Actors
  import opened Evidence
  import opened Results

  const MAX_CASE_SELECTIONS: nat := 65536
  const MAX_TOTAL_SELECTIONS: nat := 262144
  const MAX_RETAINED_CHILD_BYTES: nat := 67108864

  const EXPECTED_FAILURE_CODES := {"InvariantViolation"}

  datatype Expectation = Expectation(classification: Classification, code: Option<string>)

  /** One planned operation: a scenario in its world, with the seeds to run it at. */
  datatype PlannedCase = PlannedCase(identity: string, expectation: Expectation, w: World, sc: Scenario, q: Request)

  /** What validation guarantees of a case: its scenario is parsed, and resource and generator names carry
      their prefixes, so none of them is the reserved key. */
  predicate ValidCase(c: PlannedCase) {
    ValidScenario(c.sc) && c.sc.id != "" && PlainManifest(ManifestFor(c.sc, c.q))
  }

  /** A native result with its schedule. */
  datatype Native = Native(result: ResultOf<Value>, schedule: Schedule)

  /** How the native engine ends on a case; `violation` says the exception is an invariant violation. */
  datatype Executed =
    | Completed(native: Native)
    | RaisedByPlugin
    | FailedNatively(native: Native, violation: bool)
    | FailedInternally

  datatype Part = MANIFEST | RESULT | SCHEDULE

  datatype Status = SUCCESS | EXPECTED_FAILURE | UNEXPECTED_FAILURE | ERROR

  datatype Reference = Reference(identity: string, sha: string, size: nat)

  datatype References = References(manifest: Reference, result: Reference, schedule: Reference)

  datatype Observed = Observed(classification: Option<Classification>, code: Option<string>)

  /** What the suite records of a case: the coordinates of its request, and its evidence when retained. */
  datatype CaseOutcome = CaseOutcome(
    identity: string, expectation: Expectation, coordinates: Manifest, status: Status, observed: Observed,
    native: Option<References>, child: Option<Native>
  )

  // ---------------------------------------------------------------- the native engine

  /** `_authoritative_failed_outcome`: the outcome an exception carries must be a failed one that names it. */
  predicate Authoritative(report: Report, e: Error) {
    var s := report.schedule;
    && report.classification == FAILURE && s.classification == FAILURE && s.failure.Some?
    && s.records != [] && s.records[|s.records| - 1].outcome == FAILED
    && s.failure.value.code == CodeOf(e)
    && report.decisions != [] && report.decisions[|report.decisions| - 1].actor == s.failure.value.actor
  }

  /** `execute_engine2`, and what `_execute_case` makes of its exceptions: a plugin error is never a
      recognized failure, any other exception is one when it carries authoritative evidence. */
  function ExecuteNative(codec: Codec, c: PlannedCase): Executed {
    match ExecuteActors(c.w, c.sc, c.q, None)
    case Finished(report) =>
      (match ConstructResult2(codec, c.sc, report)
       case None => FailedInternally
       case Some(result) => Completed(Native(result, report.schedule)))
    case Broken(e, report) =>
      if e.GeneratorFailed? then RaisedByPlugin
      else if !Authoritative(report, e) then FailedInternally
      else
        (match ConstructResult2(codec, c.sc, report)
         case None => FailedInternally
         case Some(result) => FailedNatively(Native(result, report.schedule), e.InvariantViolation?))
    case _ => FailedInternally
  }

  /** A native child as every run leaves it. */
  predicate Genuine(codec: Codec, c: PlannedCase, native: Native) {
    var h := native.result.head;
    && HeadAccepted(h) && h.manifest == ManifestFor(c.sc, c.q) && PlainManifest(h.manifest)
    && ScheduleWellFormed(native.schedule) && CoordinatesAgree(c.sc, c.q, native.schedule)
    && h.scheduleHash == IdentityOf(codec, OfSchedule(native.schedule)) && h.referencedScenario == native.schedule.hash
    && h.classification == native.schedule.classification && h.failure == native.schedule.failure
  }

  predicate Engine(codec: Codec, c: PlannedCase, e: Executed) {
    match e
    case Completed(native) => Genuine(codec, c, native) && native.result.head.classification == Classification.SUCCESS
    case FailedNatively(native, violation) =>
      Genuine(codec, c, native) && native.result.head.classification == FAILURE
      && (violation <==> native.result.head.failure.value.code == "InvariantViolation")
    case _ => true
  }

  lemma ConstructedGenuine(codec: Codec, c: PlannedCase, report: Report)
    requires ValidCase(c) && Shaped(report) && ScheduleWellFormed(report.schedule)
    requires CoordinatesAgree(c.sc, c.q, report.schedule) && c.q.scheduleSeed <= MAX_SCHEDULE_SEED
    requires report.schedule.failure.Some? ==> report.schedule.failure.value.code != ""
    ensures ConstructResult2(codec, c.sc, report).Some?
    ensures var result := ConstructResult2(codec, c.sc, report).value;
            && Genuine(codec, c, Native(result, report.schedule))
            && result.head.classification == report.classification && result.head.failure == report.schedule.failure
  {
    hide ScheduleWellFormed, ConstructResult2, IdentityOf, HeadAccepted;
    ReportConstructs(codec, c.sc, c.q, report);
  }

  lemma FailureIsAuthoritative(report: Report, e: Error)
    requires ScheduleWellFormed(report.schedule) && NamesFailure(report, e) && Shaped(report) && report.classification == FAILURE
    ensures Authoritative(report, e) && (!e.GeneratorFailed? ==> report.schedule.failure.value.code != "")
    ensures !e.GeneratorFailed? ==> (e.InvariantViolation? <==> report.schedule.failure.value.code == "InvariantViolation")
  {
  }

  /** Whatever the engine returns is genuine, and an invariant violation exactly when its code says so. */
  lemma NativeIsGenuine(codec: Codec, c: PlannedCase)
    requires ValidCase(c)
    ensures Engine(codec, c, ExecuteNative(codec, c))
    ensures ExecuteActors(c.w, c.sc, c.q, None).Finished? ==> ExecuteNative(codec, c).Completed?
    ensures ExecuteActors(c.w, c.sc, c.q, None).Broken? ==> ExecuteNative(codec, c).RaisedByPlugin? || ExecuteNative(codec, c).FailedNatively?
  {
    hide ExecuteActors, ScheduleWellFormed, ConstructResult2, Shaped, NamesFailure, Authoritative, Genuine, ValidCase, CoordinatesAgree;
    ReportShape(c.w, c.sc, c.q) by { assert ValidScenario(c.sc) by { CaseScenario(c); } }
    match ExecuteActors(c.w, c.sc, c.q, None)
    case Finished(report) => ConstructedGenuine(codec, c, report);
    case Broken(e, report) =>
      if !e.GeneratorFailed? {
        FailureIsAuthoritative(report, e);
        ConstructedGenuine(codec, c, report);
      }
    case _ =>
  }

  lemma CaseScenario(c: PlannedCase)
    requires ValidCase(c)
    ensures ValidScenario(c.sc)
  {
  }

  // ---------------------------------------------------------------- classification

  /** `_execute_case`: the executor's status, and the child when there is one. */
  function ExecuteCase(expectation: Expectation, e: Executed): (Option<Native>, Status) {
    match e
    case Completed(native) => (Some(native), if expectation.classification == Classification.SUCCESS then Status.SUCCESS else UNEXPECTED_FAILURE)
    case RaisedByPlugin => (None, ERROR)
    case FailedInternally => (None, ERROR)
    case FailedNatively(native, violation) =>
      var code := CodeIn(native.result.head.failure);
      var expected := violation && expectation.classification == FAILURE
                      && expectation.code == code && code.Some? && code.value in EXPECTED_FAILURE_CODES;
      (Some(native), if expected then EXPECTED_FAILURE else UNEXPECTED_FAILURE)
  }

  function CodeIn(failure: Option<FailureRecord>): Option<string> {
    if failure.Some? then Some(failure.value.code) else None
  }

  /** `_completed_status`: the status the outcome's constructor and the reader require. */
  function CompletedStatus(expectation: Expectation, observed: Observed): Status {
    if observed.classification == Some(Classification.SUCCESS) && expectation.classification == Classification.SUCCESS then Status.SUCCESS
    else if observed.classification == Some(FAILURE) && expectation.classification == FAILURE
            && observed.code == expectation.code && observed.code.Some? && observed.code.value in EXPECTED_FAILURE_CODES
    then EXPECTED_FAILURE
    else UNEXPECTED_FAILURE
  }

  function ObservedOf(native: Native): Observed {
    Observed(Some(native.result.head.classification), CodeIn(native.result.head.failure))
  }

  /** The executor, which looks at the exception's class, and the constructors, which look at the recorded
      code, agree on the status of every case that has evidence. */
  lemma StatusesAlwaysAgree(codec: Codec, c: PlannedCase)
    requires ValidCase(c) && ExecuteCase(c.expectation, ExecuteNative(codec, c)).0.Some?
    ensures ExecuteCase(c.expectation, ExecuteNative(codec, c)).1
         == CompletedStatus(c.expectation, ObservedOf(ExecuteNative(codec, c).native))
  {
    hide ExecuteNative, Genuine;
    NativeIsGenuine(codec, c);
    var e := ExecuteNative(codec, c);
    assert HeadAccepted(e.native.result.head) by { GenuineHead(codec, c, e.native); }
  }

  lemma GenuineHead(codec: Codec, c: PlannedCase, native: Native)
    requires Genuine(codec, c, native)
    ensures HeadAccepted(native.result.head) && |native.schedule.records| <= MAX_CASE_SELECTIONS
  {
  }

  // ---------------------------------------------------------------- accounting

  function PartContent(codec: Codec, native: Native, part: Part): Content {
    match part
    case MANIFEST => ManifestContent(native.result)
    case RESULT => ResultContent(codec, native.result)
    case SCHEDULE => OfSchedule(native.schedule)
  }

  function Bytes(codec: Codec, native: Native, part: Part): string {
    BytesOf(codec, PartContent(codec, native, part))
  }

  function ChildBytes(codec: Codec, native: Native): nat {
    |Bytes(codec, native, MANIFEST)| + |Bytes(codec, native, RESULT)| + |Bytes(codec, native, SCHEDULE)|
  }

  function ReferenceTo(codec: Codec, native: Native, part: Part): Reference {
    var data := Bytes(codec, native, part);
    Reference(IdentityOf(codec, PartContent(codec, native, part)), codec.sha(data), |data|)
  }

  function ReferencesOf(codec: Codec, native: Native): References {
    References(ReferenceTo(codec, native, MANIFEST), ReferenceTo(codec, native, RESULT), ReferenceTo(codec, native, SCHEDULE))
  }

  datatype Account = Account(retained: nat, selections: nat)

  /** The retention decision for one case under a running account. */
  predicate Fits(codec: Codec, account: Account, native: Native) {
    && |native.schedule.records| <= MAX_CASE_SELECTIONS
    && account.selections + |native.schedule.records| <= MAX_TOTAL_SELECTIONS
    && account.retained + ChildBytes(codec, native) <= MAX_RETAINED_CHILD_BYTES
  }

  function Added(codec: Codec, account: Account, native: Native): Account {
    Account(account.retained + ChildBytes(codec, native), account.selections + |native.schedule.records|)
  }

  /** The case refers to native evidence and carries it. */
  predicate Carries(c: CaseOutcome) {
    c.native.Some? && c.child.Some?
  }

  /** The children kept in a list of outcomes, in order. */
  function Kept(cases: seq<CaseOutcome>): seq<Native> {
    if cases == [] then []
    else Kept(cases[..|cases| - 1]) + if Carries(cases[|cases| - 1]) then [cases[|cases| - 1].child.value] else []
  }

  /** The byte and selection totals of a list of children. */
  function Totals(codec: Codec, children: seq<Native>): Account {
    if children == [] then Account(0, 0)
    else Added(codec, Totals(codec, children[..|children| - 1]), children[|children| - 1])
  }

  lemma {:induction false} TotalsGrow(codec: Codec, children: seq<Native>, i: nat)
    requires i <= |children|
    ensures Totals(codec, children[..i]).retained <= Totals(codec, children).retained
    ensures Totals(codec, children[..i]).selections <= Totals(codec, children).selections
    decreases |children| - i
  {
    if i < |children| {
      TotalsGrow(codec, children, i + 1);
      assert children[..i + 1][..i] == children[..i];
    } else {
      assert children[..i] == children;
    }
  }

  function CountOf(cases: seq<CaseOutcome>, status: Status): nat {
    if cases == [] then 0 else (if cases[0].status == status then 1 else 0) + CountOf(cases[1..], status)
  }

  datatype Counts = Counts(error: nat, expectedFailure: nat, success: nat, total: nat, unexpectedFailure: nat)

  function CountsOf(cases: seq<CaseOutcome>): Counts {
    Counts(CountOf(cases, ERROR), CountOf(cases, EXPECTED_FAILURE), CountOf(cases, Status.SUCCESS), |cases|, CountOf(cases, UNEXPECTED_FAILURE))
  }

  /** The four status counts partition the plan. */
  lemma {:induction false} CountsPartition(cases: seq<CaseOutcome>)
    ensures var c := CountsOf(cases); c.error + c.expectedFailure + c.success + c.unexpectedFailure == c.total
    decreases |cases|
  {
    if cases != [] { CountsPartition(cases[1..]); }
  }

  datatype Suite = Suite(cases: seq<CaseOutcome>, counts: Counts, overall: Classification)

  function OverallOf(counts: Counts): Classification {
    if counts.unexpectedFailure == 0 && counts.error == 0 then Classification.SUCCESS else FAILURE
  }

  // ---------------------------------------------------------------- the checks of the outcome constructors

  /** `Engine2CaseOutcome.__post_init__`. */
  predicate CaseAccepted(c: CaseOutcome) {
    if c.status == ERROR then c.native == None && c.observed.classification == None
    else c.native.Some? && c.observed.classification.Some? && c.status == CompletedStatus(c.expectation, c.observed)
  }

  /** The retained bytes a suite claims. */
  function Claimed(cases: seq<CaseOutcome>): nat {
    if cases == [] then 0
    else
      var last := cases[|cases| - 1];
      Claimed(cases[..|cases| - 1])
      + if last.native.Some? then last.native.value.manifest.size + last.native.value.result.size + last.native.value.schedule.size else 0
  }

  /** `Engine2SuiteOutcome.__post_init__`, against the plan's identities. */
  predicate SuiteAccepted(identities: seq<string>, s: Suite) {
    && |s.cases| == |identities| && (forall i :: 0 <= i < |s.cases| ==> s.cases[i].identity == identities[i])
    && (forall i :: 0 <= i < |s.cases| ==> CaseAccepted(s.cases[i]))
    && Claimed(s.cases) <= MAX_RETAINED_CHILD_BYTES
    && s.counts == CountsOf(s.cases)
    && s.overall == OverallOf(s.counts)
  }

  // ---------------------------------------------------------------- execution

  function Identities(plan: seq<PlannedCase>): (ids: seq<string>)
    ensures |ids| == |plan| && forall i :: 0 <= i < |ids| ==> ids[i] == plan[i].identity
  {
    seq(|plan|, i requires 0 <= i < |plan| => plan[i].identity)
  }

  /** The outcome the executor records for one case under the account of the cases before it. */
  function Outcome(codec: Codec, account: Account, c: PlannedCase): CaseOutcome {
    var coordinates := ManifestFor(c.sc, c.q);
    match ExecuteCase(c.expectation, ExecuteNative(codec, c))
    case (None, status) => CaseOutcome(c.identity, c.expectation, coordinates, status, Observed(None, None), None, None)
    case (Some(native), status) =>
      if !Fits(codec, account, native) then
        CaseOutcome(c.identity, c.expectation, coordinates, ERROR, Observed(None, None), None, None)
      else
        CaseOutcome(c.identity, c.expectation, coordinates, status, ObservedOf(native), Some(ReferencesOf(codec, native)), Some(native))
  }

  /** The outcomes record the executions in plan order, each under the totals of the earlier ones. */
  ghost predicate Recorded(codec: Codec, plan: seq<PlannedCase>, cases: seq<CaseOutcome>) {
    && |cases| <= |plan|
    && (forall i :: 0 <= i < |cases| ==> cases[i] == Outcome(codec, Totals(codec, Kept(cases[..i])), plan[i]))
  }

  /** A whole suite: every case recorded, counted and summed up. */
  ghost predicate SuiteOf(codec: Codec, plan: seq<PlannedCase>, s: Suite) {
    && Recorded(codec, plan, s.cases) && |s.cases| == |plan|
    && s.counts == CountsOf(s.cases) && s.overall == OverallOf(s.counts)
  }

  ghost predicate ValidPlan(plan: seq<PlannedCase>) {
    forall i :: 0 <= i < |plan| ==> ValidCase(plan[i])
  }

  /** `execute_engine2_suite`; the outcome constructors never refuse a case. */
  method ExecuteSuite(codec: Codec, plan: seq<PlannedCase>) returns (suite: Suite)
    requires ValidPlan(plan)
    ensures SuiteOf(codec, plan, suite)
    ensures SuiteAccepted(Identities(plan), suite)
  {
    hide Totals, Kept, Fits, CompletedStatus, Outcome, Recorded, ValidCase, Genuine, CaseAccepted, SuiteAccepted;
    var account := Account(0, 0);
    var outcomes: seq<CaseOutcome> := [];
    NothingKept(codec);
    NothingRecorded(codec, plan);
    for i := 0 to |plan|
      invariant |outcomes| == i && Recorded(codec, plan, outcomes)
      invariant account == Totals(codec, Kept(outcomes)) && WithinBounds(account)
    {
      var c := Outcome(codec, account, plan[i]);
      OutcomeSound(codec, account, plan[i]);
      KeptNext(codec, outcomes, c);
      RecordedNext(codec, plan, outcomes, c);
      if c.child.Some? { account := Added(codec, account, c.child.value); }
      outcomes := outcomes + [c];
    }
    var counts := CountsOf(outcomes);
    suite := Suite(outcomes, counts, OverallOf(counts));
    RecordedAccepted(codec, plan, suite);
  }

  lemma NothingRecorded(codec: Codec, plan: seq<PlannedCase>)
    ensures Recorded(codec, plan, [])
  {
  }

  predicate WithinBounds(account: Account) {
    account.retained <= MAX_RETAINED_CHILD_BYTES && account.selections <= MAX_TOTAL_SELECTIONS
  }

  /** A recorded case passes its constructor, and its references and observation are those of its child,
      which is as the engine left it. */
  predicate Sound(codec: Codec, planned: PlannedCase, c: CaseOutcome) {
    && CaseAccepted(c)
    && c.identity == planned.identity && c.coordinates == ManifestFor(planned.sc, planned.q)
    && (c.native.Some? <==> c.child.Some?)
    && (c.child.Some? ==>
          && c.native == Some(ReferencesOf(codec, c.child.value)) && c.observed == ObservedOf(c.child.value)
          && Genuine(codec, planned, c.child.value))
  }

  lemma OutcomeSound(codec: Codec, account: Account, planned: PlannedCase)
    requires ValidCase(planned) && WithinBounds(account)
    ensures var c := Outcome(codec, account, planned);
            && Sound(codec, planned, c)
            && (c.child.Some? ==> WithinBounds(Added(codec, account, c.child.value)))
  {
    hide ChildBytes, ExecuteNative, Genuine, CompletedStatus, ValidCase;
    NativeIsGenuine(codec, planned);
    if ExecuteCase(planned.expectation, ExecuteNative(codec, planned)).0.Some? { StatusesAlwaysAgree(codec, planned); }
    NeverError(planned.expectation, ExecuteNative(codec, planned));
  }

  lemma NeverError(expectation: Expectation, e: Executed)
    ensures ExecuteCase(expectation, e).0.Some? <==> ExecuteCase(expectation, e).1 != ERROR
  {
  }

  lemma NothingKept(codec: Codec)
    ensures Kept([]) == [] && Totals(codec, Kept([])) == Account(0, 0)
  {
  }

  lemma KeptNext(codec: Codec, cases: seq<CaseOutcome>, c: CaseOutcome)
    ensures Kept(cases + [c]) == Kept(cases) + if Carries(c) then [c.child.value] else []
    ensures Totals(codec, Kept(cases + [c]))
         == if Carries(c) then Added(codec, Totals(codec, Kept(cases)), c.child.value) else Totals(codec, Kept(cases))
  {
    assert (cases + [c])[..|cases|] == cases;
    if Carries(c) {
      assert (Kept(cases) + [c.child.value])[..|Kept(cases)|] == Kept(cases);
    } else {
      assert Kept(cases + [c]) == Kept(cases);
    }
  }

  lemma RecordedNext(codec: Codec, plan: seq<PlannedCase>, cases: seq<CaseOutcome>, c: CaseOutcome)
    requires |cases| < |plan| && Recorded(codec, plan, cases)
    requires c == Outcome(codec, Totals(codec, Kept(cases)), plan[|cases|])
    ensures Recorded(codec, plan, cases + [c])
  {
    hide Outcome, Totals, Kept;
    var next := cases + [c];
    assert next[..|cases|] == cases;
    forall i | 0 <= i < |cases| ensures next[..i] == cases[..i] {}
  }

  /** The running totals of a recorded suite stay within bounds, and every case is sound. */
  lemma {:induction false} RecordedSound(codec: Codec, plan: seq<PlannedCase>, cases: seq<CaseOutcome>, n: nat)
    requires ValidPlan(plan) && Recorded(codec, plan, cases) && n <= |cases|
    ensures WithinBounds(Totals(codec, Kept(cases[..n])))
    ensures forall i :: 0 <= i < n ==> Sound(codec, plan[i], cases[i])
  {
    hide Outcome, Totals, Kept, Sound, ValidCase;
    if n == 0 {
      NothingKept(codec);
      assert cases[..0] == [];
    } else {
      RecordedSound(codec, plan, cases, n - 1);
      var before, c := cases[..n - 1], cases[n - 1];
      OutcomeSound(codec, Totals(codec, Kept(before)), plan[n - 1]);
      KeptNext(codec, before, c);
      SoundCarries(codec, plan[n - 1], c);
      assert cases[..n] == before + [c];
    }
  }

  lemma SoundCarries(codec: Codec, planned: PlannedCase, c: CaseOutcome)
    requires Sound(codec, planned, c)
    ensures c.child.Some? <==> Carries(c)
  {
  }

  lemma {:induction false} ClaimedIsTotal(codec: Codec, plan: seq<PlannedCase>, cases: seq<CaseOutcome>)
    requires |cases| <= |plan| && forall i :: 0 <= i < |cases| ==> Sound(codec, plan[i], cases[i])
    ensures Claimed(cases) == Totals(codec, Kept(cases)).retained
    decreases |cases|
  {
    if cases != [] {
      var front, last := cases[..|cases| - 1], cases[|cases| - 1];
      ClaimedIsTotal(codec, plan, front);
      assert cases == front + [last];
      KeptNext(codec, front, last);
      assert Sound(codec, plan[|front|], last);
    }
  }

  /** A recorded suite passes every check of the suite's constructor. */
  lemma RecordedAccepted(codec: Codec, plan: seq<PlannedCase>, s: Suite)
    requires ValidPlan(plan) && SuiteOf(codec, plan, s)
    ensures SuiteAccepted(Identities(plan), s) && WithinBounds(Totals(codec, Kept(s.cases)))
  {
    hide Totals, Kept, Outcome, Recorded, Claimed, Genuine;
    RecordedSound(codec, plan, s.cases, |plan|);
    assert s.cases[..|plan|] == s.cases;
    ClaimedIsTotal(codec, plan, s.cases);
    forall i | 0 <= i < |s.cases| ensures CaseAccepted(s.cases[i]) && s.cases[i].identity == plan[i].identity {
      assert Sound(codec, plan[i], s.cases[i]);
    }
  }

  // ---------------------------------------------------------------- verification

  /** The three children of a case, read back. */
  datatype Reading = Reading(manifest: Manifest, result: ResultOf<Value>, schedule: Schedule)

  function ReadChild(codec: Codec, native: Native): Option<Reading> {
    match ReadManifest(codec, Bytes(codec, native, MANIFEST))
    case None => None
    case Some(manifest) =>
      match ReadResult2(codec, Bytes(codec, native, RESULT))
      case None => None
      case Some(result) =>
        match ReadSchedule(codec, Bytes(codec, native, SCHEDULE))
        case None => None
        case Some(schedule) => Some(Reading(manifest, result, schedule))
  }

  /** The identities of what was read are the referenced ones. */
  predicate SameIdentities(codec: Codec, a: References, r: Reading) {
    && IdentityOf(codec, OfManifest(r.manifest)) == a.manifest.identity
    && IdentityOf(codec, ResultContent(codec, r.result)) == a.result.identity
    && IdentityOf(codec, OfSchedule(r.schedule)) == a.schedule.identity
  }

  /** The coordinate and failure links between request, manifest, result and schedule. */
  predicate Linked(codec: Codec, request: Manifest, r: Reading) {
    var m, h, s := r.manifest, r.result.head, r.schedule;
    && h.manifest == m && request == m
    && m.hash == s.hash && m.resources == s.resources && m.rootSeed == s.execution.rootSeed && m.scheduleSeed == s.seed
    && m.run == s.run && m.start == s.execution.start && m.generators == s.execution.generators
    && h.scheduleHash == IdentityOf(codec, OfSchedule(s)) && h.referencedScenario == s.hash
    && h.classification == s.classification && CodeIn(h.failure) == CodeIn(s.failure)
  }

  /** The canonical bytes of all parts of the children. */
  function Encodings(codec: Codec, children: seq<Native>): set<string> {
    if children == [] then {}
    else
      var last := children[|children| - 1];
      Encodings(codec, children[..|children| - 1])
      + {Bytes(codec, last, MANIFEST), Bytes(codec, last, RESULT), Bytes(codec, last, SCHEDULE)}
  }

  /** No two different byte strings share a digest. */
  predicate CollisionFree(codec: Codec, blobs: set<string>) {
    forall a, b :: a in blobs && b in blobs && codec.sha(a) == codec.sha(b) ==> a == b
  }

  /** What the verifier checks on what it read of one case. */
  predicate Checked(codec: Codec, c: CaseOutcome, r: Reading)
    requires c.native.Some?
  {
    && SameIdentities(codec, c.native.value, r) && Linked(codec, c.coordinates, r)
    && c.observed == Observed(Some(r.result.head.classification), CodeIn(r.result.head.failure))
    && |r.schedule.records| <= MAX_CASE_SELECTIONS
  }

  /** What the verifier checks on one case with its child. */
  predicate CaseVerified(codec: Codec, c: CaseOutcome)
    requires Carries(c)
  {
    && SameBytes(c.native.value, ReferencesOf(codec, c.child.value))
    && ReadChild(codec, c.child.value).Some? && Checked(codec, c, ReadChild(codec, c.child.value).value)
  }

  /** The digests seen so far are exactly those of `blobs`, each with its own bytes. */
  predicate Seen(codec: Codec, seen: map<string, string>, blobs: set<string>) {
    && (forall b :: b in blobs ==> codec.sha(b) in seen && seen[codec.sha(b)] == b)
    && forall d :: d in seen ==> seen[d] in blobs && codec.sha(seen[d]) == d
  }

  ghost predicate AllVerified(codec: Codec, cases: seq<CaseOutcome>) {
    forall i :: 0 <= i < |cases| && cases[i].native.Some? ==> Carries(cases[i]) && CaseVerified(codec, cases[i])
  }

  /** What `verify_engine2_suite` accepts when the suite carries its own children. */
  ghost predicate Verifiable(codec: Codec, identities: seq<string>, s: Suite) {
    && SuiteAccepted(identities, s)
    && AllVerified(codec, s.cases)
    && WithinBounds(Totals(codec, Kept(s.cases)))
    && CollisionFree(codec, Encodings(codec, Kept(s.cases)))
  }

  /** One child part: the running byte bound, the digest table and the reference. */
  method AddPart(codec: Codec, retained: nat, seen: map<string, string>, data: string, reference: Reference, ghost blobs: set<string>)
    returns (ok: bool, total: nat, digests: map<string, string>)
    requires Seen(codec, seen, blobs) && CollisionFree(codec, blobs)
    ensures total == retained + |data|
    ensures ok <==> total <= MAX_RETAINED_CHILD_BYTES && CollisionFree(codec, blobs + {data})
                    && reference.size == |data| && reference.sha == codec.sha(data)
    ensures ok ==> Seen(codec, digests, blobs + {data})
  {
    total, digests := retained + |data|, seen;
    var digest := codec.sha(data);
    if total > MAX_RETAINED_CHILD_BYTES { return false, total, seen; }
    if digest in seen && seen[digest] != data {
      assert seen[digest] in blobs + {data} && data in blobs + {data};
      return false, total, seen;
    }
    forall b | b in blobs && codec.sha(b) == digest ensures b == data {}
    digests := seen[digest := data];
    ok := reference.size == |data| && reference.sha == digest;
  }

  lemma CollisionFreeBelow(codec: Codec, a: set<string>, b: set<string>)
    requires a <= b && CollisionFree(codec, b)
    ensures CollisionFree(codec, a)
  {
  }

  /** The three parts of one child, in turn. */
  method AddChild(codec: Codec, retained: nat, seen: map<string, string>, c: CaseOutcome, ghost blobs: set<string>)
    returns (ok: bool, total: nat, digests: map<string, string>)
    requires Carries(c) && Seen(codec, seen, blobs) && CollisionFree(codec, blobs)
    ensures ok ==> total == retained + ChildBytes(codec, c.child.value) && Seen(codec, digests, blobs + Parts(codec, c.child.value))
    ensures ok <==>
              && retained + ChildBytes(codec, c.child.value) <= MAX_RETAINED_CHILD_BYTES
              && CollisionFree(codec, blobs + Parts(codec, c.child.value))
              && SameBytes(c.native.value, ReferencesOf(codec, c.child.value))
  {
    hide CollisionFree, Seen;
    var child, refs := c.child.value, c.native.value;
    var m, r, s := Bytes(codec, child, MANIFEST), Bytes(codec, child, RESULT), Bytes(codec, child, SCHEDULE);
    ghost var all := blobs + Parts(codec, child);
    assert blobs + {m} + {r} + {s} == all;
    if CollisionFree(codec, all) {
      CollisionFreeBelow(codec, blobs + {m}, all);
      CollisionFreeBelow(codec, blobs + {m} + {r}, all);
    }
    ok, total, digests := AddPart(codec, retained, seen, m, refs.manifest, blobs);
    if !ok { return; }
    ok, total, digests := AddPart(codec, total, digests, r, refs.result, blobs + {m});
    if !ok { return; }
    ok, total, digests := AddPart(codec, total, digests, s, refs.schedule, blobs + {m} + {r});
  }

  function Parts(codec: Codec, native: Native): set<string> {
    {Bytes(codec, native, MANIFEST), Bytes(codec, native, RESULT), Bytes(codec, native, SCHEDULE)}
  }

  predicate SameBytes(a: References, b: References) {
    && a.manifest.sha == b.manifest.sha && a.manifest.size == b.manifest.size
    && a.result.sha == b.result.sha && a.result.size == b.result.size
    && a.schedule.sha == b.schedule.sha && a.schedule.size == b.schedule.size
  }

  /** `verify_engine2_suite` with the suite's own children. */
  method Verify(codec: Codec, identities: seq<string>, s: Suite) returns (accepted: bool)
    requires Strict(codec)
    ensures accepted <==> Verifiable(codec, identities, s)
  {
    hide SuiteAccepted, Seen, CollisionFree, Encodings, Totals, Kept, ChildBytes, AllVerified, ReadChild, Checked, SameBytes, Strict;
    if !SuiteAccepted(identities, s) { return false; }
    var account, seen := Account(0, 0), map[];
    NothingKept(codec);
    NothingSeen(codec);
    for i := 0 to |s.cases|
      invariant account == Totals(codec, Kept(s.cases[..i])) && WithinBounds(account)
      invariant AllVerified(codec, s.cases[..i])
      invariant Seen(codec, seen, Encodings(codec, Kept(s.cases[..i]))) && CollisionFree(codec, Encodings(codec, Kept(s.cases[..i])))
    {
      var c := s.cases[i];
      assert s.cases[..i + 1] == s.cases[..i] + [c];
      KeptNext(codec, s.cases[..i], c);
      VerifiedNext(codec, s.cases[..i], c);
      WholeAtLeast(codec, identities, s, i + 1);
      if c.native.Some? {
        if c.child == None { return false; }
        EncodingsNext(codec, Kept(s.cases[..i]), c.child.value);
        var ok, retained, digests := AddChild(codec, account.retained, seen, c, Encodings(codec, Kept(s.cases[..i])));
        if !ok { return false; }
        var reading := ReadChild(codec, c.child.value);
        if reading == None { return false; }
        ScheduleRead(codec, c.child.value);
        if !Checked(codec, c, reading.value) { return false; }
        account, seen := Account(retained, account.selections + |reading.value.schedule.records|), digests;
        if account.selections > MAX_TOTAL_SELECTIONS { return false; }
      } else {
        assert Kept(s.cases[..i + 1]) == Kept(s.cases[..i]);
      }
    }
    assert s.cases[..|s.cases|] == s.cases;
    accepted := true;
  }

  /** The schedule that is read back is the child's own. */
  lemma ScheduleRead(codec: Codec, native: Native)
    requires Strict(codec) && ReadChild(codec, native).Some?
    ensures ReadChild(codec, native).value.schedule == native.schedule
  {
    hide BytesOf, ReadResult2, ReadManifest, ScheduleWellFormed;
    BytesDetermine(codec, OfSchedule(ReadChild(codec, native).value.schedule), OfSchedule(native.schedule));
  }

  lemma NothingSeen(codec: Codec)
    ensures Encodings(codec, Kept([])) == {} && Seen(codec, map[], {}) && CollisionFree(codec, {}) && AllVerified(codec, [])
  {
  }

  lemma EncodingsNext(codec: Codec, children: seq<Native>, child: Native)
    ensures Encodings(codec, children + [child]) == Encodings(codec, children) + Parts(codec, child)
  {
    assert (children + [child])[..|children|] == children;
  }

  lemma VerifiedNext(codec: Codec, cases: seq<CaseOutcome>, c: CaseOutcome)
    ensures AllVerified(codec, cases + [c]) <==>
              AllVerified(codec, cases) && (c.native.Some? ==> Carries(c) && CaseVerified(codec, c))
  {
    hide CaseVerified;
    var all := cases + [c];
    assert all[|cases|] == c && forall i :: 0 <= i < |cases| ==> all[i] == cases[i];
  }

  /** If the whole suite is verifiable then so is every prefix of its cases. */
  lemma WholeAtLeast(codec: Codec, identities: seq<string>, s: Suite, i: nat)
    requires i <= |s.cases|
    ensures Verifiable(codec, identities, s) ==>
              && AllVerified(codec, s.cases[..i]) && WithinBounds(Totals(codec, Kept(s.cases[..i])))
              && CollisionFree(codec, Encodings(codec, Kept(s.cases[..i])))
  {
    hide SuiteAccepted, CaseVerified, Totals, Encodings, Kept;
    if Verifiable(codec, identities, s) {
      KeptPrefix(s.cases, i);
      assert Kept(s.cases)[..|Kept(s.cases[..i])|] == Kept(s.cases[..i]);
      TotalsGrow(codec, Kept(s.cases), |Kept(s.cases[..i])|);
      EncodingsGrow(codec, Kept(s.cases), |Kept(s.cases[..i])|);
      CollisionFreeBelow(codec, Encodings(codec, Kept(s.cases[..i])), Encodings(codec, Kept(s.cases)));
    }
  }

  lemma {:induction false} KeptPrefix(cases: seq<CaseOutcome>, i: nat)
    requires i <= |cases|
    ensures Kept(cases[..i]) <= Kept(cases)
    decreases |cases| - i
  {
    if i < |cases| {
      KeptPrefix(cases, i + 1);
      assert cases[..i + 1][..i] == cases[..i];
    } else {
      assert cases[..i] == cases;
    }
  }

  lemma {:induction false} EncodingsGrow(codec: Codec, children: seq<Native>, i: nat)
    requires i <= |children|
    ensures Encodings(codec, children[..i]) <= Encodings(codec, children)
    decreases |children| - i
  {
    if i < |children| {
      EncodingsGrow(codec, children, i + 1);
      assert children[..i + 1][..i] == children[..i];
    } else {
      assert children[..i] == children;
    }
  }

  /** Reading a genuine child back succeeds exactly when the values in its result can be read back, and
      then passes every check. */
  lemma GenuineVerified(codec: Codec, planned: PlannedCase, c: CaseOutcome)
    requires Strict(codec) && Sound(codec, planned, c) && c.child.Some?
    ensures Carries(c) && (CaseVerified(codec, c) <==> ResultRestorable(codec.formats, c.child.value.result))
  {
    hide BytesOf, IdentityOf, ScheduleWellFormed, HeadAccepted, ResultRestorable, Written, Strict, CaseAccepted, ReadManifest, ReadResult2, ReadSchedule;
    var native := c.child.value;
    ManifestReadsBack(codec, native.result.head.manifest) by { HeadManifest(native.result.head); }
    ResultReadsBack(codec, native.result);
    ScheduleReadsBack(codec, native.schedule);
    GenuineHead(codec, planned, native);
  }

  lemma HeadManifest(h: ResultHead)
    requires HeadAccepted(h)
    ensures ManifestAccepted(h.manifest)
  {
  }

  /** The state, patches and artifact values of every retained child can be read back. */
  ghost predicate AllRestorable(codec: Codec, cases: seq<CaseOutcome>) {
    forall i :: 0 <= i < |cases| && cases[i].child.Some? ==> ResultRestorable(codec.formats, cases[i].child.value.result)
  }

  /** Whatever the executor returns passes every constructor check, and the verifier accepts it with its own
      children exactly when each retained child can be read back and no two different ones collide. */
  lemma ExecutedSuitesVerify(codec: Codec, plan: seq<PlannedCase>, s: Suite)
    requires Strict(codec) && ValidPlan(plan) && SuiteOf(codec, plan, s)
    ensures SuiteAccepted(Identities(plan), s) && WithinBounds(Totals(codec, Kept(s.cases)))
    ensures Verifiable(codec, Identities(plan), s) <==> AllRestorable(codec, s.cases) && CollisionFree(codec, Encodings(codec, Kept(s.cases)))
  {
    hide CollisionFree, Encodings, Totals, Kept, Outcome, Recorded, Sound, SuiteAccepted, ResultRestorable, CaseVerified, Strict, ValidCase;
    RecordedAccepted(codec, plan, s);
    RecordedSound(codec, plan, s.cases, |plan|);
    forall i | 0 <= i < |s.cases|
      ensures s.cases[i].native.Some? <==> s.cases[i].child.Some?
      ensures s.cases[i].child.Some? ==>
                Carries(s.cases[i]) && (CaseVerified(codec, s.cases[i]) <==> ResultRestorable(codec.formats, s.cases[i].child.value.result))
    {
      SoundPairs(codec, plan[i], s.cases[i]);
      if s.cases[i].child.Some? { GenuineVerified(codec, plan[i], s.cases[i]); }
    }
  }

  lemma SoundPairs(codec: Codec, planned: PlannedCase, c: CaseOutcome)
    requires Sound(codec, planned, c)
    ensures c.native.Some? <==> c.child.Some?
  {
  }
}
