/** What a suite's evidence means, stated without the functions that build it: what a result shows of
    its run, which status and child a case gets, what the counts and the overall classification are,
    and what acceptance says of every case. */
module SuiteMeaning {
  import opened Values
  import opened Steps
  import opened Actors
  import opened Results
  import opened Suites

  // ---------------------------------------------------------------- results

  /** One entry shows one history record: who, where, when, and the patch between the two fingerprints. */
  predicate EntryShows(codec: Codec, h: HistoryRecord, e: Entry<Value>) {
    && e.head.actor == codec.actor(h.address) && e.head.address == codec.address(h.address)
    && e.head.before == h.before && e.head.after == h.after && e.head.timestamp == h.timestamp
    && e.head.emitted == h.emitted && e.head.transition == h.transition && e.patch == Dict(h.patch)
    && (h.faults == None ==> e.head.faults == []) && (h.faults.Some? ==> e.head.faults == h.faults.value)
  }

  predicate ProductShows(codec: Codec, a: Artifact, p: Product<Value>) {
    && p.head.actor == codec.actor(a.address) && p.head.address == codec.address(a.address)
    && p.head.id == a.logicalId && p.head.kind == a.kind && p.value == a.value
  }

  /** The result shows the report: its coordinates, its schedule's hash and failure, the final state and
      clock, every history record and every artifact, in order. */
  predicate Shows(codec: Codec, sc: Scenario, report: Report, r: ResultOf<Value>) {
    var h, m, s := r.head, r.head.manifest, report.schedule;
    && m.hash == sc.hash && m.generators == sc.generators && h.scenarioId == sc.id
    && m.rootSeed == s.execution.rootSeed && m.scheduleSeed == s.seed && m.resources == s.resources
    && m.start == s.execution.start && m.run == s.run
    && h.scheduleHash == IdentityOf(codec, OfSchedule(s)) && h.referencedScenario == s.hash
    && h.classification == report.classification && h.failure == s.failure && h.clock == report.clock && h.actors == report.actors
    && r.state == Dict(report.state)
    && |r.history| == |report.history| && (forall i :: 0 <= i < |r.history| ==> EntryShows(codec, report.history[i], r.history[i]))
    && |r.artifacts| == |report.artifacts| && (forall i :: 0 <= i < |r.artifacts| ==> ProductShows(codec, report.artifacts[i], r.artifacts[i]))
  }

  lemma ResultExactly(codec: Codec, sc: Scenario, report: Report, r: ResultOf<Value>)
    ensures ConstructResult2(codec, sc, report) == Some(r)
            <==> Shows(codec, sc, report, r) && report.schedule.hash == sc.hash && HeadAccepted(r.head)
  {
    hide HeadAccepted, IdentityOf;
    if Shows(codec, sc, report, r) {
      assert r.head == HeadOf(codec, sc, report);
      assert r.history == seq(|report.history|, i requires 0 <= i < |report.history| => EntryOf(codec, report.history[i]));
      assert r.artifacts == seq(|report.artifacts|, i requires 0 <= i < |report.artifacts| => ProductOf(codec, report.artifacts[i]));
    }
  }

  // ---------------------------------------------------------------- counts

  ghost function HavingFrom(cases: seq<CaseOutcome>, status: Status, from: nat): set<int> {
    set i | from <= i < |cases| && cases[i].status == status
  }

  /** The cases with a status. */
  ghost function Having(cases: seq<CaseOutcome>, status: Status): set<int> {
    HavingFrom(cases, status, 0)
  }

  lemma HavingStep(cases: seq<CaseOutcome>, status: Status, from: nat)
    requires from < |cases|
    ensures |HavingFrom(cases, status, from)| == |HavingFrom(cases, status, from + 1)| + if cases[from].status == status then 1 else 0
  {
    var rest := HavingFrom(cases, status, from + 1);
    assert HavingFrom(cases, status, from) == if cases[from].status == status then rest + {from} else rest;
  }

  lemma {:induction false} CountFrom(cases: seq<CaseOutcome>, status: Status, from: nat)
    requires from <= |cases|
    ensures CountOf(cases[from..], status) == |HavingFrom(cases, status, from)|
    decreases |cases| - from
  {
    hide HavingFrom;
    if from < |cases| {
      CountFrom(cases, status, from + 1);
      HavingStep(cases, status, from);
      assert cases[from..][1..] == cases[from + 1..];
    } else {
      HavingNone(cases, status);
    }
  }

  lemma HavingNone(cases: seq<CaseOutcome>, status: Status)
    ensures HavingFrom(cases, status, |cases|) == {}
  {
  }

  /** Each count is the number of cases with its status. */
  lemma CountsExactly(cases: seq<CaseOutcome>)
    ensures var c := CountsOf(cases);
            && c.success == |Having(cases, Status.SUCCESS)| && c.expectedFailure == |Having(cases, EXPECTED_FAILURE)|
            && c.unexpectedFailure == |Having(cases, UNEXPECTED_FAILURE)| && c.error == |Having(cases, ERROR)| && c.total == |cases|
  {
    assert cases[0..] == cases;
    CountFrom(cases, Status.SUCCESS, 0);
    CountFrom(cases, EXPECTED_FAILURE, 0);
    CountFrom(cases, UNEXPECTED_FAILURE, 0);
    CountFrom(cases, ERROR, 0);
  }

  /** A suite succeeds if and only if every case succeeds or fails as expected. */
  lemma OverallExactly(cases: seq<CaseOutcome>)
    ensures OverallOf(CountsOf(cases)) == Classification.SUCCESS
            <==> forall i :: 0 <= i < |cases| ==> cases[i].status == Status.SUCCESS || cases[i].status == EXPECTED_FAILURE
  {
    CountsExactly(cases);
    if i :| 0 <= i < |cases| && cases[i].status == UNEXPECTED_FAILURE { assert i in Having(cases, UNEXPECTED_FAILURE); }
    if i :| 0 <= i < |cases| && cases[i].status == ERROR { assert i in Having(cases, ERROR); }
    if forall i :: 0 <= i < |cases| ==> cases[i].status == Status.SUCCESS || cases[i].status == EXPECTED_FAILURE {
      assert Having(cases, UNEXPECTED_FAILURE) == {} && Having(cases, ERROR) == {};
    }
  }

  // ---------------------------------------------------------------- accounting

  /** A child takes up the bytes of its three documents and the selections of its schedule. */
  lemma TotalsNext(codec: Codec, children: seq<Native>, child: Native)
    ensures Totals(codec, []) == Account(0, 0)
    ensures Totals(codec, children + [child])
            == Account(Totals(codec, children).retained
                       + |BytesOf(codec, ManifestContent(child.result))| + |BytesOf(codec, ResultContent(codec, child.result))|
                       + |BytesOf(codec, OfSchedule(child.schedule))|,
                       Totals(codec, children).selections + |child.schedule.records|)
  {
    hide BytesOf, ManifestContent, ResultContent, ChildBytes;
    AddedTotals(codec, children, child);
    ChildParts(codec, child);
  }

  lemma AddedTotals(codec: Codec, children: seq<Native>, child: Native)
    ensures Totals(codec, children + [child]) == Added(codec, Totals(codec, children), child)
  {
    hide Added;
    assert (children + [child])[..|children|] == children;
  }

  lemma ChildParts(codec: Codec, child: Native)
    ensures ChildBytes(codec, child)
            == |BytesOf(codec, ManifestContent(child.result))| + |BytesOf(codec, ResultContent(codec, child.result))| + |BytesOf(codec, OfSchedule(child.schedule))|
  {
    hide BytesOf, ManifestContent, ResultContent;
  }

  /** A child fits when its own selections, all selections and all bytes stay within their bounds. */
  lemma FitsExactly(codec: Codec, account: Account, child: Native)
    ensures Fits(codec, account, child)
            <==> |child.schedule.records| <= 65536 && Added(codec, account, child).selections <= 262144
                 && Added(codec, account, child).retained <= 67108864
  {
  }

  // ---------------------------------------------------------------- cases

  /** A case has a status, and its evidence is kept exactly when that is not an error. */
  predicate Records(codec: Codec, c: PlannedCase, report: Report, status: Status, o: CaseOutcome) {
    && o.identity == c.identity && o.expectation == c.expectation && o.status == status
    && o.child.Some? && o.child.value.schedule == report.schedule && Shows(codec, c.sc, report, o.child.value.result)
    && o.observed == Observed(Some(report.classification), CodeIn(report.schedule.failure))
    && o.native == Some(References(ReferenceTo(codec, o.child.value, MANIFEST), ReferenceTo(codec, o.child.value, RESULT),
                                   ReferenceTo(codec, o.child.value, SCHEDULE)))
  }

  predicate RecordsError(c: PlannedCase, o: CaseOutcome) {
    && o.identity == c.identity && o.expectation == c.expectation && o.status == ERROR
    && o.child == None && o.native == None && o.observed == Observed(None, None)
  }

  /** Whether the evidence of this report would fit behind the earlier cases. */
  predicate ReportFits(codec: Codec, account: Account, c: PlannedCase, report: Report) {
    var result := ConstructResult2(codec, c.sc, report);
    result.Some? && Fits(codec, account, Native(result.value, report.schedule))
  }

  /** A run that finishes is a success exactly when one was expected; a run that breaks is an expected
      failure exactly when its error is the invariant violation that was expected; a generator error, a
      run without evidence and evidence that does not fit are errors. */
  ghost predicate CaseMeans(codec: Codec, account: Account, c: PlannedCase, o: CaseOutcome) {
    match ExecuteActors(c.w, c.sc, c.q, None)
    case Finished(report) =>
      if !ReportFits(codec, account, c, report) then RecordsError(c, o)
      else Records(codec, c, report, if c.expectation.classification == Classification.SUCCESS then Status.SUCCESS else UNEXPECTED_FAILURE, o)
    case Broken(e, report) =>
      if e.GeneratorFailed? || !ReportFits(codec, account, c, report) then RecordsError(c, o)
      else Records(codec, c, report, if e == InvariantViolation && c.expectation == Expectation(FAILURE, Some("InvariantViolation"))
                                     then EXPECTED_FAILURE else UNEXPECTED_FAILURE, o)
    case _ => RecordsError(c, o)
  }

  lemma CaseExactly(codec: Codec, account: Account, c: PlannedCase)
    requires ValidCase(c)
    ensures CaseMeans(codec, account, c, Outcome(codec, account, c))
    ensures Outcome(codec, account, c).coordinates == ManifestFor(c.sc, c.q)
  {
    hide ExecuteActors, ConstructResult2, Fits, ReferenceTo, ValidCase, Shows, Authoritative, Genuine;
    NativeIsGenuine(codec, c);
    match ExecuteActors(c.w, c.sc, c.q, None)
    case Finished(report) => RecordedResult(codec, c, report);
    case Broken(e, report) => BrokenCase(codec, account, c, e, report);
    case _ =>
  }

  lemma BrokenCase(codec: Codec, account: Account, c: PlannedCase, e: Error, report: Report)
    requires ValidCase(c) && ExecuteActors(c.w, c.sc, c.q, None) == Broken(e, report)
    requires ExecuteNative(codec, c).RaisedByPlugin? || ExecuteNative(codec, c).FailedNatively?
    ensures CaseMeans(codec, account, c, Outcome(codec, account, c))
  {
    hide ExecuteActors, ConstructResult2, Fits, ReferenceTo, ValidCase, Shows, Authoritative, Genuine;
    if ExecuteNative(codec, c).FailedNatively? {
      RecordedResult(codec, c, report);
      ExpectedCode(codec, c, e, report);
    }
  }

  lemma RecordedResult(codec: Codec, c: PlannedCase, report: Report)
    ensures var r := ConstructResult2(codec, c.sc, report);
            r.Some? ==> Shows(codec, c.sc, report, r.value) && r.value.head.classification == report.classification
                        && r.value.head.failure == report.schedule.failure
  {
    hide Shows;
    var r := ConstructResult2(codec, c.sc, report);
    if r.Some? { ResultExactly(codec, c.sc, report, r.value); }
  }

  /** The code a broken run records is that of its error. */
  lemma ExpectedCode(codec: Codec, c: PlannedCase, e: Error, report: Report)
    requires ValidCase(c) && ExecuteActors(c.w, c.sc, c.q, None) == Broken(e, report) && ExecuteNative(codec, c).FailedNatively?
    ensures CodeIn(report.schedule.failure) == Some(CodeOf(e)) && report.classification == FAILURE
    ensures e == InvariantViolation <==> CodeIn(report.schedule.failure) == Some("InvariantViolation")
  {
    hide ExecuteActors, ConstructResult2;
  }

  /** In an executed suite every case means what its own run gives under the totals of the earlier ones. */
  lemma SuiteMeans(codec: Codec, plan: seq<PlannedCase>, s: Suite, i: nat)
    requires ValidPlan(plan) && SuiteOf(codec, plan, s) && i < |plan|
    ensures CaseMeans(codec, Totals(codec, Kept(s.cases[..i])), plan[i], s.cases[i])
  {
    hide CaseMeans, Outcome, Totals, Kept, ValidCase;
    CaseExactly(codec, Totals(codec, Kept(s.cases[..i])), plan[i]);
  }

  // ---------------------------------------------------------------- acceptance

  /** A reference names this document: its identity, and the digest and size of its bytes. */
  predicate Names(codec: Codec, ref: Reference, read: Content, kept: Content) {
    ref.identity == IdentityOf(codec, read) && ref.sha == codec.sha(BytesOf(codec, kept)) && ref.size == |BytesOf(codec, kept)|
  }

  /** What acceptance says of a case with evidence: its three documents read back, the references name
      them, and request, manifest, result and schedule tell the same story. */
  ghost predicate Vouched(codec: Codec, c: CaseOutcome) {
    c.child.Some? && c.native.Some? && exists m, r, s ::
      && ReadManifest(codec, BytesOf(codec, ManifestContent(c.child.value.result))) == Some(m)
      && ReadResult2(codec, BytesOf(codec, ResultContent(codec, c.child.value.result))) == Some(r)
      && ReadSchedule(codec, BytesOf(codec, OfSchedule(c.child.value.schedule))) == Some(s)
      && Names(codec, c.native.value.manifest, OfManifest(m), ManifestContent(c.child.value.result))
      && Names(codec, c.native.value.result, ResultContent(codec, r), ResultContent(codec, c.child.value.result))
      && Names(codec, c.native.value.schedule, OfSchedule(s), OfSchedule(c.child.value.schedule))
      && OneStory(codec, c, m, r, s)
  }

  predicate OneStory(codec: Codec, c: CaseOutcome, m: Manifest, r: ResultOf<Value>, s: Schedule) {
    && c.coordinates == m == r.head.manifest
    && m.hash == s.hash == r.head.referencedScenario && m.resources == s.resources && m.run == s.run
    && m.rootSeed == s.execution.rootSeed && m.scheduleSeed == s.seed && m.start == s.execution.start
    && m.generators == s.execution.generators
    && r.head.scheduleHash == IdentityOf(codec, OfSchedule(s)) && r.head.classification == s.classification
    && CodeIn(r.head.failure) == CodeIn(s.failure)
    && c.observed == Observed(Some(s.classification), CodeIn(s.failure))
    && |s.records| <= 65536
  }

  /** The status that fits what was expected and observed. */
  predicate StatusFits(c: CaseOutcome) {
    match c.status
    case ERROR => c.native == None && c.observed.classification == None
    case SUCCESS => c.native.Some? && c.expectation.classification == Classification.SUCCESS && c.observed.classification == Some(Classification.SUCCESS)
    case EXPECTED_FAILURE =>
      c.native.Some? && c.expectation == Expectation(FAILURE, Some("InvariantViolation")) && c.observed == Observed(Some(FAILURE), Some("InvariantViolation"))
    case UNEXPECTED_FAILURE =>
      && c.native.Some? && c.observed.classification.Some?
      && !(c.expectation.classification == Classification.SUCCESS && c.observed.classification == Some(Classification.SUCCESS))
      && !(c.expectation == Expectation(FAILURE, Some("InvariantViolation")) && c.observed == Observed(Some(FAILURE), Some("InvariantViolation")))
  }

  /** The verifier accepts a suite only if every planned case is there in order with a status that fits,
      every case with evidence is vouched for, and counts, overall classification and bounds are right. */
  lemma AcceptedMeans(codec: Codec, identities: seq<string>, s: Suite)
    requires Verifiable(codec, identities, s)
    ensures |s.cases| == |identities|
    ensures forall i :: 0 <= i < |s.cases| ==>
              s.cases[i].identity == identities[i] && StatusFits(s.cases[i]) && (s.cases[i].native.Some? ==> Vouched(codec, s.cases[i]))
    ensures s.counts.success == |Having(s.cases, Status.SUCCESS)| && s.counts.expectedFailure == |Having(s.cases, EXPECTED_FAILURE)|
            && s.counts.unexpectedFailure == |Having(s.cases, UNEXPECTED_FAILURE)| && s.counts.error == |Having(s.cases, ERROR)|
            && s.counts.total == |s.cases|
    ensures s.overall == Classification.SUCCESS
            <==> forall i :: 0 <= i < |s.cases| ==> s.cases[i].status == Status.SUCCESS || s.cases[i].status == EXPECTED_FAILURE
    ensures Totals(codec, Kept(s.cases)).retained <= 67108864 && Totals(codec, Kept(s.cases)).selections <= 262144
  {
    hide Vouched, CaseVerified, Totals, Kept, CollisionFree, Encodings, CaseAccepted, StatusFits, Claimed;
    CountsExactly(s.cases);
    OverallExactly(s.cases);
    forall i | 0 <= i < |s.cases| ensures StatusFits(s.cases[i]) && (s.cases[i].native.Some? ==> Vouched(codec, s.cases[i])) {
      AcceptedStatus(s.cases[i]);
      if s.cases[i].native.Some? { VerifiedVouched(codec, s.cases[i]); }
    }
  }

  lemma AcceptedStatus(c: CaseOutcome)
    requires CaseAccepted(c)
    ensures StatusFits(c)
  {
  }

  lemma VerifiedVouched(codec: Codec, c: CaseOutcome)
    requires Carries(c) && CaseVerified(codec, c)
    ensures Vouched(codec, c)
  {
    hide ReadManifest, ReadResult2, ReadSchedule, BytesOf, IdentityOf, ManifestContent, ResultContent;
    var reading := ReadChild(codec, c.child.value).value;
    assert OneStory(codec, c, reading.manifest, reading.result, reading.schedule);
  }
}
