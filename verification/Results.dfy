/** The evidence documents of an Engine 2 run: how a report becomes a typed result, what its canonical
    bytes are, and exactly when reading those bytes back succeeds. */
module Results {
  import opened Order
  import opened Values
  import opened Steps
  import opened Actors
  import opened Evidence
  import opened Replay
  import opened Encoding

  const MAX_NESTING: nat := 32

  // ---------------------------------------------------------------- typed evidence

  datatype Manifest = Manifest(
    hash: string, rootSeed: string, scheduleSeed: nat, resources: map<string, string>, start: int, run: nat,
    generators: map<string, string>
  )

  /** What a history entry and an artifact hold besides the one semantic value inside them. */
  datatype EntryHead = EntryHead(
    actor: string, address: string, emitted: seq<(string, string)>, faults: seq<string>, after: string, before: string,
    timestamp: int, transition: Option<string>
  )

  datatype ProductHead = ProductHead(actor: string, address: string, id: string, kind: string)

  /** Semantic values are `Value` in a result and `Tree` in its document. */
  datatype Entry<V> = Entry(head: EntryHead, patch: V)
  datatype Product<V> = Product(head: ProductHead, value: V)

  datatype ResultHead = ResultHead(
    manifest: Manifest, scenarioId: string, scheduleHash: string, referencedScenario: string,
    classification: Classification, failure: Option<FailureRecord>, clock: int, actors: seq<ActorView>
  )

  datatype ResultOf<V> = Result2(head: ResultHead, state: V, history: seq<Entry<V>>, artifacts: seq<Product<V>>)

  /** What a document says, and the identity hash it carries; none in the payload the hash is taken of. */
  datatype Content =
    | OfManifest(manifest: Manifest)
    | OfResult(result: ResultOf<Tree>, manifestHash: string)
    | OfSchedule(schedule: Schedule)

  datatype Document = Document(content: Content, hash: Option<string>)

  /** Canonical JSON, its strict parser, SHA-256 and semantic addresses, as functions. */
  datatype Codec = Codec(
    formats: Formats, json: Document -> string, parse: string -> Option<Document>, sha: string -> string,
    actor: Address -> string, address: Address -> string
  )

  /** Parsing undoes writing, for documents and for timestamps. */
  ghost predicate Strict(codec: Codec) {
    Faithful(codec.formats) && forall d :: codec.parse(codec.json(d)) == Some(d)
  }

  // ---------------------------------------------------------------- hashes and bytes

  function IdentityOf(codec: Codec, content: Content): string {
    codec.sha(codec.json(Document(content, None)))
  }

  function BytesOf(codec: Codec, content: Content): string {
    codec.json(Document(content, Some(IdentityOf(codec, content))))
  }

  function Written(f: Formats, r: ResultOf<Value>): (t: ResultOf<Tree>)
    ensures t.head == r.head && |t.history| == |r.history| && |t.artifacts| == |r.artifacts|
  {
    Result2(r.head, Normalize(f, r.state),
            seq(|r.history|, i requires 0 <= i < |r.history| => Entry(r.history[i].head, Normalize(f, r.history[i].patch))),
            seq(|r.artifacts|, i requires 0 <= i < |r.artifacts| => Product(r.artifacts[i].head, Normalize(f, r.artifacts[i].value))))
  }

  function ManifestContent(r: ResultOf<Value>): Content {
    OfManifest(r.head.manifest)
  }

  function ResultContent(codec: Codec, r: ResultOf<Value>): Content {
    OfResult(Written(codec.formats, r), IdentityOf(codec, ManifestContent(r)))
  }

  // ---------------------------------------------------------------- what the constructors demand

  predicate ManifestAccepted(m: Manifest) {
    m.scheduleSeed <= MAX_SCHEDULE_SEED
  }

  function ViewNames(views: seq<ActorView>): (names: seq<string>)
    ensures |names| == |views| && forall i :: 0 <= i < |names| ==> names[i] == views[i].address
  {
    seq(|views|, i requires 0 <= i < |views| => views[i].address)
  }

  /** `Engine2Result.__post_init__`. */
  predicate HeadAccepted(h: ResultHead) {
    && ManifestAccepted(h.manifest) && h.scenarioId != "" && h.referencedScenario == h.manifest.hash
    && (match h.classification
        case SUCCESS => h.failure.None?
        case FAILURE => h.failure.Some? && h.failure.value.code != "" && h.failure.value.ordinal < MAX_SELECTIONS)
    && |h.actors| <= MAX_ACTORS && Ascending(ViewNames(h.actors))
  }

  // ---------------------------------------------------------------- construct_result2

  function EntryOf(codec: Codec, h: HistoryRecord): Entry<Value> {
    Entry(EntryHead(codec.actor(h.address), codec.address(h.address), h.emitted,
                    if h.faults.Some? then h.faults.value else [], h.after, h.before, h.timestamp, h.transition),
          Dict(h.patch))
  }

  function ProductOf(codec: Codec, a: Artifact): Product<Value> {
    Product(ProductHead(codec.actor(a.address), codec.address(a.address), a.logicalId, a.kind), a.value)
  }

  function HeadOf(codec: Codec, sc: Scenario, report: Report): ResultHead {
    var s := report.schedule;
    ResultHead(Manifest(sc.hash, s.execution.rootSeed, s.seed, s.resources, s.execution.start, s.run, sc.generators),
               sc.id, IdentityOf(codec, OfSchedule(s)), s.hash, report.classification, s.failure, report.clock, report.actors)
  }

  /** `construct_result2`; None is an evidence error. */
  function ConstructResult2(codec: Codec, sc: Scenario, report: Report): Option<ResultOf<Value>> {
    var head := HeadOf(codec, sc, report);
    if report.schedule.hash != sc.hash || !HeadAccepted(head) then None
    else
      Some(Result2(head, Dict(report.state),
                   seq(|report.history|, i requires 0 <= i < |report.history| => EntryOf(codec, report.history[i])),
                   seq(|report.artifacts|, i requires 0 <= i < |report.artifacts| => ProductOf(codec, report.artifacts[i]))))
  }

  lemma {:induction false} ViewsNamed(w: World, sc: Scenario, q: Request, cfg: Config, names: seq<string>)
    requires ConfigOK(sc, cfg) && forall a :: a in names ==> a in Addresses(sc.actors)
    ensures ViewNames(Views(w, sc, q, cfg, names)) == names
    decreases |names|
  {
    hide ConfigOK, RouteOne;
    if names != [] { ViewsNamed(w, sc, q, cfg, names[1..]); }
  }

  /** What construction needs of a report besides its schedule. */
  predicate Shaped(report: Report) {
    && report.schedule.classification == report.classification
    && |report.actors| <= MAX_ACTORS && Ascending(ViewNames(report.actors))
  }

  lemma BuiltShape(w: World, sc: Scenario, q: Request, cfg: Config, ds: seq<Decision>, cls: Classification, failure: Option<FailureRecord>)
    requires ValidScenario(sc) && ConfigOK(sc, cfg)
    ensures Shaped(BuildReport(w, sc, q, cfg, ds, cls, failure))
    ensures BuildReport(w, sc, q, cfg, ds, cls, failure).schedule.failure == failure
  {
    hide Views;
    ViewsNamed(w, sc, q, cfg, Sorted(cfg.controls.Keys));
    SortedAscending(cfg.controls.Keys);
    CardinalityAtMost(Addresses(sc.actors));
  }

  /** A failing report names the code of its error and the actor selected last. */
  ghost predicate NamesFailure(report: Report, e: Error) {
    && report.schedule.failure.Some? && report.schedule.failure.value.code == CodeOf(e)
    && report.decisions != [] && report.schedule.failure.value.actor == report.decisions[|report.decisions| - 1].actor
  }

  lemma EndingShape(w: World, sc: Scenario, q: Request, cfg: Config, ending: Ending)
    requires ValidScenario(sc) && ConfigOK(sc, cfg) && PlayRound(w, sc, q, cfg, None) == End(ending)
    ensures ending.Finished? ==> Shaped(ending.report) && ending.report.classification == SUCCESS && ending.report.schedule.failure == None
    ensures ending.Broken? ==> Shaped(ending.report) && ending.report.classification == FAILURE && NamesFailure(ending.report, ending.error)
    ensures ending.Finished? || ending.Broken? ==> q.scheduleSeed <= MAX_SCHEDULE_SEED
  {
    hide PlayRound, ConfigOK, Decide, ReadySet, Shaped, Views;
    EndingReports(w, sc, q, cfg, None, ending);
    if ending.Finished? {
      BuiltShape(w, sc, q, cfg, cfg.decisions, SUCCESS, None);
    } else if ending.Broken? {
      var d := Decide(w, sc, q, cfg);
      BuiltShape(w, sc, q, cfg, cfg.decisions + [d.(outcome := FAILED)], FAILURE, Some(FailureRecord(d.actor, CodeOf(ending.error), d.ordinal)));
    }
  }

  /** The evidence every run leaves: its schedule is well-formed and carries the request's coordinates. */
  lemma ReportShape(w: World, sc: Scenario, q: Request)
    requires ValidScenario(sc)
    ensures match ExecuteActors(w, sc, q, None)
            case Finished(report) =>
              Shaped(report) && report.classification == SUCCESS && report.schedule.failure == None
              && ScheduleWellFormed(report.schedule) && CoordinatesAgree(sc, q, report.schedule) && q.scheduleSeed <= MAX_SCHEDULE_SEED
            case Broken(e, report) =>
              Shaped(report) && report.classification == FAILURE && NamesFailure(report, e)
              && ScheduleWellFormed(report.schedule) && CoordinatesAgree(sc, q, report.schedule) && q.scheduleSeed <= MAX_SCHEDULE_SEED
            case _ => true
  {
    hide Run, Last, PlayRound, ConfigOK, Shaped, ScheduleWellFormed, CoordinatesAgree, NamesFailure;
    InitialOK(sc);
    EveryReportSound(w, sc, q, None);
    RunEndsAtLast(w, sc, q, Initial(sc), None);
    EndingShape(w, sc, q, Last(w, sc, q, Initial(sc), None), ExecuteActors(w, sc, q, None));
    match ExecuteActors(w, sc, q, None)
    case Finished(report) => ReportCoordinates(w, sc, q, Initial(sc), report);
    case Broken(e, report) => ReportCoordinates(w, sc, q, Initial(sc), report);
    case _ =>
  }

  /** The manifest a request determines. */
  function ManifestFor(sc: Scenario, q: Request): Manifest {
    Manifest(sc.hash, q.rootSeed, q.scheduleSeed, sc.resourceHashes, sc.start, q.run, sc.generators)
  }

  lemma ReportConstructs(codec: Codec, sc: Scenario, q: Request, report: Report)
    requires ValidScenario(sc) && sc.id != "" && Shaped(report) && ScheduleWellFormed(report.schedule)
    requires CoordinatesAgree(sc, q, report.schedule) && q.scheduleSeed <= MAX_SCHEDULE_SEED
    requires report.schedule.failure.Some? ==> report.schedule.failure.value.code != ""
    ensures ConstructResult2(codec, sc, report).Some?
    ensures var h := ConstructResult2(codec, sc, report).value.head;
            && h.manifest == ManifestFor(sc, q) && h.scheduleHash == IdentityOf(codec, OfSchedule(report.schedule))
            && h.referencedScenario == sc.hash && h.classification == report.classification && h.failure == report.schedule.failure
            && HeadAccepted(h)
  {
    hide Ascending, IdentityOf;
  }

  /** Construction never refuses the report of a run, and the result carries the request's coordinates and
      the schedule's identity, classification and failure; failure codes are never empty. */
  lemma RunConstructs(codec: Codec, w: World, sc: Scenario, q: Request, report: Report)
    requires ValidScenario(sc) && sc.id != "" && EndsWith(ExecuteActors(w, sc, q, None), report)
    requires report.schedule.failure.Some? ==> report.schedule.failure.value.code != ""
    ensures ConstructResult2(codec, sc, report).Some? && ScheduleWellFormed(report.schedule) && CoordinatesAgree(sc, q, report.schedule)
    ensures var h := ConstructResult2(codec, sc, report).value.head;
            && HeadAccepted(h) && h.manifest == ManifestFor(sc, q)
            && h.scheduleHash == IdentityOf(codec, OfSchedule(report.schedule)) && h.referencedScenario == sc.hash
            && h.classification == report.classification == report.schedule.classification && h.failure == report.schedule.failure
  {
    hide ExecuteActors, ConstructResult2, HeadAccepted, IdentityOf, ScheduleWellFormed, NamesFailure, CoordinatesAgree;
    ReportShape(w, sc, q);
    ReportConstructs(codec, sc, q, report);
  }

  // ---------------------------------------------------------------- reading back

  /** `_depth`: the tree has at most `room` levels below its root. */
  predicate WithinLevels(t: Tree, room: int) {
    && 0 <= room
    && match t
       case Items(items) => forall i :: 0 <= i < |items| ==> WithinLevels(items[i], room - 1)
       case Fields(fields) => forall k :: k in fields ==> WithinLevels(fields[k], room - 1)
       case _ => true
  }

  /** The values lie one and three levels below the root of a result document; everything else in it, and
      in the other documents, is shallower than the bound. */
  predicate ShallowDocument(t: ResultOf<Tree>) {
    && WithinLevels(t.state, MAX_NESTING - 1)
    && (forall i :: 0 <= i < |t.history| ==> WithinLevels(t.history[i].patch, MAX_NESTING - 3))
    && (forall i :: 0 <= i < |t.artifacts| ==> WithinLevels(t.artifacts[i].value, MAX_NESTING - 3))
  }

  predicate Decodable(f: Formats, t: ResultOf<Tree>) {
    && Decode(f, t.state).Some?
    && (forall i :: 0 <= i < |t.history| ==> Decode(f, t.history[i].patch).Some?)
    && (forall i :: 0 <= i < |t.artifacts| ==> Decode(f, t.artifacts[i].value).Some?)
  }

  function Decoded(f: Formats, t: ResultOf<Tree>): (r: ResultOf<Value>)
    requires Decodable(f, t)
    ensures r.head == t.head && |r.history| == |t.history| && |r.artifacts| == |t.artifacts|
  {
    Result2(t.head, Decode(f, t.state).value,
            seq(|t.history|, i requires 0 <= i < |t.history| => Entry(t.history[i].head, Decode(f, t.history[i].patch).value)),
            seq(|t.artifacts|, i requires 0 <= i < |t.artifacts| => Product(t.artifacts[i].head, Decode(f, t.artifacts[i].value).value)))
  }

  /** A constructor's check of the identity hash it is given. */
  predicate HashAgrees(codec: Codec, claimed: string, content: Content) {
    claimed == "" || claimed == IdentityOf(codec, content)
  }

  /** Mappings of names to texts are decoded like values, so the reserved key spoils them. */
  predicate Plain(m: map<string, string>) {
    "$type" !in m
  }

  predicate PlainManifest(m: Manifest) {
    Plain(m.resources) && Plain(m.generators)
  }

  /** `read_manifest2`. */
  function ReadManifest(codec: Codec, data: string): Option<Manifest> {
    match codec.parse(data)
    case Some(Document(OfManifest(m), Some(hash))) =>
      if PlainManifest(m) && ManifestAccepted(m) && HashAgrees(codec, hash, OfManifest(m)) && BytesOf(codec, OfManifest(m)) == data
      then Some(m) else None
    case _ => None
  }

  /** `read_result2`. */
  function ReadResult2(codec: Codec, data: string): Option<ResultOf<Value>> {
    match codec.parse(data)
    case Some(Document(OfResult(t, manifestHash), Some(hash))) =>
      if !ShallowDocument(t) || !Decodable(codec.formats, t) || !PlainManifest(t.head.manifest) then None
      else
        var r := Decoded(codec.formats, t);
        if HeadAccepted(r.head) && HashAgrees(codec, manifestHash, ManifestContent(r))
           && HashAgrees(codec, hash, ResultContent(codec, r)) && BytesOf(codec, ResultContent(codec, r)) == data
        then Some(r) else None
    case _ => None
  }

  /** `read_schedule`. */
  function ReadSchedule(codec: Codec, data: string): Option<Schedule> {
    match codec.parse(data)
    case Some(Document(OfSchedule(s), Some(hash))) =>
      if ScheduleWellFormed(s) && HashAgrees(codec, hash, OfSchedule(s)) && BytesOf(codec, OfSchedule(s)) == data
      then Some(s) else None
    case _ => None
  }

  /** A value whose encoding nests at most `room` levels deep and decodes to something with that encoding. */
  predicate Restorable(f: Formats, v: Value, room: int) {
    WithinLevels(Normalize(f, v), room) && Canonical(f, Normalize(f, v))
  }

  /** The state, the patches and the artifact values of a result can all be read back. */
  predicate ResultRestorable(f: Formats, r: ResultOf<Value>) {
    && Restorable(f, r.state, MAX_NESTING - 1)
    && (forall i :: 0 <= i < |r.history| ==> Restorable(f, r.history[i].patch, MAX_NESTING - 3))
    && (forall i :: 0 <= i < |r.artifacts| ==> Restorable(f, r.artifacts[i].value, MAX_NESTING - 3))
  }

  lemma BytesDetermine(codec: Codec, a: Content, b: Content)
    requires Strict(codec) && BytesOf(codec, a) == BytesOf(codec, b)
    ensures a == b
  {
    var x, y := Document(a, Some(IdentityOf(codec, a))), Document(b, Some(IdentityOf(codec, b)));
    assert codec.parse(codec.json(x)) == Some(x) && codec.parse(codec.json(y)) == Some(y);
  }

  lemma ParsesBack(codec: Codec, content: Content)
    requires Strict(codec)
    ensures codec.parse(BytesOf(codec, content)) == Some(Document(content, Some(IdentityOf(codec, content))))
  {
  }

  /** Decoding what was written and writing it again changes nothing exactly when each value reads back. */
  lemma DecodedWrites(f: Formats, r: ResultOf<Value>)
    ensures (Decodable(f, Written(f, r)) && Written(f, Decoded(f, Written(f, r))) == Written(f, r))
       <==> && ReadsBack(f, Normalize(f, r.state))
            && (forall i :: 0 <= i < |r.history| ==> ReadsBack(f, Normalize(f, r.history[i].patch)))
            && (forall i :: 0 <= i < |r.artifacts| ==> ReadsBack(f, Normalize(f, r.artifacts[i].value)))
  {
    hide Normalize, Decode;
    var t := Written(f, r);
    forall i | 0 <= i < |r.history| ensures t.history[i] == Entry(r.history[i].head, Normalize(f, r.history[i].patch)) {}
    forall i | 0 <= i < |r.artifacts| ensures t.artifacts[i] == Product(r.artifacts[i].head, Normalize(f, r.artifacts[i].value)) {}
    if Decodable(f, t) {
      var d := Decoded(f, t);
      var u := Written(f, d);
      forall i | 0 <= i < |r.history| ensures u.history[i] == t.history[i] <==> ReadsBack(f, Normalize(f, r.history[i].patch)) {
        assert u.history[i].patch == Normalize(f, Decode(f, t.history[i].patch).value);
      }
      forall i | 0 <= i < |r.artifacts| ensures u.artifacts[i] == t.artifacts[i] <==> ReadsBack(f, Normalize(f, r.artifacts[i].value)) {
        assert u.artifacts[i].value == Normalize(f, Decode(f, t.artifacts[i].value).value);
      }
    }
  }

  lemma RestorableWrites(f: Formats, r: ResultOf<Value>)
    ensures ResultRestorable(f, r)
       <==> && ShallowDocument(Written(f, r)) && Decodable(f, Written(f, r))
            && Written(f, Decoded(f, Written(f, r))) == Written(f, r)
  {
    hide Normalize, Decode, Canonical, WithinLevels, ReadsBack, Decodable;
    DecodedWrites(f, r);
    var t := Written(f, r);
    ReadsBackExactly(f, Normalize(f, r.state));
    forall i | 0 <= i < |r.history|
      ensures t.history[i].patch == Normalize(f, r.history[i].patch)
      ensures ReadsBack(f, Normalize(f, r.history[i].patch)) <==> Canonical(f, Normalize(f, r.history[i].patch))
    {
      ReadsBackExactly(f, Normalize(f, r.history[i].patch));
    }
    forall i | 0 <= i < |r.artifacts|
      ensures t.artifacts[i].value == Normalize(f, r.artifacts[i].value)
      ensures ReadsBack(f, Normalize(f, r.artifacts[i].value)) <==> Canonical(f, Normalize(f, r.artifacts[i].value))
    {
      ReadsBackExactly(f, Normalize(f, r.artifacts[i].value));
    }
  }

  /** The canonical bytes of a constructed result are read back exactly when every value in it can be; what
      is read then has the same head and the same encoding. */
  lemma ResultReadsBack(codec: Codec, r: ResultOf<Value>)
    requires Strict(codec) && HeadAccepted(r.head) && PlainManifest(r.head.manifest)
    ensures var read := ReadResult2(codec, BytesOf(codec, ResultContent(codec, r)));
            && (read.Some? <==> ResultRestorable(codec.formats, r))
            && (read.Some? ==>
                  && read.value.head == r.head && Written(codec.formats, read.value) == Written(codec.formats, r)
                  && Decodable(codec.formats, Written(codec.formats, r))
                  && read.value == Decoded(codec.formats, Written(codec.formats, r)))
  {
    hide Written, Decodable, HeadAccepted, ShallowDocument, ResultRestorable, BytesOf, IdentityOf;
    var f, data := codec.formats, BytesOf(codec, ResultContent(codec, r));
    var t := Written(f, r);
    ParsesBack(codec, ResultContent(codec, r));
    RestorableWrites(f, r);
    if ShallowDocument(t) && Decodable(f, t) {
      var d := Decoded(f, t);
      if BytesOf(codec, ResultContent(codec, d)) == data { BytesDetermine(codec, ResultContent(codec, d), ResultContent(codec, r)); }
    }
  }

  lemma ManifestReadsBack(codec: Codec, m: Manifest)
    requires Strict(codec) && ManifestAccepted(m) && PlainManifest(m)
    ensures ReadManifest(codec, BytesOf(codec, OfManifest(m))) == Some(m)
  {
    hide BytesOf, IdentityOf;
    ParsesBack(codec, OfManifest(m));
  }

  lemma ScheduleReadsBack(codec: Codec, s: Schedule)
    requires Strict(codec) && ScheduleWellFormed(s)
    ensures ReadSchedule(codec, BytesOf(codec, OfSchedule(s))) == Some(s)
  {
    hide BytesOf, IdentityOf, ScheduleWellFormed;
    ParsesBack(codec, OfSchedule(s));
  }

  // ---------------------------------------------------------------- replaying a result from its bytes

  /** The coordinate checks between a result and the schedule it is replayed with. */
  predicate ReplayCoordinates(codec: Codec, h: ResultHead, s: Schedule) {
    && h.manifest.hash == s.hash && h.manifest.resources == s.resources && h.manifest.rootSeed == s.execution.rootSeed
    && h.manifest.scheduleSeed == s.seed && h.manifest.run == s.run && h.scheduleHash == IdentityOf(codec, OfSchedule(s))
    && h.manifest.start == s.execution.start && h.manifest.generators == s.execution.generators
  }

  /** Everything the result says of the run itself. */
  predicate SameObservations(a: ResultOf<Value>, b: ResultOf<Value>) {
    && a.state == b.state && a.head.clock == b.head.clock && a.history == b.history && a.artifacts == b.artifacts
    && a.head.actors == b.head.actors && a.head.classification == b.head.classification && a.head.failure == b.head.failure
  }

  /** `exact_replay_result2_internal`, the result given as bytes. */
  predicate ReplaysResult(codec: Codec, w: World, sc: Scenario, q: Request, data: string, s: Schedule) {
    match ReadResult2(codec, data)
    case None => false
    case Some(evidence) =>
      ReplayCoordinates(codec, evidence.head, s)
      && match ExactReplay(w, sc, q, s)
         case Rejected => false
         case Accepted(report) =>
           match ConstructResult2(codec, sc, report)
           case None => false
           case Some(observed) => SameObservations(evidence, observed)
  }

  predicate ResultProper(f: Formats, r: ResultOf<Value>) {
    && Proper(f, r.state) && (forall i :: 0 <= i < |r.history| ==> Proper(f, r.history[i].patch))
    && (forall i :: 0 <= i < |r.artifacts| ==> Proper(f, r.artifacts[i].value))
  }

  predicate ResultUnreserved(r: ResultOf<Value>) {
    && Unreserved(r.state) && (forall i :: 0 <= i < |r.history| ==> Unreserved(r.history[i].patch))
    && (forall i :: 0 <= i < |r.artifacts| ==> Unreserved(r.artifacts[i].value))
  }

  /** Reading a result gives that very result exactly when none of its mappings uses the reserved key. */
  lemma DecodedIsSame(f: Formats, r: ResultOf<Value>)
    requires Faithful(f) && ResultProper(f, r)
    ensures (Decodable(f, Written(f, r)) && SameObservations(Decoded(f, Written(f, r)), r)) <==> ResultUnreserved(r)
  {
    hide Normalize, Decode, Proper, Unreserved, Faithful;
    var t := Written(f, r);
    DecodeRestoresExactly(f, r.state);
    forall i | 0 <= i < |r.history|
      ensures t.history[i] == Entry(r.history[i].head, Normalize(f, r.history[i].patch))
      ensures Decode(f, t.history[i].patch) == Some(r.history[i].patch) <==> Unreserved(r.history[i].patch)
    {
      DecodeRestoresExactly(f, r.history[i].patch);
    }
    forall i | 0 <= i < |r.artifacts|
      ensures t.artifacts[i] == Product(r.artifacts[i].head, Normalize(f, r.artifacts[i].value))
      ensures Decode(f, t.artifacts[i].value) == Some(r.artifacts[i].value) <==> Unreserved(r.artifacts[i].value)
    {
      DecodeRestoresExactly(f, r.artifacts[i].value);
    }
    if Decodable(f, t) {
      var d := Decoded(f, t);
      assert forall i :: 0 <= i < |r.history| ==> d.history[i] == Entry(r.history[i].head, Decode(f, t.history[i].patch).value);
      assert forall i :: 0 <= i < |r.artifacts| ==> d.artifacts[i] == Product(r.artifacts[i].head, Decode(f, t.artifacts[i].value).value);
    }
  }

  lemma UnreservedRestorable(f: Formats, r: ResultOf<Value>)
    requires Faithful(f) && ResultProper(f, r) && ResultUnreserved(r)
    ensures ResultRestorable(f, r) <==> ShallowDocument(Written(f, r))
  {
    hide Normalize, Proper, Unreserved, Faithful, Canonical, WithinLevels;
    var t := Written(f, r);
    UnreservedIsCanonical(f, r.state);
    forall i | 0 <= i < |r.history|
      ensures t.history[i].patch == Normalize(f, r.history[i].patch) && Canonical(f, t.history[i].patch)
    {
      UnreservedIsCanonical(f, r.history[i].patch);
    }
    forall i | 0 <= i < |r.artifacts|
      ensures t.artifacts[i].value == Normalize(f, r.artifacts[i].value) && Canonical(f, t.artifacts[i].value)
    {
      UnreservedIsCanonical(f, r.artifacts[i].value);
    }
  }

  lemma ConstructedReplays(codec: Codec, w: World, sc: Scenario, q: Request, report: Report, r: ResultOf<Value>)
    requires Strict(codec) && ConstructResult2(codec, sc, report) == Some(r)
    requires EndsWith(ExecuteActors(w, sc, q, None), report)
    requires HeadAccepted(r.head) && PlainManifest(r.head.manifest) && ReplayCoordinates(codec, r.head, report.schedule)
    requires ResultProper(codec.formats, r)
    ensures ReplaysResult(codec, w, sc, q, BytesOf(codec, ResultContent(codec, r)), report.schedule)
       <==> ShallowDocument(Written(codec.formats, r)) && ResultUnreserved(r)
  {
    hide ExactReplay, ExecuteActors, ConstructResult2, HeadAccepted, BytesOf, IdentityOf, Written, ResultProper, ResultUnreserved,
         ResultRestorable, ShallowDocument, Decodable, ReadResult2, SameObservations, EndsWith;
    OwnScheduleAccepted(w, sc, q, report);
    ResultReadsBack(codec, r);
    DecodedIsSame(codec.formats, r);
    if ResultUnreserved(r) { UnreservedRestorable(codec.formats, r); }
    RestorableWrites(codec.formats, r);
  }

  /** A run's own result, replayed from its bytes with its own schedule, is accepted if and only if its
      values nest within the bound and none of their mappings uses the reserved key. */
  lemma OwnResultReplays(codec: Codec, w: World, sc: Scenario, q: Request, report: Report)
    requires Strict(codec) && ValidScenario(sc) && sc.id != "" && PlainManifest(ManifestFor(sc, q))
    requires EndsWith(ExecuteActors(w, sc, q, None), report)
    requires report.schedule.failure.Some? ==> report.schedule.failure.value.code != ""
    ensures ConstructResult2(codec, sc, report).Some?
    ensures var r := ConstructResult2(codec, sc, report).value;
            ResultProper(codec.formats, r) ==>
              (ReplaysResult(codec, w, sc, q, BytesOf(codec, ResultContent(codec, r)), report.schedule)
               <==> ShallowDocument(Written(codec.formats, r)) && ResultUnreserved(r))
  {
    hide ExecuteActors, ConstructResult2, HeadAccepted, BytesOf, IdentityOf, Written, ResultProper, ResultUnreserved, ScheduleWellFormed,
         ShallowDocument, ReplaysResult;
    RunConstructs(codec, w, sc, q, report);
    var r := ConstructResult2(codec, sc, report).value;
    if ResultProper(codec.formats, r) { ConstructedReplays(codec, w, sc, q, report, r); }
  }
}
