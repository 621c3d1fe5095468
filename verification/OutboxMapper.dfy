/** From a claimed mock-registration submission to its ledger entry
    (apps/api/app/decision_trace_persistence/p6_outbox_mapper.py). A rejection is `None`. */
module OutboxMapper {
  import opened Wrappers
  import opened Ordering
  import opened Text
  import opened CanonicalLedger
  import opened LedgerStorage

  type Uuid = s: string | CanonicalUuid(s) witness "00000000-0000-0000-0000-000000000000"

  datatype Lifecycle = Submitted | Withdrawn | Expired
  datatype Validation = Valid | Invalid | ReviewRequired

  datatype Course = Course(courseId: Uuid, code: string, selectionOrder: int)

  /** The immutable facts of a revision that its outbox snapshot repeats, creation time apart. */
  datatype Revision = Revision(
    revisionId: Uuid, intentId: Uuid, ownerId: Uuid, universityId: Uuid, majorId: Uuid, planId: Uuid, planVersion: string,
    periodId: Uuid, number: int, lifecycle: Lifecycle, validation: Validation, fingerprint: string, provenance: string,
    intentSourceVersion: string, reasonCodes: seq<string>, catalogVersions: seq<string>, prerequisiteVersions: seq<string>,
    progressVersion: string, progressReference: Option<string>, phase5Policy: string, phase6Policy: string,
    contractVersion: string, periodSourceVersion: string, noticeVersion: string, actorClass: string, courses: seq<Course>)

  /** `snapshot` is absent when its keys are not exactly the expected ones, `snapshotCreated` when
      its timestamp does not parse to an instant. */
  datatype Event = Event(eventId: Uuid, revisionId: Uuid, ownerId: Uuid, universityId: Uuid, majorId: Uuid, planId: Uuid,
                         planVersion: string, periodId: Uuid, number: int, eventType: string, snapshotVersion: string,
                         snapshot: Option<Revision>, snapshotCreated: Option<int>)

  /** What `verify_p6_replay_artifact` returns, `intact` when it does not raise. */
  datatype Artifact = Artifact(intact: bool, contractVersion: string, engineVersion: string,
                               ownerId: string, universityId: string, majorId: string, planId: string, planVersion: string,
                               sourceVersions: seq<string>, policyVersions: seq<string>, status: Validation,
                               reasonCodes: seq<string>, fingerprint: string, courseCodes: seq<string>)

  datatype Projection = Projection(revision: Revision, created: Timestamp, outboxRequired: bool,
                                   event: Option<Event>, artifact: Option<Artifact>)

  predicate OrderedCourses(r: Revision) {
    forall i :: 0 <= i < |r.courses| ==> r.courses[i].selectionOrder == i + 1
  }

  /** `_validate_event_and_snapshot`. */
  predicate EventMatches(r: Revision, created: Timestamp, e: Event) {
    && e.eventId == r.revisionId && e.revisionId == r.revisionId
    && e.eventType == "MOCK_REGISTRATION_SUBMIT" && e.snapshotVersion == "1.0"
    && e.ownerId == r.ownerId && e.universityId == r.universityId && e.majorId == r.majorId && e.planId == r.planId
    && e.planVersion == r.planVersion && e.periodId == r.periodId && e.number == r.number
    && OrderedCourses(r) && created.Aware?
    && e.snapshot == Some(r) && e.snapshotCreated == Some(created.instant)
  }

  predicate ArtifactMatches(r: Revision, a: Artifact) {
    && a.intact && a.contractVersion == "P6_REPLAY_ARTIFACT_V1" && a.engineVersion in {"1.0", "2.0"}
    && a.ownerId == r.ownerId && a.universityId == r.universityId && a.majorId == r.majorId && a.planId == r.planId
    && a.planVersion == r.planVersion && a.sourceVersions == r.catalogVersions && a.sourceVersions == r.prerequisiteVersions
    && |a.policyVersions| >= 2 && a.policyVersions[0] == r.phase5Policy && a.policyVersions[1] == r.phase6Policy
    && a.status == r.validation && a.reasonCodes == r.reasonCodes && a.fingerprint == r.fingerprint
    && |a.courseCodes| == |r.courses| && forall i :: 0 <= i < |r.courses| ==> a.courseCodes[i] == r.courses[i].code
  }

  function SourceVersions(r: Revision): seq<string> {
    [r.planVersion, r.intentSourceVersion] + r.catalogVersions + r.prerequisiteVersions
    + [r.progressVersion, r.phase5Policy, r.phase6Policy, r.contractVersion, r.periodSourceVersion, r.noticeVersion]
  }

  /** The gate every projection has to pass. */
  predicate Eligible(p: Projection) {
    var r := p.revision;
    && p.outboxRequired && r.lifecycle == Submitted && (r.validation == Valid || r.validation == ReviewRequired)
    && r.actorClass == "STUDENT_AUTHENTICATED"
    && p.event.Some? && EventMatches(r, p.created, p.event.value)
    && (p.artifact.Some? ==> ArtifactMatches(r, p.artifact.value))
    && forall v :: v in SourceVersions(r) ==> !Blank(v)
  }

  const COURSE_SET := "P6_INTENT_COURSE_SET"
  const INTENT_REVISION := "P6_INTENT_REVISION"
  const REPLAY_ARTIFACT := "P6_REPLAY_ARTIFACT"
  const TARGET_PERIOD := "P6_TARGET_PERIOD"
  const NON_BINDING := "NON_BINDING_DECLARED_INTENT" + "_NOT_OFFICIAL_REGISTRATION"
  const NO_REPLAY := "P6_HISTORICAL_REPLAY_NOT_AVAILABLE"

  function Reference(source: string, identifier: string, version: string): Evidence {
    Evidence(source, identifier, version, None, None)
  }

  function EvidenceOf(p: Projection): seq<Evidence> {
    var r := p.revision;
    [Reference(COURSE_SET, r.revisionId, r.contractVersion), Reference(INTENT_REVISION, r.revisionId, r.contractVersion),
     Reference(TARGET_PERIOD, r.periodId, r.periodSourceVersion)]
    + (if p.artifact.Some? then [Reference(REPLAY_ARTIFACT, r.revisionId, p.artifact.value.contractVersion)] else [])
  }

  function StatusText(v: Validation): string {
    match v
    case Valid => "VALID"
    case Invalid => "INVALID"
    case ReviewRequired => "REVIEW_REQUIRED"
  }

  /** The arguments of `create_canonical_ledger_entry`. */
  function DraftOf(p: Projection): Entry {
    var r := p.revision;
    Entry(Facts(r.revisionId, MockRegistrationSubmit, MaterialityFor(MockRegistrationSubmit), Student, Some(r.ownerId),
                StudentIndividual, r.ownerId, r.universityId, Some(r.ownerId),
                "P6_MOCK_REGISTRATION_VALIDATION",
                if p.artifact.Some? then p.artifact.value.engineVersion else r.contractVersion,
                r.phase6Policy, r.progressReference, None,
                if r.validation == Valid then Validated else FlaggedReview,
                "P6_NON_BINDING_INTENT:" + r.revisionId + ":" + StatusText(r.validation) + ":" + r.fingerprint, None,
                AuthoritativeTransaction, Aware(if p.created.Aware? then p.created.instant else 0, 0), StudentSafe,
                None, None, if p.artifact.Some? then ReplayableExact else ReplayStatus.NotReplayable,
                CONTRACT_VERSION, CONTRACT_VERSION),
          SourceVersions(r), if p.artifact.Some? then [NON_BINDING] else [NON_BINDING, NO_REPLAY], EvidenceOf(p), "")
  }

  function ExpectedSources(p: Projection): seq<string> {
    if p.artifact.Some? then Sort(StrLe, [COURSE_SET, INTENT_REVISION, TARGET_PERIOD, REPLAY_ARTIFACT])
    else [COURSE_SET, INTENT_REVISION, TARGET_PERIOD]
  }

  function Sources(refs: seq<Evidence>): seq<string> {
    seq(|refs|, i requires 0 <= i < |refs| => refs[i].source)
  }

  /** `map_verified_mock_registration_submit`, with the two checks it makes on its own result. */
  function Map(p: Projection, digest: Digest): Option<Entry> {
    if !Eligible(p) then None
    else
      var entry := Create(DraftOf(p), digest);
      if entry.None? then None
      else if VerifyIntegrityHash(entry.value, digest) != Some(Verified) then None
      else if Sources(entry.value.evidence) != ExpectedSources(p) then None
      else entry
  }

  // ---- The order of the evidence ------------------------------------------------------

  lemma SourceOrder()
    ensures StrLe(COURSE_SET, INTENT_REVISION) && StrLe(INTENT_REVISION, REPLAY_ARTIFACT) && StrLe(REPLAY_ARTIFACT, TARGET_PERIOD)
    ensures StrLe(COURSE_SET, REPLAY_ARTIFACT) && StrLe(COURSE_SET, TARGET_PERIOD) && StrLe(INTENT_REVISION, TARGET_PERIOD)
    ensures Distinct([COURSE_SET, INTENT_REVISION, REPLAY_ARTIFACT, TARGET_PERIOD])
  {
    hide StrLe;
    assert COURSE_SET[..10] == "P6_INTENT_" == INTENT_REVISION[..10];
    assert COURSE_SET[..3] == "P6_" && INTENT_REVISION[..3] == "P6_" && REPLAY_ARTIFACT[..3] == "P6_" && TARGET_PERIOD[..3] == "P6_";
    Decided(COURSE_SET, INTENT_REVISION, 10);
    Decided(INTENT_REVISION, REPLAY_ARTIFACT, 3);
    Decided(REPLAY_ARTIFACT, TARGET_PERIOD, 3);
    Decided(COURSE_SET, REPLAY_ARTIFACT, 3);
    Decided(COURSE_SET, TARGET_PERIOD, 3);
    Decided(INTENT_REVISION, TARGET_PERIOD, 3);
  }

  lemma Decided(a: string, b: string, k: nat)
    requires k < |a| && k < |b| && a[..k] == b[..k] && a[k] < b[k]
    ensures StrLe(a, b) && a != b
  {
    LexDecidedAt(CharLe, a, b, k);
  }

  lemma BySource(a: Evidence, b: Evidence)
    requires a.source != b.source && StrLe(a.source, b.source)
    ensures EvidenceLe(a, b)
  {
    hide StrLe;
  }

  lemma TextsStrip()
    ensures Strip(COURSE_SET) == COURSE_SET && Strip(INTENT_REVISION) == INTENT_REVISION
    ensures Strip(REPLAY_ARTIFACT) == REPLAY_ARTIFACT && Strip(TARGET_PERIOD) == TARGET_PERIOD
    ensures !Blank(NON_BINDING) && !Blank(NO_REPLAY) && !Blank("P6_MOCK_REGISTRATION_VALIDATION") && !Blank("1.0") && !Blank("2.0")
    ensures !Blank("P6_REPLAY_ARTIFACT_V1")
  {
    StripOfTrimmed(COURSE_SET);
    StripOfTrimmed(INTENT_REVISION);
    StripOfTrimmed(REPLAY_ARTIFACT);
    StripOfTrimmed(TARGET_PERIOD);
    hide Strip;
    assert NON_BINDING[0] == 'N';
    NotBlank(NON_BINDING, 0);
    NotBlank(NO_REPLAY, 0);
    NotBlank("P6_MOCK_REGISTRATION_VALIDATION", 0);
    NotBlank("1.0", 0);
    NotBlank("2.0", 0);
    NotBlank("P6_REPLAY_ARTIFACT_V1", 0);
  }

  lemma NotBlank(s: string, i: nat)
    requires i < |s| && !IsSpace(s[i])
    ensures !Blank(s)
  {
    BlankIsAllSpace(s);
  }

  lemma UuidIsText(s: Uuid)
    ensures Strip(s) == s && !Blank(s)
  {
    UuidIsTrimmed(s);
    StripOfTrimmed(s);
  }

  lemma SourceVersionsCover(r: Revision)
    ensures r.contractVersion in SourceVersions(r) && r.periodSourceVersion in SourceVersions(r) && r.phase6Policy in SourceVersions(r)
  {
    var front := [r.planVersion, r.intentSourceVersion] + r.catalogVersions + r.prerequisiteVersions;
    var back := [r.progressVersion, r.phase5Policy, r.phase6Policy, r.contractVersion, r.periodSourceVersion, r.noticeVersion];
    assert SourceVersions(r) == front + back;
    assert back[2] in back && back[3] in back && back[4] in back;
  }

  /** The evidence in the order the ledger keeps it. */
  function OrderedEvidence(p: Projection): seq<Evidence> {
    var r := p.revision;
    [Reference(COURSE_SET, r.revisionId, Strip(r.contractVersion)), Reference(INTENT_REVISION, r.revisionId, Strip(r.contractVersion))]
    + (if p.artifact.Some? then [Reference(REPLAY_ARTIFACT, r.revisionId, Strip(p.artifact.value.contractVersion))] else [])
    + [Reference(TARGET_PERIOD, r.periodId, Strip(r.periodSourceVersion))]
  }

  lemma StrippedEvidence(p: Projection)
    ensures var r, s := p.revision, StripReferences(EvidenceOf(p));
            && |s| == (if p.artifact.Some? then 4 else 3)
            && s[0] == OrderedEvidence(p)[0] && s[1] == OrderedEvidence(p)[1]
            && s[2] == OrderedEvidence(p)[|s| - 1]
            && (p.artifact.Some? ==> s[3] == OrderedEvidence(p)[2])
            && |OrderedEvidence(p)| == |s|
  {
    hide Strip;
    TextsStrip();
    UuidIsText(p.revision.revisionId);
    UuidIsText(p.revision.periodId);
  }

  lemma OrderedEvidenceIsNormal(p: Projection)
    requires Eligible(p)
    ensures NormalEvidence(OrderedEvidence(p))
  {
    hide StrLe, EvidenceLe, Strip, EventMatches;
    var r, s := p.revision, OrderedEvidence(p);
    SourceOrder();
    SourceVersionsCover(r);
    TextsStrip();
    UuidIsText(r.revisionId);
    UuidIsText(r.periodId);
    StripIsTrimmed(r.contractVersion);
    StripIsTrimmed(r.periodSourceVersion);
    if p.artifact.Some? { StripIsTrimmed(p.artifact.value.contractVersion); }
    TrimmedByStrip(COURSE_SET);
    TrimmedByStrip(INTENT_REVISION);
    TrimmedByStrip(REPLAY_ARTIFACT);
    TrimmedByStrip(TARGET_PERIOD);
    TrimmedByStrip(r.revisionId);
    TrimmedByStrip(r.periodId);
    forall i, j | 0 <= i < j < |s| ensures EvidenceLe(s[i], s[j]) && s[i] != s[j] { BySource(s[i], s[j]); }
  }

  lemma TrimmedByStrip(s: string)
    requires Strip(s) == s
    ensures Trimmed(s)
  {
    StripIsTrimmed(s);
  }

  lemma EvidenceIsOrdered(p: Projection)
    requires Eligible(p)
    ensures NormalizeReferences(EvidenceOf(p)) == Some(OrderedEvidence(p))
  {
    hide EvidenceLe, EvidenceOf, OrderedEvidence, StripReference, BlankReference, CleanReference, Eligible;
    StrippedEvidence(p);
    OrderedEvidenceIsNormal(p);
    var s, o := StripReferences(EvidenceOf(p)), OrderedEvidence(p);
    assert Elements(s) == Elements(o);
    NormalReferencesAreFixed(o);
    CleanReferencesHaveNoTies(o);
    EvidenceLeIsPreorder();
    CanonicalOfCanonical(EvidenceLe, o);
    CanonicalUnique(EvidenceLe, o, s);
    NothingBlank(p);
  }

  lemma NothingBlank(p: Projection)
    requires Eligible(p)
    ensures forall e :: e in EvidenceOf(p) ==> !BlankReference(e)
  {
    hide Strip, EventMatches;
    SourceVersionsCover(p.revision);
    TextsStrip();
    UuidIsText(p.revision.revisionId);
    UuidIsText(p.revision.periodId);
    NotBlank(COURSE_SET, 0);
    NotBlank(INTENT_REVISION, 0);
    NotBlank(REPLAY_ARTIFACT, 0);
    NotBlank(TARGET_PERIOD, 0);
  }

  const EXACT_SOURCES := [COURSE_SET, INTENT_REVISION, REPLAY_ARTIFACT, TARGET_PERIOD]

  lemma SortedSources()
    ensures Sort(StrLe, [COURSE_SET, INTENT_REVISION, TARGET_PERIOD, REPLAY_ARTIFACT]) == EXACT_SOURCES
  {
    SourceOrder();
    StrLeIsTotalOrder();
    hide StrLe, Sort;
    SortOfSwapped(COURSE_SET, INTENT_REVISION, REPLAY_ARTIFACT, TARGET_PERIOD);
  }

  lemma SwappedIsSame(a: string, b: string, c: string, d: string)
    ensures multiset([a, b, d, c]) == multiset([a, b, c, d])
  {
  }

  lemma SortOfSwapped(a: string, b: string, c: string, d: string)
    requires TotalOrder(StrLe) && Sorted(StrLe, [a, b, c, d])
    ensures Sort(StrLe, [a, b, d, c]) == [a, b, c, d]
  {
    hide StrLe, Sort, Sorted, NoTies;
    var given, sorted := [a, b, d, c], [a, b, c, d];
    SwappedIsSame(a, b, c, d);
    TotalOrderHasNoTies(StrLe, sorted);
    SortCorrect(StrLe, given);
    SortedUnique(StrLe, sorted, Sort(StrLe, given));
  }

  lemma SourcesInOrder(p: Projection)
    ensures Sources(OrderedEvidence(p)) == ExpectedSources(p)
  {
    hide StrLe, Strip, Sort;
    SortedSources();
    var s := OrderedEvidence(p);
    if p.artifact.Some? {
      assert Sources(s) == EXACT_SOURCES;
    } else {
      assert Sources(s) == [COURSE_SET, INTENT_REVISION, TARGET_PERIOD];
    }
  }

  // ---- The mapping succeeds exactly behind its gate -----------------------------------

  lemma DraftIsValid(p: Projection)
    requires Eligible(p)
    ensures var d := DraftOf(p);
            ValidEntry(d)
  {
    hide Strip, EventMatches, Blank, EvidenceOf;
    var r := p.revision;
    SourceVersionsCover(r);
    TextsStrip();
    UuidIsText(r.revisionId);
    UuidIsText(r.ownerId);
    UuidIsText(r.universityId);
    NotBlank(DraftOf(p).facts.outcomeReference, 0);
  }

  lemma ValidByFacts(d: Entry, e: Entry)
    requires ValidEntry(d) && e.facts == d.facts && e.sourceVersions != []
    requires e.integrityHash == "" || IsHex64(e.integrityHash)
    ensures ValidEntry(e)
  {
    hide Blank, IsHex64;
  }

  lemma DraftCreates(p: Projection, digest: Digest)
    requires HexDigest(digest) && Eligible(p)
    ensures Create(DraftOf(p), digest).Some?
    ensures Create(DraftOf(p), digest).value.evidence == OrderedEvidence(p)
  {
    hide ValidEntry, EventMatches, ArtifactMatches, Blank, StripAll, EvidenceOf, OrderedEvidence, IsHex64, Canonical, NormalizeReferences;
    var d := DraftOf(p);
    DraftIsValid(p);
    EvidenceIsOrdered(p);
    TextsStrip();
    NormalizedTexts(d.sourceVersions);
    SourceVersionsCover(p.revision);
    StripAllKeeps(d.sourceVersions, p.revision.contractVersion);
    hide SourceVersions, Eligible;
    var entry := Entry(d.facts, NormalizeTexts(d.sourceVersions).value, NormalizeTexts(d.limitations).value, OrderedEvidence(p), "");
    ValidByFacts(d, entry);
    ValidMeansHashable(entry);
    ValidByFacts(d, entry.(integrityHash := digest(CanonicalPayload(entry))));
  }

  lemma StripAllKeeps(values: seq<string>, v: string)
    requires v in values
    ensures Strip(v) in Elements(StripAll(values))
  {
    var i :| 0 <= i < |values| && values[i] == v;
    assert StripAll(values)[i] == Strip(v);
  }

  /** Behind the gate nothing fails: the two checks the mapper makes on its own result never fire. */
  lemma MapsExactlyTheEligible(p: Projection, digest: Digest)
    requires HexDigest(digest)
    ensures Map(p, digest).Some? <==> Eligible(p)
    ensures Eligible(p) ==> Map(p, digest) == Create(DraftOf(p), digest)
  {
    hide Eligible, Create, DraftOf, ExpectedSources, OrderedEvidence;
    if Eligible(p) {
      DraftCreates(p, digest);
      CreatedEntriesVerify(DraftOf(p), digest);
      SourcesInOrder(p);
    }
  }

  /** The identity link the outbox relies on: event, revision and ledger entry share one id, the
      student is the owner, the tenant is the revision's, and nothing is superseded. */
  lemma MappedIdentity(p: Projection, digest: Digest)
    requires HexDigest(digest) && Map(p, digest).Some?
    ensures var e, r := Map(p, digest).value, p.revision;
            && p.event.Some? && e.facts.entryId == r.revisionId == p.event.value.eventId
            && e.facts.studentId.Some? && e.facts.studentId.value == r.ownerId && e.facts.universityId == r.universityId
            && e.facts.scopeType == StudentIndividual && e.facts.supersedes == None && e.facts.previousHash == None
            && e.facts.inputState == r.progressReference
            && e.evidence == OrderedEvidence(p) && VerifiedEntry(e, digest) && Normal(e)
  {
    hide Create, VerifiedEntry, Normal, EvidenceOf, OrderedEvidence, ExpectedSources, EventMatches, ArtifactMatches;
    MapsExactlyTheEligible(p, digest);
    DraftCreates(p, digest);
    CreatedEntriesVerify(DraftOf(p), digest);
    assert EventMatches(p.revision, p.created, p.event.value);
    EventNamesRevision(p.revision, p.created, p.event.value);
  }

  /** A version the revision names. */
  predicate VersionOf(r: Revision, v: string) {
    || v == r.planVersion || v == r.intentSourceVersion || v in r.catalogVersions || v in r.prerequisiteVersions
    || v == r.progressVersion || v == r.phase5Policy || v == r.phase6Policy || v == r.contractVersion
    || v == r.periodSourceVersion || v == r.noticeVersion
  }

  /** The gate, with the event and the artifact written out as the revision alone determines them: a
      submission is mapped exactly when its event is the one its revision calls for, and its artifact,
      if it has one, repeats the revision in everything but the engine and further policies. */
  lemma MapsExactlyTheConsistent(p: Projection, digest: Digest)
    requires HexDigest(digest)
    ensures Map(p, digest).Some? <==>
            var r := p.revision;
            && p.outboxRequired && r.lifecycle == Submitted && r.validation != Invalid && r.actorClass == "STUDENT_AUTHENTICATED"
            && p.created.Aware? && (forall i :: 0 <= i < |r.courses| ==> r.courses[i].selectionOrder == i + 1)
            && p.event == Some(Event(r.revisionId, r.revisionId, r.ownerId, r.universityId, r.majorId, r.planId, r.planVersion, r.periodId,
                                     r.number, "MOCK_REGISTRATION_SUBMIT", "1.0", Some(r), Some(p.created.instant)))
            && (p.artifact.Some? ==>
                  var a := p.artifact.value;
                  && (a.engineVersion == "1.0" || a.engineVersion == "2.0")
                  && r.catalogVersions == r.prerequisiteVersions && [r.phase5Policy, r.phase6Policy] <= a.policyVersions
                  && a == Artifact(true, "P6_REPLAY_ARTIFACT_V1", a.engineVersion, r.ownerId, r.universityId, r.majorId, r.planId,
                                   r.planVersion, r.catalogVersions, a.policyVersions, r.validation, r.reasonCodes, r.fingerprint,
                                   seq(|r.courses|, i requires 0 <= i < |r.courses| => r.courses[i].code)))
            && (forall v :: VersionOf(r, v) ==> !Blank(v))
  {
    MapsExactlyTheEligible(p, digest);
    hide Map, Blank, StrLe, CanonicalUuid;
    var r := p.revision;
    VersionsAre(r);
    if p.artifact.Some? {
      var a := p.artifact.value;
      assert [r.phase5Policy, r.phase6Policy] <= a.policyVersions <==>
             |a.policyVersions| >= 2 && a.policyVersions[0] == r.phase5Policy && a.policyVersions[1] == r.phase6Policy;
      assert a.courseCodes == seq(|r.courses|, i requires 0 <= i < |r.courses| => r.courses[i].code) <==>
             |a.courseCodes| == |r.courses| && forall i :: 0 <= i < |r.courses| ==> a.courseCodes[i] == r.courses[i].code;
    }
  }

  lemma VersionsAre(r: Revision)
    ensures forall v :: v in SourceVersions(r) <==> VersionOf(r, v)
  {
  }

  /** What the ledger is told about a submission, field by field: its decision status follows the
      validation, its replay status, engine version and limitations the artifact, and everything else is
      the revision's own or fixed. */
  lemma MappedFacts(p: Projection, digest: Digest)
    requires HexDigest(digest) && Map(p, digest).Some?
    ensures var f, r := Map(p, digest).value.facts, p.revision;
            && (f.decisionStatus == Validated <==> r.validation == Valid)
            && (f.decisionStatus == FlaggedReview <==> r.validation == ReviewRequired)
            && (f.replayStatus == ReplayableExact <==> p.artifact.Some?) && (f.replayStatus == ReplayStatus.NotReplayable <==> p.artifact.None?)
            && f.sourceEngineVersion == (if p.artifact.Some? then p.artifact.value.engineVersion else r.contractVersion)
            && f.sourceEngine == "P6_MOCK_REGISTRATION_VALIDATION" && f.policyVersion == r.phase6Policy
            && f.outcomeReference == "P6_NON_BINDING_INTENT:" + r.revisionId + ":"
                                     + (if r.validation == Valid then "VALID" else "REVIEW_REQUIRED") + ":" + r.fingerprint
            && f.decisionType == MockRegistrationSubmit && f.materiality == LedgerRequired
            && f.actorClass == Student && f.actorId.Some? && f.actorId.value == r.ownerId && f.scopeId == r.ownerId
            && f.inputState == r.progressReference && f.scenarioId == None && f.domainTrace == None
            && f.provenance == AuthoritativeTransaction && f.redactionProfile == StudentSafe
            && p.created.Aware? && f.createdAt == Aware(p.created.instant, 0)
            && f.hashContract == "1.0" && f.schemaVersion == "1.0"
  {
    hide Create, VerifiedEntry, Normal, EvidenceOf, ExpectedSources, ArtifactMatches, SourceVersions, CanonicalUuid;
    MapsExactlyTheEligible(p, digest);
    DraftCreates(p, digest);
    CreatedEntriesVerify(DraftOf(p), digest);
    assert EventMatches(p.revision, p.created, p.event.value);
  }

  /** The versions and limitations the ledger keeps are exactly those of the revision, trimmed, and the
      disclaimers, with the one about replay exactly when there is no artifact. */
  lemma MappedTexts(p: Projection, digest: Digest)
    requires HexDigest(digest) && Map(p, digest).Some?
    ensures var e, r := Map(p, digest).value, p.revision;
            && (forall x :: x in e.sourceVersions <==>
                  exists v :: x == Strip(v) && VersionOf(r, v))
            && (forall x :: x in e.limitations <==>
                  || x == "NON_BINDING_DECLARED_INTENT" + "_NOT_OFFICIAL_REGISTRATION"
                  || (p.artifact.None? && x == "P6_HISTORICAL_REPLAY_NOT_AVAILABLE"))
  {
    hide Create, VerifiedEntry, Normal, EvidenceOf, ExpectedSources, ArtifactMatches, EventMatches, Strip, SourceVersions, CanonicalUuid;
    MapsExactlyTheEligible(p, digest);
    DraftCreates(p, digest);
    CreatedEntriesVerify(DraftOf(p), digest);
    var e, d := Map(p, digest).value, DraftOf(p);
    VersionsAre(p.revision);
    InStripped(e.sourceVersions, SourceVersions(p.revision));
    InStripped(e.limitations, d.limitations);
    StripOfDisclaimers();
  }

  /** The evidence of a ledger entry, reference by reference. */
  lemma MappedEvidence(p: Projection, digest: Digest)
    requires HexDigest(digest) && Map(p, digest).Some?
    ensures var s, r := Map(p, digest).value.evidence, p.revision;
            && |s| == (if p.artifact.Some? then 4 else 3)
            && s[0] == Evidence("P6_INTENT_COURSE_SET", r.revisionId, Strip(r.contractVersion), None, None)
            && s[1] == Evidence("P6_INTENT_REVISION", r.revisionId, Strip(r.contractVersion), None, None)
            && (p.artifact.Some? ==> s[2] == Evidence("P6_REPLAY_ARTIFACT", r.revisionId, "P6_REPLAY_ARTIFACT_V1", None, None))
            && s[|s| - 1] == Evidence("P6_TARGET_PERIOD", r.periodId, Strip(r.periodSourceVersion), None, None)
  {
    hide Create, DraftOf, Strip, SourceVersions, CanonicalUuid, EventMatches, VerifiedEntry, Normal;
    MappedIdentity(p, digest);
    MapsExactlyTheEligible(p, digest);
    ArtifactTextStrips();
  }

  lemma ArtifactTextStrips()
    ensures Strip("P6_REPLAY_ARTIFACT_V1") == "P6_REPLAY_ARTIFACT_V1"
  {
    StripOfTrimmed("P6_REPLAY_ARTIFACT_V1");
  }

  lemma InStripped(s: seq<string>, values: seq<string>)
    requires Elements(s) == Elements(StripAll(values))
    ensures forall x :: x in s <==> exists v :: x == Strip(v) && v in values
  {
    hide Strip;
    forall x ensures x in s <==> exists v :: x == Strip(v) && v in values {
      assert x in s <==> x in Elements(s);
      if x in s {
        var i :| 0 <= i < |values| && StripAll(values)[i] == x;
        assert values[i] in values;
      }
      if v :| x == Strip(v) && v in values {
        var i :| 0 <= i < |values| && values[i] == v;
        assert StripAll(values)[i] == x;
      }
    }
  }

  lemma StripOfDisclaimers()
    ensures Strip(NON_BINDING) == NON_BINDING && Strip(NO_REPLAY) == NO_REPLAY
  {
    StripOfTrimmed(NON_BINDING);
    StripOfTrimmed(NO_REPLAY);
  }

  lemma EventNamesRevision(r: Revision, created: Timestamp, e: Event)
    requires EventMatches(r, created, e)
    ensures e.eventId == r.revisionId
  {
  }

  /** The one field of a mapped entry that storage could change is the progress state reference. */
  lemma MappedIsAppendable(p: Projection, digest: Digest)
    requires HexDigest(digest) && Map(p, digest).Some?
    ensures ReadyToAppend(Map(p, digest).value, digest) <==> StrippedOptional(p.revision.progressReference)
    ensures NoEmptyOptional(Map(p, digest).value) <==> OptionalText(p.revision.progressReference)
  {
    hide VerifiedEntry, Strip, CanonicalUuid, Create, Eligible, ExpectedSources, StripAll, StripReferences, Canonical;
    MappedIdentity(p, digest);
    MapsExactlyTheEligible(p, digest);
    OrderedEvidenceIsNormal(p);
    var e := Map(p, digest).value;
    CreatedEntriesVerify(DraftOf(p), digest);
    UuidIsText(p.revision.ownerId);
    forall r | r in e.evidence
      ensures r.source == Strip(r.source) && r.identifier == Strip(r.identifier) && r.version == Strip(r.version)
              && r.locator == None && r.uri == None
    {
      CleanIsStripped(r);
    }
  }

  lemma CleanIsStripped(r: Evidence)
    requires CleanReference(r)
    ensures r.source == Strip(r.source) && r.identifier == Strip(r.identifier) && r.version == Strip(r.version)
  {
    StripOfTrimmed(r.source);
    StripOfTrimmed(r.identifier);
    StripOfTrimmed(r.version);
  }

  /** No check of the append function and no table constraint refuses a mapped entry by itself. */
  lemma MappedIsAccepted(p: Projection, digest: Digest)
    requires HexDigest(digest) && Map(p, digest).Some?
    ensures Map(p, digest).value.facts.createdAt.Aware?
    ensures SqlAccepts(CanonicalPayload(Map(p, digest).value), Map(p, digest).value.integrityHash)
  {
    hide Strip, Btrim, Blank, Create, Eligible, EventMatches, ExpectedSources, Map, OrderedEvidence, NormalTexts, NormalEvidence,
         SqlTexts, StoredReferences, IsHex64, CanonicalUuid;
    MappedIdentity(p, digest);
    MapsExactlyTheEligible(p, digest);
    CreatedEntriesVerify(DraftOf(p), digest);
    var e := Map(p, digest).value;
    NormalTextsAreFixed(e.sourceVersions);
    NormalTextsAreFixed(e.limitations);
    NormalReferencesAreFixed(e.evidence);
    NormalIsSqlTexts(e.sourceVersions);
    NormalIsSqlTexts(e.limitations);
    NormalIsSqlEvidence(e.evidence);
    FactsAreAccepted(e);
    UuidSurvives(e.facts.studentId);
  }

  /** A mapped entry that the adapter appends comes back identical exactly when its progress state
      reference is not the empty text. */
  lemma MappedReloads(p: Projection, digest: Digest)
    requires HexDigest(digest) && Map(p, digest).Some? && StrippedOptional(p.revision.progressReference)
    ensures var e := Map(p, digest).value;
            e.facts.createdAt.Aware?
            && (LoadEntry(Persist(e).row, Persist(e).evidence, digest) == Some(e) <==> p.revision.progressReference != Some(""))
  {
    hide Create, DraftOf, ExpectedSources, Eligible, LoadEntry, Persist, ReadyToAppend, SqlAccepts, NoEmptyOptional, StrippedOptional, Map;
    MapsExactlyTheEligible(p, digest);
    MappedIsAppendable(p, digest);
    MappedIsAccepted(p, digest);
    CreatedEntryRoundTrip(DraftOf(p), digest);
  }
}
