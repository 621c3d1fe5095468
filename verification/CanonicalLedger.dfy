/** The canonical, hash-chained decision ledger entry (apps/api/app/decision_trace).

    `Digest` stands for SHA-256 over the canonical JSON of a payload; all that is known of it is
    that it yields 64 lowercase hexadecimal digits, so the results about it end in an explicit
    collision instead of assuming that there is none. A raised ValueError is `None`.
  */
module CanonicalLedger {
  import opened Wrappers
  import opened Ordering
  import opened Text

  datatype DecisionType =
    | MockRegistrationSubmit | MockRegistrationWithdraw | MockRegistrationRevalidate | AdvisorFormalGuidance
    | InstitutionalPeriodDemandSnapshot | InstitutionalBottleneckSnapshot | InstitutionalAlertTriggered
    | ChangeImpactEvaluation | FormalPolicyConsultation
    | CheckEligibility | GetProgress | GetRecommendations | GetSemesterPlans | GetDegreePaths
    | GetStudentIntelligence | CheckDelayConsequence | RunWhatIf | GetCurrentMockRegistration
    | ExplainRecommendationDecision | InstitutionalAdHocQuery | PolicyAdHocChat

  datatype Materiality = LedgerRequired | LedgerOptional | DomainTraceOnly | NotLedgered

  function MaterialityFor(t: DecisionType): Materiality {
    match t
    case MockRegistrationSubmit => LedgerRequired
    case MockRegistrationWithdraw => LedgerRequired
    case MockRegistrationRevalidate => LedgerRequired
    case AdvisorFormalGuidance => LedgerRequired
    case InstitutionalPeriodDemandSnapshot => LedgerRequired
    case InstitutionalBottleneckSnapshot => LedgerRequired
    case InstitutionalAlertTriggered => LedgerRequired
    case ChangeImpactEvaluation => LedgerRequired
    case FormalPolicyConsultation => LedgerOptional
    case InstitutionalAdHocQuery => NotLedgered
    case PolicyAdHocChat => NotLedgered
    case _ => DomainTraceOnly
  }

  datatype ActorClass = Student | AcademicAdvisor | InstitutionalAnalyst | AuthorizedAuditor | SystemScheduler | SystemEngine

  datatype DecisionStatus = Executed | Validated | RevalidatedValid | RevalidatedInvalid | Abstained | FlaggedReview | Superseded

  datatype RedactionProfile = StudentSafe | AdvisorSafe | AggregateAnalyst | FullAudit | PublicRedacted

  datatype ReplayStatus = ReplayableExact | ReplayableCurrentOnly | NotReplayable

  datatype SubjectScope = StudentIndividual | InstitutionalPeriod | CurricularProgram | PolicyDocument

  datatype Provenance = AuthoritativeTransaction | VerifiedRevalidation | PeriodSnapshot | GovernedAssessment

  /** An instant in microseconds with its UTC offset, or a datetime without a time zone. */
  datatype Timestamp = Naive(wall: int) | Aware(instant: int, offset: int)

  datatype Evidence = Evidence(source: string, identifier: string, version: string,
                               locator: Option<string>, uri: Option<string>)

  /** The single-valued fields of an entry, its hash apart. */
  datatype Facts = Facts(entryId: string, decisionType: DecisionType, materiality: Materiality,
                         actorClass: ActorClass, actorId: Option<string>,
                         scopeType: SubjectScope, scopeId: string, universityId: string, studentId: Option<string>,
                         sourceEngine: string, sourceEngineVersion: string, policyVersion: string,
                         inputState: Option<string>, scenarioId: Option<string>,
                         decisionStatus: DecisionStatus, outcomeReference: string, domainTrace: Option<string>,
                         provenance: Provenance, createdAt: Timestamp, redactionProfile: RedactionProfile,
                         previousHash: Option<string>, supersedes: Option<string>, replayStatus: ReplayStatus,
                         hashContract: string, schemaVersion: string)

  datatype Entry = Entry(facts: Facts, sourceVersions: seq<string>, limitations: seq<string>,
                         evidence: seq<Evidence>, integrityHash: string)

  /** What is hashed: every field but the hash itself, the instant in UTC, the lists in order. */
  datatype Payload = Payload(facts: Facts, sourceVersions: seq<string>, limitations: seq<string>, evidence: seq<Evidence>)

  type Digest = Payload -> string

  const CONTRACT_VERSION := "1.0"

  predicate IsHex64(s: string) {
    |s| == 64 && forall i :: 0 <= i < 64 ==> '0' <= s[i] <= '9' || 'a' <= s[i] <= 'f'
  }

  lemma HashShape(s: string)
    ensures IsHex64(s) <==> |s| == 64 && forall c :: c in s ==> c in "0123456789abcdef"
  {
    var digits := "0123456789abcdef";
    forall c: char | '0' <= c <= '9' || 'a' <= c <= 'f' ensures c in digits {
      var k := if c <= '9' then c as int - '0' as int else 10 + c as int - 'a' as int;
      assert digits[k] == c;
    }
    if |s| == 64 && forall c :: c in s ==> c in digits {
      forall i | 0 <= i < 64 ensures '0' <= s[i] <= '9' || 'a' <= s[i] <= 'f' { assert s[i] in s; }
    }
  }

  ghost predicate HexDigest(digest: Digest) {
    forall p :: IsHex64(digest(p))
  }

  // ---- Order of evidence --------------------------------------------------------------

  function OrEmpty(o: Option<string>): string { if o.Some? then o.value else "" }

  function EvidenceKey(e: Evidence): seq<string> {
    [e.source, e.identifier, e.version, OrEmpty(e.locator), OrEmpty(e.uri)]
  }

  predicate EvidenceLe(a: Evidence, b: Evidence) { LexLe(StrLe, EvidenceKey(a), EvidenceKey(b)) }

  /** Evidence is ordered by source, then identifier, version, locator and address, an absent locator or
      address coming where an empty one would. */
  lemma EvidenceOrder(a: Evidence, b: Evidence)
    ensures EvidenceLe(a, b) <==>
            if a.source != b.source then StrLe(a.source, b.source)
            else if a.identifier != b.identifier then StrLe(a.identifier, b.identifier)
            else if a.version != b.version then StrLe(a.version, b.version)
            else
              var la, lb := if a.locator.Some? then a.locator.value else "", if b.locator.Some? then b.locator.value else "";
              var ua, ub := if a.uri.Some? then a.uri.value else "", if b.uri.Some? then b.uri.value else "";
              if la != lb then StrLe(la, lb) else StrLe(ua, ub)
  {
    var ka, kb := EvidenceKey(a), EvidenceKey(b);
    hide StrLe;
    StrLeIsTotalOrder();
    KeyStep(ka, kb);
    KeyStep(ka[1..], kb[1..]);
    KeyStep(ka[1..][1..], kb[1..][1..]);
    KeyStep(ka[1..][1..][1..], kb[1..][1..][1..]);
    KeyStep(ka[1..][1..][1..][1..], kb[1..][1..][1..][1..]);
  }

  lemma KeyStep(a: seq<string>, b: seq<string>)
    requires a != [] && b != []
    ensures LexLe(StrLe, a, b) <==> if a[0] == b[0] then LexLe(StrLe, a[1..], b[1..]) else StrLe(a[0], b[0])
  {
  }

  lemma EvidenceLeIsPreorder()
    ensures Preorder(EvidenceLe)
    ensures forall a, b :: EvidenceLe(a, b) && EvidenceLe(b, a) ==> EvidenceKey(a) == EvidenceKey(b)
  {
    hide StrLe, LexLe;
    StrLeIsTotalOrder();
    forall a, b ensures (EvidenceLe(a, b) || EvidenceLe(b, a))
                        && (EvidenceLe(a, b) && EvidenceLe(b, a) ==> EvidenceKey(a) == EvidenceKey(b)) {
      LexTotal(StrLe, EvidenceKey(a), EvidenceKey(b));
    }
    forall a, b, c | EvidenceLe(a, b) && EvidenceLe(b, c) ensures EvidenceLe(a, c) {
      LexTransitive(StrLe, EvidenceKey(a), EvidenceKey(b), EvidenceKey(c));
    }
  }

  // ---- Normal forms -------------------------------------------------------------------

  predicate CleanText(s: string) { s != "" && Trimmed(s) }

  predicate CleanOptional(o: Option<string>) { o.Some? ==> CleanText(o.value) }

  predicate CleanReference(e: Evidence) {
    CleanText(e.source) && CleanText(e.identifier) && CleanText(e.version) && CleanOptional(e.locator) && CleanOptional(e.uri)
  }

  ghost predicate NormalTexts(s: seq<string>) {
    (forall x :: x in s ==> CleanText(x)) && Sorted(StrLe, s) && Distinct(s)
  }

  ghost predicate NormalEvidence(s: seq<Evidence>) {
    (forall x :: x in s ==> CleanReference(x)) && Sorted(EvidenceLe, s) && Distinct(s)
  }

  ghost predicate Normal(e: Entry) {
    NormalTexts(e.sourceVersions) && NormalTexts(e.limitations) && NormalEvidence(e.evidence)
  }

  function StripAll(values: seq<string>): seq<string> {
    seq(|values|, i requires 0 <= i < |values| => Strip(values[i]))
  }

  /** `_normalize_strings`. */
  function NormalizeTexts(values: seq<string>): Option<seq<string>> {
    if exists v :: v in values && Blank(v) then None
    else Some(Canonical(StrLe, StripAll(values)))
  }

  function StripOptional(o: Option<string>): Option<string> {
    if o.Some? && !Blank(o.value) then Some(Strip(o.value)) else None
  }

  function StripReference(e: Evidence): Evidence {
    Evidence(Strip(e.source), Strip(e.identifier), Strip(e.version), StripOptional(e.locator), StripOptional(e.uri))
  }

  predicate BlankReference(e: Evidence) { Blank(e.source) || Blank(e.identifier) || Blank(e.version) }

  function StripReferences(values: seq<Evidence>): seq<Evidence> {
    seq(|values|, i requires 0 <= i < |values| => StripReference(values[i]))
  }

  function NormalizeReferences(values: seq<Evidence>): Option<seq<Evidence>> {
    if exists v :: v in values && BlankReference(v) then None
    else Some(Canonical(EvidenceLe, StripReferences(values)))
  }

  lemma StripReferenceIsClean(e: Evidence)
    requires !BlankReference(e)
    ensures CleanReference(StripReference(e))
  {
    StripIsTrimmed(e.source);
    StripIsTrimmed(e.identifier);
    StripIsTrimmed(e.version);
    if e.locator.Some? { StripIsTrimmed(e.locator.value); }
    if e.uri.Some? { StripIsTrimmed(e.uri.value); }
  }

  lemma StripOfCleanReference(e: Evidence)
    requires CleanReference(e)
    ensures StripReference(e) == e && !BlankReference(e)
  {
  }

  /** Clean references tie only when they are equal: an absent locator cannot meet an empty one. */
  lemma CleanReferencesHaveNoTies(s: seq<Evidence>)
    requires forall x :: x in s ==> CleanReference(x)
    ensures NoTies(EvidenceLe, s)
  {
    hide EvidenceLe;
    EvidenceLeIsPreorder();
    forall x, y | x in s && y in s && EvidenceLe(x, y) && EvidenceLe(y, x) ensures x == y {
      var kx, ky := EvidenceKey(x), EvidenceKey(y);
      assert kx[0] == ky[0] && kx[1] == ky[1] && kx[2] == ky[2] && kx[3] == ky[3] && kx[4] == ky[4];
    }
  }

  lemma NormalizedTexts(values: seq<string>)
    requires NormalizeTexts(values).Some?
    ensures NormalTexts(NormalizeTexts(values).value)
    ensures Elements(NormalizeTexts(values).value) == Elements(StripAll(values))
  {
    StrLeIsTotalOrder();
    CanonicalCorrect(StrLe, StripAll(values));
    var r := NormalizeTexts(values).value;
    forall x | x in r ensures CleanText(x) {
      assert x in Elements(StripAll(values));
      var i :| 0 <= i < |values| && StripAll(values)[i] == x;
      StripIsTrimmed(values[i]);
      assert values[i] in values;
    }
  }

  lemma NormalizedReferences(values: seq<Evidence>)
    requires NormalizeReferences(values).Some?
    ensures NormalEvidence(NormalizeReferences(values).value)
    ensures Elements(NormalizeReferences(values).value) == Elements(StripReferences(values))
  {
    hide EvidenceLe, StripReference, CleanReference, BlankReference;
    EvidenceLeIsPreorder();
    CanonicalCorrect(EvidenceLe, StripReferences(values));
    var r := NormalizeReferences(values).value;
    forall x | x in r ensures CleanReference(x) {
      assert x in Elements(StripReferences(values));
      var i :| 0 <= i < |values| && StripReferences(values)[i] == x;
      assert values[i] in values;
      StripReferenceIsClean(values[i]);
    }
  }

  /** Normalising normal lists changes nothing. */
  lemma NormalTextsAreFixed(s: seq<string>)
    requires NormalTexts(s)
    ensures NormalizeTexts(s) == Some(s) && Sort(StrLe, s) == s
  {
    StrLeIsTotalOrder();
    forall i | 0 <= i < |s| ensures Strip(s[i]) == s[i] {
      assert s[i] in s;
      StripOfTrimmed(s[i]);
    }
    assert StripAll(s) == s;
    CanonicalOfCanonical(StrLe, s);
    SortIsIdentityWhenSorted(StrLe, s);
  }

  lemma NormalReferencesAreFixed(s: seq<Evidence>)
    requires NormalEvidence(s)
    ensures NormalizeReferences(s) == Some(s) && Sort(EvidenceLe, s) == s
  {
    hide EvidenceLe, StripReference, CleanReference, BlankReference;
    EvidenceLeIsPreorder();
    forall i | 0 <= i < |s| ensures StripReference(s[i]) == s[i] {
      assert s[i] in s;
      StripOfCleanReference(s[i]);
    }
    assert StripReferences(s) == s;
    forall x | x in s ensures !BlankReference(x) { StripOfCleanReference(x); }
    CanonicalOfCanonical(EvidenceLe, s);
    SortIsIdentityWhenSorted(EvidenceLe, s);
  }

  /** `_normalize_evidence`: one pass that keeps first occurrences of clean references, then a sort. */
  method NormalizeEvidenceReferences(values: seq<Evidence>) returns (r: Option<seq<Evidence>>)
    ensures r == NormalizeReferences(values)
  {
    var out: seq<Evidence>, i := [], 0;
    assert StripReferences(values[..0]) == [];
    while i < |values|
      invariant 0 <= i <= |values|
      invariant out == Dedup(StripReferences(values[..i]))
      invariant forall v :: v in values[..i] ==> !BlankReference(v)
    {
      if BlankReference(values[i]) {
        assert values[i] in values;
        return None;
      }
      var clean := StripReference(values[i]);
      var next := StripReferences(values[..i + 1]);
      assert next[..|next| - 1] == StripReferences(values[..i]) && next[|next| - 1] == clean;
      if clean !in out { out := out + [clean]; }
      i := i + 1;
    }
    assert values[..i] == values;
    r := Some(Sort(EvidenceLe, out));
  }

  // ---- Validation, payload, hash ------------------------------------------------------

  predicate ValidEntry(e: Entry) {
    var f := e.facts;
    && !Blank(f.entryId) && !Blank(f.scopeId) && !Blank(f.universityId) && !Blank(f.sourceEngine)
    && !Blank(f.sourceEngineVersion) && !Blank(f.policyVersion) && !Blank(f.outcomeReference)
    && f.hashContract == CONTRACT_VERSION && f.schemaVersion == CONTRACT_VERSION
    && f.materiality == MaterialityFor(f.decisionType)
    && f.createdAt.Aware? && f.createdAt.offset == 0
    && (f.scopeType == StudentIndividual ==> f.studentId.Some? && !Blank(f.studentId.value))
    && (f.scopeType == InstitutionalPeriod ==> f.studentId.None?)
    && (f.provenance == AuthoritativeTransaction ==> f.scenarioId.None?)
    && f.supersedes != Some(f.entryId)
    && (e.integrityHash != "" ==> IsHex64(e.integrityHash))
    && (f.previousHash.Some? ==> IsHex64(f.previousHash.value))
    && e.sourceVersions != []
  }

  function CanonicalPayload(e: Entry): Payload
    requires e.facts.createdAt.Aware?
  {
    Payload(e.facts.(createdAt := Aware(e.facts.createdAt.instant, 0)),
            Sort(StrLe, e.sourceVersions), Sort(StrLe, e.limitations), Sort(EvidenceLe, e.evidence))
  }

  function IntegrityHash(e: Entry, digest: Digest): Option<string> {
    if e.facts.hashContract != CONTRACT_VERSION || e.facts.createdAt.Naive? then None
    else Some(digest(CanonicalPayload(e)))
  }

  datatype IntegrityStatus = Verified | TamperDetected | MalformedHash | MissingHash

  function VerifyIntegrityHash(e: Entry, digest: Digest): Option<IntegrityStatus> {
    if e.integrityHash == "" then Some(MissingHash)
    else if !IsHex64(e.integrityHash) then Some(MalformedHash)
    else
      var h := IntegrityHash(e, digest);
      if h.None? then None else Some(if e.integrityHash == h.value then Verified else TamperDetected)
  }

  /** The gate in front of every append and behind every load. */
  predicate VerifiedEntry(e: Entry, digest: Digest) {
    ValidEntry(e) && VerifyIntegrityHash(e, digest) == Some(Verified)
  }

  // ---- Creation -----------------------------------------------------------------------

  /** The entry a caller describes: `create_canonical_ledger_entry(**kwargs)`. */
  function Create(draft: Entry, digest: Digest): Option<Entry> {
    var sources := NormalizeTexts(draft.sourceVersions);
    var limits := NormalizeTexts(draft.limitations);
    var evidence := NormalizeReferences(draft.evidence);
    if sources.None? || limits.None? || evidence.None? then None
    else
      var entry := Entry(draft.facts, sources.value, limits.value, evidence.value, draft.integrityHash);
      if !ValidEntry(entry) then None
      else
        var final := entry.(integrityHash := digest(CanonicalPayload(entry)));
        if ValidEntry(final) then Some(final) else None
  }

  /** An entry is created exactly when its texts and references are usable, its required texts are not
      blank, it names the current contracts and the materiality of its type, it was created at a UTC
      instant, and its subject, provenance, predecessor and hashes are consistent. */
  lemma CreatesExactly(draft: Entry, digest: Digest)
    requires HexDigest(digest)
    ensures Create(draft, digest).Some? <==>
            var f := draft.facts;
            && draft.sourceVersions != [] && (forall v :: v in draft.sourceVersions || v in draft.limitations ==> !Blank(v))
            && (forall r :: r in draft.evidence ==> !Blank(r.source) && !Blank(r.identifier) && !Blank(r.version))
            && !Blank(f.entryId) && !Blank(f.scopeId) && !Blank(f.universityId) && !Blank(f.sourceEngine)
            && !Blank(f.sourceEngineVersion) && !Blank(f.policyVersion) && !Blank(f.outcomeReference)
            && f.hashContract == "1.0" && f.schemaVersion == "1.0" && f.materiality == MaterialityFor(f.decisionType)
            && (exists instant :: f.createdAt == Aware(instant, 0))
            && (f.scopeType == StudentIndividual ==> f.studentId.Some? && !Blank(f.studentId.value))
            && (f.scopeType == InstitutionalPeriod ==> f.studentId.None?)
            && (f.provenance == AuthoritativeTransaction ==> f.scenarioId.None?)
            && f.supersedes != Some(f.entryId)
            && (draft.integrityHash == "" || IsHex64(draft.integrityHash))
            && (f.previousHash.Some? ==> IsHex64(f.previousHash.value))
  {
    hide Blank, IsHex64, StripAll, StripReferences, Canonical, MaterialityFor, CanonicalPayload;
    NormalizesNonempty(draft.sourceVersions);
    if draft.facts.createdAt.Aware? && draft.facts.createdAt.offset == 0 {
      assert draft.facts.createdAt == Aware(draft.facts.createdAt.instant, 0);
    }
  }

  lemma NormalizesNonempty(values: seq<string>)
    ensures NormalizeTexts(values).Some? ==> (NormalizeTexts(values).value == [] <==> values == [])
  {
    if NormalizeTexts(values).Some? {
      NormalizedTexts(values);
      var r := NormalizeTexts(values).value;
      if values != [] { assert StripAll(values)[0] in Elements(StripAll(values)); }
      if r != [] { assert r[0] in Elements(r); }
    }
  }

  /** What each verdict of the hash check says of an entry that can be hashed. */
  lemma VerdictsTell(e: Entry, digest: Digest)
    requires HexDigest(digest) && e.facts.hashContract == CONTRACT_VERSION && e.facts.createdAt.Aware?
    ensures var verdict := VerifyIntegrityHash(e, digest);
            && verdict.Some?
            && (verdict.value == Verified <==> e.integrityHash == digest(CanonicalPayload(e)))
            && (verdict.value == MissingHash <==> e.integrityHash == "")
            && (verdict.value == MalformedHash <==> e.integrityHash != "" && !IsHex64(e.integrityHash))
            && (verdict.value == TamperDetected <==> IsHex64(e.integrityHash) && e.integrityHash != digest(CanonicalPayload(e)))
  {
    assert IsHex64(digest(CanonicalPayload(e)));
    hide CanonicalPayload;
  }

  /** The decisions that must, may and must not be ledgered. */
  lemma MaterialityExactly(t: DecisionType)
    ensures MaterialityFor(t) == LedgerRequired <==>
            t in {MockRegistrationSubmit, MockRegistrationWithdraw, MockRegistrationRevalidate, AdvisorFormalGuidance,
                  InstitutionalPeriodDemandSnapshot, InstitutionalBottleneckSnapshot, InstitutionalAlertTriggered, ChangeImpactEvaluation}
    ensures MaterialityFor(t) == LedgerOptional <==> t == FormalPolicyConsultation
    ensures MaterialityFor(t) == NotLedgered <==> t in {InstitutionalAdHocQuery, PolicyAdHocChat}
  {
  }

  method CreateCanonicalLedgerEntry(draft: Entry, digest: Digest) returns (r: Option<Entry>)
    ensures r == Create(draft, digest)
  {
    var kwargs := draft;
    var sources := NormalizeTexts(kwargs.sourceVersions);
    if sources.None? { return None; }
    kwargs := kwargs.(sourceVersions := sources.value);
    var limits := NormalizeTexts(kwargs.limitations);
    if limits.None? { return None; }
    kwargs := kwargs.(limitations := limits.value);
    var evidence := NormalizeEvidenceReferences(kwargs.evidence);
    if evidence.None? { return None; }
    kwargs := kwargs.(evidence := evidence.value);
    if !ValidEntry(kwargs) { return None; }
    var hash := IntegrityHash(kwargs, digest);
    var final := kwargs.(integrityHash := hash.value);
    if !ValidEntry(final) { return None; }
    r := Some(final);
  }

  /** Everything this function returns is normal, valid and verifies, and says what was asked. */
  lemma CreatedEntriesVerify(draft: Entry, digest: Digest)
    requires HexDigest(digest) && Create(draft, digest).Some?
    ensures var e := Create(draft, digest).value;
            && Normal(e) && VerifiedEntry(e, digest) && e.facts == draft.facts
            && Elements(e.sourceVersions) == Elements(StripAll(draft.sourceVersions))
            && Elements(e.limitations) == Elements(StripAll(draft.limitations))
            && Elements(e.evidence) == Elements(StripReferences(draft.evidence))
  {
    hide StripAll, StripReferences, Canonical, ValidEntry, IsHex64;
    var e := Create(draft, digest).value;
    NormalizedTexts(draft.sourceVersions);
    NormalizedTexts(draft.limitations);
    NormalizedReferences(draft.evidence);
    ValidMeansHashable(e);
    assert IsHex64(e.integrityHash);
    HexIsNotEmpty(e.integrityHash);
  }

  lemma ValidMeansHashable(e: Entry)
    requires ValidEntry(e)
    ensures e.facts.createdAt.Aware? && e.facts.createdAt.offset == 0 && e.facts.hashContract == CONTRACT_VERSION
  {
  }

  lemma HexIsNotEmpty(s: string)
    requires IsHex64(s)
    ensures s != ""
  {
  }

  /** Creating an entry again from its own fields gives it back, hash and all. */
  lemma RecreationIsFixedPoint(draft: Entry, digest: Digest)
    requires HexDigest(digest) && Create(draft, digest).Some?
    ensures Create(Create(draft, digest).value, digest) == Create(draft, digest)
  {
    hide StripAll, StripReferences, Canonical, IsHex64;
    CreatedEntriesVerify(draft, digest);
    var e := Create(draft, digest).value;
    NormalTextsAreFixed(e.sourceVersions);
    NormalTextsAreFixed(e.limitations);
    NormalReferencesAreFixed(e.evidence);
  }

  /** Same facts, and the same texts and references once stripped, whatever their order, padding
      and repetition. */
  ghost predicate SameMeaning(a: Entry, b: Entry) {
    && a.facts == b.facts
    && Elements(StripAll(a.sourceVersions)) == Elements(StripAll(b.sourceVersions))
    && Elements(StripAll(a.limitations)) == Elements(StripAll(b.limitations))
    && Elements(StripReferences(a.evidence)) == Elements(StripReferences(b.evidence))
  }

  lemma TextsByElements(a: seq<string>, b: seq<string>)
    requires Elements(StripAll(a)) == Elements(StripAll(b))
    ensures NormalizeTexts(a) == NormalizeTexts(b)
  {
    StrLeIsTotalOrder();
    BlankTexts(a);
    BlankTexts(b);
    CanonicalUnique(StrLe, StripAll(a), StripAll(b));
  }

  lemma BlankTexts(a: seq<string>)
    ensures (exists v :: v in a && Blank(v)) <==> "" in Elements(StripAll(a))
  {
    if v :| v in a && Blank(v) {
      var i :| 0 <= i < |a| && a[i] == v;
      assert StripAll(a)[i] == "";
    }
    if "" in StripAll(a) {
      var i :| 0 <= i < |a| && StripAll(a)[i] == "";
      assert a[i] in a && Blank(a[i]);
    }
  }

  predicate NamesNothing(e: Evidence) { e.source == "" || e.identifier == "" || e.version == "" }

  lemma BlankReferences(a: seq<Evidence>)
    ensures (exists v :: v in a && BlankReference(v)) <==> exists e :: e in Elements(StripReferences(a)) && NamesNothing(e)
  {
    if v :| v in a && BlankReference(v) {
      var i :| 0 <= i < |a| && a[i] == v;
      assert StripReferences(a)[i] in Elements(StripReferences(a)) && NamesNothing(StripReferences(a)[i]);
    }
    if e :| e in StripReferences(a) && NamesNothing(e) {
      var i :| 0 <= i < |a| && StripReferences(a)[i] == e;
      assert a[i] in a && BlankReference(a[i]);
    }
  }

  lemma ReferencesByElements(a: seq<Evidence>, b: seq<Evidence>)
    requires Elements(StripReferences(a)) == Elements(StripReferences(b))
    ensures NormalizeReferences(a) == NormalizeReferences(b)
  {
    hide EvidenceLe, StripReference, BlankReference, CleanReference, NamesNothing;
    EvidenceLeIsPreorder();
    BlankReferences(a);
    BlankReferences(b);
    if NormalizeReferences(a).Some? {
      var s := StripReferences(a);
      forall x | x in s ensures CleanReference(x) {
        var i :| 0 <= i < |a| && s[i] == x;
        assert a[i] in a;
        StripReferenceIsClean(a[i]);
      }
      CleanReferencesHaveNoTies(s);
      CanonicalUnique(EvidenceLe, s, StripReferences(b));
    }
  }

  /** Reordering, repeating or padding source versions, limitations and evidence gives the
      identical entry with the identical hash; and nothing else does. */
  lemma CreationIsCanonical(a: Entry, b: Entry, digest: Digest)
    requires HexDigest(digest) && a.integrityHash == b.integrityHash
    ensures SameMeaning(a, b) ==> Create(a, digest) == Create(b, digest)
    ensures Create(a, digest).Some? && Create(a, digest) == Create(b, digest) ==> SameMeaning(a, b)
  {
    hide StripAll, StripReferences, NormalizeTexts, NormalizeReferences, ValidEntry;
    if SameMeaning(a, b) {
      TextsByElements(a.sourceVersions, b.sourceVersions);
      TextsByElements(a.limitations, b.limitations);
      ReferencesByElements(a.evidence, b.evidence);
    }
    if Create(a, digest).Some? && Create(a, digest) == Create(b, digest) {
      CreatedEntriesVerify(a, digest);
      CreatedEntriesVerify(b, digest);
    }
  }

  // ---- What a hash pins down ----------------------------------------------------------

  ghost predicate Collision(digest: Digest, p: Payload, q: Payload) {
    p != q && digest(p) == digest(q)
  }

  /** For valid normal entries the payload is the whole entry but its hash. */
  lemma PayloadDeterminesEntry(a: Entry, b: Entry)
    requires ValidEntry(a) && ValidEntry(b) && Normal(a) && Normal(b)
    ensures CanonicalPayload(a) == CanonicalPayload(b) <==> a == b.(integrityHash := a.integrityHash)
  {
    hide NormalTexts, NormalEvidence;
    ValidMeansHashable(a);
    ValidMeansHashable(b);
    hide ValidEntry;
    NormalTextsAreFixed(a.sourceVersions);
    NormalTextsAreFixed(a.limitations);
    NormalReferencesAreFixed(a.evidence);
    NormalTextsAreFixed(b.sourceVersions);
    NormalTextsAreFixed(b.limitations);
    NormalReferencesAreFixed(b.evidence);
  }

  /** Two verified entries with one hash are one entry, unless the digest collides. */
  lemma HashDeterminesEntry(a: Entry, b: Entry, digest: Digest)
    requires VerifiedEntry(a, digest) && VerifiedEntry(b, digest) && Normal(a) && Normal(b)
    requires a.integrityHash == b.integrityHash
    ensures a == b || Collision(digest, CanonicalPayload(a), CanonicalPayload(b))
  {
    hide Normal, ValidEntry, CanonicalPayload;
    ValidMeansHashable(a);
    ValidMeansHashable(b);
    PayloadDeterminesEntry(a, b);
  }

  // ---- Supersession chains ------------------------------------------------------------

  /** `create_superseding_entry`: `revised` carries the previous entry's fields after any changes
      the caller asks for; the four link fields are always overwritten. */
  function Supersede(previous: Entry, newId: string, revised: Entry, digest: Digest): Option<Entry> {
    if newId == previous.facts.entryId then None
    else
      Create(revised.(facts := revised.facts.(entryId := newId, supersedes := Some(previous.facts.entryId),
                                              previousHash := Some(previous.integrityHash)),
                      integrityHash := ""), digest)
  }

  ghost predicate Link(previous: Entry, next: Entry) {
    next.facts.previousHash == Some(previous.integrityHash) && next.facts.supersedes == Some(previous.facts.entryId)
  }

  /** Root first: verified entries, each naming its predecessor's identity and hash. */
  ghost predicate Chain(c: seq<Entry>, digest: Digest) {
    && c != [] && c[0].facts.previousHash == None
    && (forall i :: 0 <= i < |c| ==> VerifiedEntry(c[i], digest) && Normal(c[i]))
    && (forall i :: 0 < i < |c| ==> Link(c[i - 1], c[i]))
  }

  lemma SupersedingExtendsChain(c: seq<Entry>, newId: string, revised: Entry, digest: Digest)
    requires HexDigest(digest) && Chain(c, digest)
    requires Supersede(c[|c| - 1], newId, revised, digest).Some?
    ensures Chain(c + [Supersede(c[|c| - 1], newId, revised, digest).value], digest)
    ensures var last, next := c[|c| - 1], Supersede(c[|c| - 1], newId, revised, digest).value;
            && newId != last.facts.entryId
            && next.facts == revised.facts.(entryId := newId, supersedes := Some(last.facts.entryId), previousHash := Some(last.integrityHash))
            && Elements(next.sourceVersions) == Elements(StripAll(revised.sourceVersions))
            && Elements(next.limitations) == Elements(StripAll(revised.limitations))
            && Elements(next.evidence) == Elements(StripReferences(revised.evidence))
  {
    hide Create, VerifiedEntry, Normal;
    var last := c[|c| - 1];
    var draft := revised.(facts := revised.facts.(entryId := newId, supersedes := Some(last.facts.entryId),
                                                  previousHash := Some(last.integrityHash)), integrityHash := "");
    CreatedEntriesVerify(draft, digest);
  }

  ghost predicate CollisionBetween(a: seq<Entry>, b: seq<Entry>, digest: Digest) {
    exists x, y :: && x in a && y in b && x.facts.createdAt.Aware? && y.facts.createdAt.Aware?
                   && Collision(digest, CanonicalPayload(x), CanonicalPayload(y))
  }

  /** The head's hash pins down the whole history: two chains with equal head hashes are equal
      entry by entry down to the root, unless two of their payloads collide. */
  lemma {:induction false} HeadHashDeterminesHistory(a: seq<Entry>, b: seq<Entry>, digest: Digest)
    requires Chain(a, digest) && Chain(b, digest)
    requires a[|a| - 1].integrityHash == b[|b| - 1].integrityHash
    ensures a == b || CollisionBetween(a, b, digest)
  {
    hide VerifiedEntry, Normal, CanonicalPayload, Collision, Chain, Link;
    ChainHead(a, digest);
    ChainHead(b, digest);
    var x, y := a[|a| - 1], b[|b| - 1];
    HashDeterminesEntry(x, y, digest);
    if x != y {
      assert x in a && y in b;
    } else if |a| > 1 {
      HeadHashDeterminesHistory(a[..|a| - 1], b[..|b| - 1], digest);
      assert a == a[..|a| - 1] + [x] && b == b[..|b| - 1] + [y];
      if CollisionBetween(a[..|a| - 1], b[..|b| - 1], digest) {
        CollisionWidens(a[..|a| - 1], x, b[..|b| - 1], y, digest);
      }
    } else {
      assert a == [x] && b == [y];
    }
  }

  /** The head of a chain says whether there is more of it, and with which hash it goes on. */
  lemma ChainHead(c: seq<Entry>, digest: Digest)
    requires Chain(c, digest)
    ensures c != []
    ensures var head := c[|c| - 1];
            && VerifiedEntry(head, digest) && Normal(head) && head.facts.createdAt.Aware?
            && head.facts.previousHash == if |c| == 1 then None else Some(c[|c| - 2].integrityHash)
    ensures |c| > 1 ==> Chain(c[..|c| - 1], digest)
  {
    hide VerifiedEntry, Normal;
    VerifiedIsHashable(c[|c| - 1], digest);
    if |c| > 1 { assert Link(c[|c| - 2], c[|c| - 1]); }
  }

  lemma VerifiedIsHashable(e: Entry, digest: Digest)
    requires VerifiedEntry(e, digest)
    ensures e.facts.createdAt.Aware?
  {
  }

  lemma CollisionWidens(a: seq<Entry>, x: Entry, b: seq<Entry>, y: Entry, digest: Digest)
    requires CollisionBetween(a, b, digest)
    ensures CollisionBetween(a + [x], b + [y], digest)
  {
    hide CanonicalPayload, Collision;
    var p, q :| && p in a && q in b && p.facts.createdAt.Aware? && q.facts.createdAt.Aware?
                && Collision(digest, CanonicalPayload(p), CanonicalPayload(q));
    assert p in a + [x] && q in b + [y];
  }
}
