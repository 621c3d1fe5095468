/** Writing an entry to the ledger tables and reading it back
    (apps/api/app/decision_trace_persistence/repository.py and the append function and constraints
    of supabase/migrations/20260924163500_add_decision_trace_ledger.sql).
  */
module LedgerStorage {
  import opened Wrappers
  import opened Ordering
  import opened Text
  import opened CanonicalLedger

  const MAX_EVIDENCE := 1000

  /** The columns of `decision_trace_ledger`. */
  datatype Row = Row(facts: Facts, sourceVersions: seq<string>, limitations: seq<string>, integrityHash: string)

  /** The columns of `decision_trace_evidence` as a response carries them; any may be null. */
  datatype EvidenceRow = EvidenceRow(entryId: Option<string>, position: Option<int>,
                                     source: Option<string>, identifier: Option<string>, version: Option<string>,
                                     locator: Option<string>, uri: Option<string>)

  datatype Stored = Stored(row: Row, evidence: seq<EvidenceRow>)

  // ---- Before the append --------------------------------------------------------------

  predicate HexLower(c: char) { '0' <= c <= '9' || 'a' <= c <= 'f' }

  /** `str(UUID(value)) == value`. */
  predicate CanonicalUuid(s: string) {
    && |s| == 36
    && forall i :: 0 <= i < 36 ==> if i in {8, 13, 18, 23} then s[i] == '-' else HexLower(s[i])
  }

  predicate StrippedOptional(o: Option<string>) { o.Some? ==> o.value == Strip(o.value) }

  /** `_require_storage_round_trip_safe`. */
  predicate RoundTripSafe(e: Entry) {
    var f := e.facts;
    && StrippedOptional(f.actorId) && StrippedOptional(f.inputState) && StrippedOptional(f.scenarioId)
    && StrippedOptional(f.domainTrace) && StrippedOptional(f.previousHash) && StrippedOptional(f.supersedes)
    && CanonicalUuid(f.universityId) && (f.studentId.Some? ==> CanonicalUuid(f.studentId.value))
    && forall r :: r in e.evidence ==>
         r.source == Strip(r.source) && r.identifier == Strip(r.identifier) && r.version == Strip(r.version)
         && StrippedOptional(r.locator) && StrippedOptional(r.uri)
  }

  /** Everything `append` checks before it calls the database. */
  predicate ReadyToAppend(e: Entry, digest: Digest) {
    VerifiedEntry(e, digest) && RoundTripSafe(e) && |e.evidence| <= MAX_EVIDENCE
  }

  // ---- The append function ------------------------------------------------------------

  /** `nullif(btrim(value), '')`. */
  function NullIfBlank(o: Option<string>): Option<string> {
    if o.Some? && Btrim(o.value) != "" then Some(Btrim(o.value)) else None
  }

  predicate SqlTexts(values: seq<string>) {
    && (forall i, j :: 0 <= i < j < |values| ==> StrLe(values[i], values[j]) && values[i] != values[j])
    && forall v :: v in values ==> Btrim(v) != ""
  }

  function StoredReference(r: Evidence): Evidence {
    Evidence(Btrim(r.source), Btrim(r.identifier), Btrim(r.version), NullIfBlank(r.locator), NullIfBlank(r.uri))
  }

  function StoredReferences(refs: seq<Evidence>): seq<Evidence> {
    seq(|refs|, i requires 0 <= i < |refs| => StoredReference(refs[i]))
  }

  /** The checks of the function and of the table constraints that concern one entry alone. */
  predicate SqlAccepts(p: Payload, hash: string) {
    var f := p.facts;
    && p.sourceVersions != [] && SqlTexts(p.sourceVersions) && SqlTexts(p.limitations)
    && (forall r :: r in p.evidence ==> Btrim(r.source) != "" && Btrim(r.identifier) != "" && Btrim(r.version) != "")
    && Distinct(StoredReferences(p.evidence))
    && Btrim(f.entryId) != "" && Btrim(f.scopeId) != "" && Btrim(f.sourceEngine) != "" && Btrim(f.sourceEngineVersion) != ""
    && Btrim(f.policyVersion) != "" && Btrim(f.outcomeReference) != ""
    && IsHex64(hash) && (NullIfBlank(f.previousHash).Some? ==> IsHex64(NullIfBlank(f.previousHash).value))
    && f.hashContract == CONTRACT_VERSION && f.schemaVersion == CONTRACT_VERSION
    && (f.materiality == LedgerRequired || f.materiality == LedgerOptional)
    && f.materiality == MaterialityFor(f.decisionType)
    && (f.scopeType == StudentIndividual <==> NullIfBlank(f.studentId).Some?)
    && (f.provenance == AuthoritativeTransaction ==> NullIfBlank(f.scenarioId).None?)
    && (NullIfBlank(f.supersedes).None? <==> NullIfBlank(f.previousHash).None?)
    && NullIfBlank(f.supersedes) != Some(f.entryId)
  }

  function StoredFacts(f: Facts): Facts {
    f.(actorId := NullIfBlank(f.actorId), studentId := NullIfBlank(f.studentId), inputState := NullIfBlank(f.inputState),
       scenarioId := NullIfBlank(f.scenarioId), domainTrace := NullIfBlank(f.domainTrace),
       previousHash := NullIfBlank(f.previousHash), supersedes := NullIfBlank(f.supersedes))
  }

  function EvidenceRowOf(id: string, position: int, r: Evidence): EvidenceRow {
    EvidenceRow(Some(id), Some(position), Some(r.source), Some(r.identifier), Some(r.version), r.locator, r.uri)
  }

  function EvidenceRows(id: string, refs: seq<Evidence>): seq<EvidenceRow> {
    seq(|refs|, i requires 0 <= i < |refs| => EvidenceRowOf(id, i + 1, refs[i]))
  }

  /** The rows one append writes. */
  function Persist(e: Entry): Stored
    requires e.facts.createdAt.Aware?
  {
    var p := CanonicalPayload(e);
    Stored(Row(StoredFacts(p.facts), p.sourceVersions, p.limitations, e.integrityHash),
           EvidenceRows(p.facts.entryId, StoredReferences(p.evidence)))
  }

  // ---- Reading back -------------------------------------------------------------------

  predicate RequiredText(o: Option<string>) { o.Some? && o.value != "" }

  predicate OptionalText(o: Option<string>) { o != Some("") }

  predicate ReadableEvidence(r: EvidenceRow) {
    RequiredText(r.source) && RequiredText(r.identifier) && RequiredText(r.version) && OptionalText(r.locator) && OptionalText(r.uri)
  }

  function ReferenceOf(r: EvidenceRow): Evidence
    requires ReadableEvidence(r)
  {
    Evidence(r.source.value, r.identifier.value, r.version.value, r.locator, r.uri)
  }

  /** Positions 1, 2, 3, ... of this very entry, each row readable. */
  predicate ContiguousRows(rows: seq<EvidenceRow>, id: string) {
    forall i :: 0 <= i < |rows| ==>
      RequiredText(rows[i].entryId) && rows[i].entryId.value == id && rows[i].position == Some(i + 1) && ReadableEvidence(rows[i])
  }

  function ReadEvidence(rows: seq<EvidenceRow>, id: string): Option<seq<Evidence>> {
    if ContiguousRows(rows, id) then Some(seq(|rows|, i requires 0 <= i < |rows| => ReferenceOf(rows[i]))) else None
  }

  /** `_evidence`. */
  method CollectEvidence(rows: seq<EvidenceRow>, id: string) returns (r: Option<seq<Evidence>>)
    ensures r == ReadEvidence(rows, id)
  {
    var references, i := [], 0;
    while i < |rows|
      invariant 0 <= i <= |rows| && |references| == i
      invariant ContiguousRows(rows[..i], id)
      invariant forall k :: 0 <= k < i ==> references[k] == ReferenceOf(rows[..i][k])
    {
      var row := rows[i];
      if !RequiredText(row.entryId) || row.entryId.value != id { return None; }
      if row.position != Some(i + 1) { return None; }
      if !ReadableEvidence(row) { return None; }
      references := references + [ReferenceOf(row)];
      i := i + 1;
      assert forall k :: 0 <= k < i - 1 ==> rows[..i][k] == rows[..i - 1][k];
    }
    assert rows[..i] == rows;
    assert references == ReadEvidence(rows, id).value;
    r := Some(references);
  }

  predicate ReadableRow(row: Row) {
    var f := row.facts;
    && f.entryId != "" && f.scopeId != "" && f.sourceEngine != "" && f.sourceEngineVersion != "" && f.policyVersion != ""
    && f.outcomeReference != "" && row.integrityHash != "" && f.hashContract != "" && f.schemaVersion != ""
    && CanonicalUuid(f.universityId) && (f.studentId.Some? ==> CanonicalUuid(f.studentId.value))
    && OptionalText(f.actorId) && OptionalText(f.inputState) && OptionalText(f.scenarioId) && OptionalText(f.domainTrace)
    && OptionalText(f.previousHash) && OptionalText(f.supersedes)
    && f.createdAt.Aware?
    && (forall v :: v in row.sourceVersions ==> v != "") && (forall v :: v in row.limitations ==> v != "")
  }

  /** `load_student_entry` and `_ledger_entry` on the rows found; `None` is the integrity failure. */
  function LoadEntry(row: Row, rows: seq<EvidenceRow>, digest: Digest): Option<Entry> {
    if |rows| > MAX_EVIDENCE || !ReadableRow(row) then None
    else
      var evidence := ReadEvidence(rows, row.facts.entryId);
      if evidence.None? then None
      else
        var facts := row.facts.(createdAt := Aware(row.facts.createdAt.instant, 0));
        var e := Entry(facts, row.sourceVersions, row.limitations, evidence.value, row.integrityHash);
        if VerifiedEntry(e, digest) then Some(e) else None
  }

  /** What loads has no empty text in it, at most 1000 references, and the hash that the row names: a row
      that is damaged in any of these ways, or that the hash does not fit, is refused. */
  lemma LoadedIsWhole(row: Row, rows: seq<EvidenceRow>, digest: Digest)
    requires LoadEntry(row, rows, digest).Some?
    ensures var e := LoadEntry(row, rows, digest).value;
            && e.integrityHash == row.integrityHash && |e.evidence| == |rows| <= 1000
            && e.facts == row.facts.(createdAt := e.facts.createdAt) && e.sourceVersions == row.sourceVersions && e.limitations == row.limitations
            && row.facts.createdAt.Aware? && e.facts.createdAt == Aware(row.facts.createdAt.instant, 0)
            && e.integrityHash == digest(CanonicalPayload(e))
    ensures var f := row.facts;
            && "" !in [f.entryId, f.scopeId, f.sourceEngine, f.sourceEngineVersion, f.policyVersion, f.outcomeReference,
                       f.hashContract, f.schemaVersion, f.universityId, row.integrityHash] + row.sourceVersions + row.limitations
            && Some("") !in [f.actorId, f.studentId, f.inputState, f.scenarioId, f.domainTrace, f.previousHash, f.supersedes]
  {
    hide CanonicalPayload, ReadEvidence, IsHex64, ValidEntry;
    var f := row.facts;
    assert |ReadEvidence(rows, f.entryId).value| == |rows| by { EvidenceCount(rows, f.entryId); }
    assert forall o :: OptionalText(o) ==> o != Some("");
    assert !CanonicalUuid("");
  }

  lemma EvidenceCount(rows: seq<EvidenceRow>, id: string)
    ensures ReadEvidence(rows, id).Some? ==> |ReadEvidence(rows, id).value| == |rows|
  {
  }

  /** The adapter takes up to 1000 references of a verified entry that survives stripping. */
  lemma ReadyUpToLimit(e: Entry, digest: Digest)
    requires VerifiedEntry(e, digest) && RoundTripSafe(e)
    ensures ReadyToAppend(e, digest) <==> |e.evidence| <= 1000
  {
    hide VerifiedEntry, RoundTripSafe;
  }

  /** A canonical identifier in the notation of RFC 4122: 8-4-4-4-12 lowercase hexadecimal digits. */
  lemma UuidShape(s: string)
    ensures CanonicalUuid(s) <==>
            && |s| == 36 && s[8] == '-' && s[13] == '-' && s[18] == '-' && s[23] == '-'
            && forall c :: c in s[..8] + s[9..13] + s[14..18] + s[19..23] + s[24..] ==> c in "0123456789abcdef"
  {
    forall c: char ensures HexLower(c) <==> c in "0123456789abcdef" { HexDigits(c); }
    hide HexLower;
    if |s| == 36 {
      var digits := s[..8] + s[9..13] + s[14..18] + s[19..23] + s[24..];
      forall i | 0 <= i < 36 && i !in {8, 13, 18, 23} ensures s[i] in digits {
        var k := if i < 8 then i else if i < 13 then i - 1 else if i < 18 then i - 2 else if i < 23 then i - 3 else i - 4;
        assert digits[k] == s[i];
      }
      forall c | c in digits ensures exists i :: 0 <= i < 36 && i !in {8, 13, 18, 23} && s[i] == c {
        var k :| 0 <= k < |digits| && digits[k] == c;
        var i := if k < 8 then k else if k < 12 then k + 1 else if k < 16 then k + 2 else if k < 20 then k + 3 else k + 4;
        assert digits[k] == s[i];
      }
    }
  }

  lemma HexDigits(c: char)
    ensures HexLower(c) <==> c in "0123456789abcdef"
  {
    var digits := "0123456789abcdef";
    if HexLower(c) {
      var k := if c <= '9' then c as int - '0' as int else 10 + c as int - 'a' as int;
      assert digits[k] == c;
    }
  }

  // ---- The round trip -----------------------------------------------------------------

  /** No optional text is present but empty. */
  predicate NoEmptyOptional(e: Entry) {
    var f := e.facts;
    && OptionalText(f.actorId) && OptionalText(f.inputState) && OptionalText(f.scenarioId) && OptionalText(f.domainTrace)
    && OptionalText(f.previousHash) && OptionalText(f.supersedes)
    && forall r :: r in e.evidence ==> OptionalText(r.locator) && OptionalText(r.uri)
  }

  lemma NullIfBlankIsIdentity(o: Option<string>)
    requires StrippedOptional(o)
    ensures NullIfBlank(o) == o <==> OptionalText(o)
    ensures OptionalText(NullIfBlank(o))
  {
    if o.Some? {
      StripIsTrimmed(o.value);
      BtrimOfTrimmed(o.value);
    }
  }

  lemma UuidIsTrimmed(s: string)
    requires CanonicalUuid(s)
    ensures Trimmed(s) && s != ""
  {
    assert HexLower(s[0]) && HexLower(s[35]);
  }

  /** The database changes the facts of a round-trip-safe entry exactly when one of its optional
      texts is empty: that text becomes null. */
  lemma FactsSurvive(e: Entry)
    requires RoundTripSafe(e)
    ensures StoredFacts(e.facts) == e.facts <==>
              && OptionalText(e.facts.actorId) && OptionalText(e.facts.inputState) && OptionalText(e.facts.scenarioId)
              && OptionalText(e.facts.domainTrace) && OptionalText(e.facts.previousHash) && OptionalText(e.facts.supersedes)
  {
    hide NullIfBlank, OptionalText, CanonicalUuid, StrippedOptional;
    var f := e.facts;
    NullIfBlankIsIdentity(f.actorId);
    NullIfBlankIsIdentity(f.inputState);
    NullIfBlankIsIdentity(f.scenarioId);
    NullIfBlankIsIdentity(f.domainTrace);
    NullIfBlankIsIdentity(f.previousHash);
    NullIfBlankIsIdentity(f.supersedes);
    UuidSurvives(f.studentId);
  }

  lemma UuidSurvives(o: Option<string>)
    requires o.Some? ==> CanonicalUuid(o.value)
    ensures NullIfBlank(o) == o
  {
    if o.Some? {
      UuidIsTrimmed(o.value);
      BtrimOfTrimmed(o.value);
    }
  }

  lemma ReferenceSurvives(r: Evidence)
    requires r.source == Strip(r.source) && r.identifier == Strip(r.identifier) && r.version == Strip(r.version)
    requires StrippedOptional(r.locator) && StrippedOptional(r.uri)
    ensures StoredReference(r) == r <==> OptionalText(r.locator) && OptionalText(r.uri)
    ensures Btrim(r.source) == r.source && Btrim(r.identifier) == r.identifier && Btrim(r.version) == r.version
    ensures OptionalText(StoredReference(r).locator) && OptionalText(StoredReference(r).uri)
  {
    hide NullIfBlank, OptionalText, Btrim, Strip, StrippedOptional;
    StripIsTrimmed(r.source);
    StripIsTrimmed(r.identifier);
    StripIsTrimmed(r.version);
    BtrimOfTrimmed(r.source);
    BtrimOfTrimmed(r.identifier);
    BtrimOfTrimmed(r.version);
    NullIfBlankIsIdentity(r.locator);
    NullIfBlankIsIdentity(r.uri);
  }

  lemma ReferencesSurvive(refs: seq<Evidence>)
    requires forall r :: r in refs ==>
               r.source == Strip(r.source) && r.identifier == Strip(r.identifier) && r.version == Strip(r.version)
               && StrippedOptional(r.locator) && StrippedOptional(r.uri)
    ensures StoredReferences(refs) == refs <==> forall r :: r in refs ==> OptionalText(r.locator) && OptionalText(r.uri)
  {
    hide StoredReference, OptionalText, Strip, StrippedOptional;
    forall i | 0 <= i < |refs|
      ensures StoredReference(refs[i]) == refs[i] <==> OptionalText(refs[i].locator) && OptionalText(refs[i].uri)
    {
      assert refs[i] in refs;
      ReferenceSurvives(refs[i]);
    }
    if StoredReferences(refs) == refs {
      forall r | r in refs ensures OptionalText(r.locator) && OptionalText(r.uri) {
        var i :| 0 <= i < |refs| && refs[i] == r;
        assert StoredReferences(refs)[i] == StoredReference(refs[i]);
      }
    }
  }

  predicate ReadableReferences(refs: seq<Evidence>) {
    forall r :: r in refs ==> r.source != "" && r.identifier != "" && r.version != "" && OptionalText(r.locator) && OptionalText(r.uri)
  }

  lemma RowOfReadable(id: string, position: int, r: Evidence)
    requires r.source != "" && r.identifier != "" && r.version != "" && OptionalText(r.locator) && OptionalText(r.uri)
    ensures ReadableEvidence(EvidenceRowOf(id, position, r)) && ReferenceOf(EvidenceRowOf(id, position, r)) == r
  {
  }

  /** A response is read as `refs` exactly when it is the rows written for `refs`, all of them, in
      order, numbered from 1 and belonging to this entry. */
  lemma EvidenceReadExactly(rows: seq<EvidenceRow>, id: string, refs: seq<Evidence>)
    requires id != ""
    ensures ReadEvidence(rows, id) == Some(refs) <==> rows == EvidenceRows(id, refs) && ReadableReferences(refs)
  {
    if rows == EvidenceRows(id, refs) && ReadableReferences(refs) {
      forall i | 0 <= i < |rows| ensures ReadableEvidence(rows[i]) && ReferenceOf(rows[i]) == refs[i] {
        assert refs[i] in refs;
        RowOfReadable(id, i + 1, refs[i]);
      }
      assert ContiguousRows(rows, id);
      assert ReadEvidence(rows, id).value == refs;
    }
    if ReadEvidence(rows, id) == Some(refs) {
      forall i | 0 <= i < |rows| ensures rows[i] == EvidenceRowOf(id, i + 1, refs[i]) {
        assert ReferenceOf(rows[i]) == refs[i];
      }
      assert rows == EvidenceRows(id, refs);
      forall r | r in refs ensures r.source != "" && r.identifier != "" && r.version != "" && OptionalText(r.locator) && OptionalText(r.uri) {
        var i :| 0 <= i < |refs| && refs[i] == r;
        assert ReadableEvidence(rows[i]);
      }
    }
  }

  /** Rows `picks` of those written for `refs`, in that order. */
  function PickRows(id: string, refs: seq<Evidence>, picks: seq<nat>): seq<EvidenceRow>
    requires forall k :: 0 <= k < |picks| ==> picks[k] < |refs|
  {
    seq(|picks|, k requires 0 <= k < |picks| => EvidenceRowOf(id, picks[k] + 1, refs[picks[k]]))
  }

  /** Of the rows written for one entry a response is accepted exactly when it is the first so many
      of them in order: a gap, a reordering, a repetition is refused. */
  lemma OnlyPrefixesAreRead(id: string, refs: seq<Evidence>, picks: seq<nat>)
    requires id != "" && ReadableReferences(refs) && forall k :: 0 <= k < |picks| ==> picks[k] < |refs|
    ensures var r := ReadEvidence(PickRows(id, refs, picks), id);
            && (r.Some? <==> forall k :: 0 <= k < |picks| ==> picks[k] == k)
            && (r.Some? ==> |picks| <= |refs| && r.value == refs[..|picks|])
  {
    hide ReadableEvidence;
    var rows := PickRows(id, refs, picks);
    if forall k :: 0 <= k < |picks| ==> picks[k] == k {
      forall k | 0 <= k < |picks| ensures k < |refs| && rows[k] == EvidenceRowOf(id, k + 1, refs[k]) { assert picks[k] == k; }
      if picks != [] { assert picks[|picks| - 1] == |picks| - 1; }
      var first := refs[..|picks|];
      assert ReadableReferences(first) by { forall r | r in first ensures r in refs {} }
      assert rows == EvidenceRows(id, first);
      EvidenceReadExactly(rows, id, first);
    }
    if ReadEvidence(rows, id).Some? {
      forall k | 0 <= k < |picks| ensures picks[k] == k { assert rows[k].position == Some(k + 1); }
    }
  }

  // ---- Whole entries ------------------------------------------------------------------

  /** The entry as hashed: the same facts, the lists in canonical order. */
  function Ordered(e: Entry): Entry {
    Entry(e.facts, Sort(StrLe, e.sourceVersions), Sort(StrLe, e.limitations), Sort(EvidenceLe, e.evidence), e.integrityHash)
  }

  lemma OrderedVerifies(e: Entry, digest: Digest)
    requires VerifiedEntry(e, digest)
    ensures VerifiedEntry(Ordered(e), digest) && CanonicalPayload(Ordered(e)) == CanonicalPayload(e)
  {
    hide StrLe, EvidenceLe, IsHex64, Blank;
    StrLeIsTotalOrder();
    EvidenceLeIsPreorder();
    SortCorrect(StrLe, e.sourceVersions);
    SortCorrect(StrLe, e.limitations);
    SortCorrect(EvidenceLe, e.evidence);
    SortIsIdentityWhenSorted(StrLe, Sort(StrLe, e.sourceVersions));
    SortIsIdentityWhenSorted(StrLe, Sort(StrLe, e.limitations));
    SortIsIdentityWhenSorted(EvidenceLe, Sort(EvidenceLe, e.evidence));
  }

  predicate StrippedReferences(refs: seq<Evidence>) {
    forall r :: r in refs ==>
      r.source == Strip(r.source) && r.identifier == Strip(r.identifier) && r.version == Strip(r.version)
      && StrippedOptional(r.locator) && StrippedOptional(r.uri)
  }

  predicate NoEmptyLocation(refs: seq<Evidence>) {
    forall r :: r in refs ==> OptionalText(r.locator) && OptionalText(r.uri)
  }

  /** What a ready entry hands to the append function. */
  lemma ReadyPayload(e: Entry, digest: Digest)
    requires ReadyToAppend(e, digest)
    ensures e.facts.createdAt.Aware?
    ensures var p := CanonicalPayload(e);
            && p.facts == e.facts && |p.evidence| <= MAX_EVIDENCE
            && StrippedReferences(p.evidence) && (NoEmptyLocation(p.evidence) <==> NoEmptyLocation(e.evidence))
            && digest(p) == e.integrityHash
  {
    hide StrLe, EvidenceLe, IsHex64, Blank, Strip, StrippedOptional, OptionalText, CanonicalUuid;
    EvidenceLeIsPreorder();
    SortCorrect(EvidenceLe, e.evidence);
    forall r ensures r in Sort(EvidenceLe, e.evidence) <==> r in e.evidence { SortMembers(EvidenceLe, e.evidence, r); }
  }

  lemma StoredIsReadable(refs: seq<Evidence>)
    requires StrippedReferences(refs)
    requires forall r :: r in refs ==> Btrim(r.source) != "" && Btrim(r.identifier) != "" && Btrim(r.version) != ""
    ensures ReadableReferences(StoredReferences(refs))
    ensures StoredReferences(refs) == refs <==> NoEmptyLocation(refs)
  {
    hide OptionalText, Strip, Btrim, StrippedOptional, NullIfBlank;
    ReferencesSurvive(refs);
    var stored := StoredReferences(refs);
    forall r | r in stored
      ensures r.source != "" && r.identifier != "" && r.version != "" && OptionalText(r.locator) && OptionalText(r.uri)
    {
      var i :| 0 <= i < |refs| && stored[i] == r;
      assert refs[i] in refs;
      ReferenceSurvives(refs[i]);
    }
  }

  // ---- Where the database is stricter -------------------------------------------------

  lemma NormalIsSqlTexts(s: seq<string>)
    requires NormalTexts(s)
    ensures SqlTexts(s)
  {
    forall v | v in s ensures Btrim(v) != "" { BtrimOfTrimmed(v); }
  }

  lemma CleanIsStored(r: Evidence)
    requires CleanReference(r)
    ensures StoredReference(r) == r && Btrim(r.source) != "" && Btrim(r.identifier) != "" && Btrim(r.version) != ""
  {
    hide Btrim;
    BtrimOfTrimmed(r.source);
    BtrimOfTrimmed(r.identifier);
    BtrimOfTrimmed(r.version);
    if r.locator.Some? { BtrimOfTrimmed(r.locator.value); }
    if r.uri.Some? { BtrimOfTrimmed(r.uri.value); }
  }

  lemma NormalIsSqlEvidence(s: seq<Evidence>)
    requires NormalEvidence(s)
    ensures Distinct(StoredReferences(s))
    ensures forall r :: r in s ==> Btrim(r.source) != "" && Btrim(r.identifier) != "" && Btrim(r.version) != ""
  {
    hide EvidenceLe;
    forall i | 0 <= i < |s| ensures StoredReference(s[i]) == s[i] {
      assert s[i] in s;
      CleanIsStored(s[i]);
    }
    assert StoredReferences(s) == s;
    forall r | r in s ensures Btrim(r.source) != "" && Btrim(r.identifier) != "" && Btrim(r.version) != "" {
      CleanIsStored(r);
    }
  }

  lemma FactsAreAccepted(e: Entry)
    requires ValidEntry(e)
    ensures var f := e.facts;
            && Btrim(f.entryId) != "" && Btrim(f.scopeId) != "" && Btrim(f.sourceEngine) != "" && Btrim(f.sourceEngineVersion) != ""
            && Btrim(f.policyVersion) != "" && Btrim(f.outcomeReference) != ""
  {
    hide Btrim, Blank, IsHex64;
    NonblankSurvivesBtrim(e.facts.entryId);
    NonblankSurvivesBtrim(e.facts.scopeId);
    NonblankSurvivesBtrim(e.facts.sourceEngine);
    NonblankSurvivesBtrim(e.facts.sourceEngineVersion);
    NonblankSurvivesBtrim(e.facts.policyVersion);
    NonblankSurvivesBtrim(e.facts.outcomeReference);
  }

  /** Beyond what the domain validates, the database asks for three things of an entry: a ledgered
      decision, a student exactly for individual subjects, and a predecessor exactly with its hash. */
  predicate DatabaseAlsoAsks(f: Facts) {
    && (f.materiality == LedgerRequired || f.materiality == LedgerOptional)
    && (f.scopeType == StudentIndividual <==> f.studentId.Some?)
    && (NullIfBlank(f.supersedes).None? <==> NullIfBlank(f.previousHash).None?)
  }

  /** For a normal entry that the adapter is ready to append, the database's checks amount to
      exactly those three. */
  lemma DatabaseAddsExactly(e: Entry, digest: Digest)
    requires ReadyToAppend(e, digest) && Normal(e)
    ensures e.facts.createdAt.Aware?
    ensures SqlAccepts(CanonicalPayload(e), e.integrityHash) <==> DatabaseAlsoAsks(e.facts)
  {
    hide Strip, Btrim, Blank, NormalTexts, NormalEvidence, SqlTexts, StoredReferences, IsHex64, CanonicalUuid;
    ReadyPayload(e, digest);
    NormalTextsAreFixed(e.sourceVersions);
    NormalTextsAreFixed(e.limitations);
    NormalReferencesAreFixed(e.evidence);
    NormalIsSqlTexts(e.sourceVersions);
    NormalIsSqlTexts(e.limitations);
    NormalIsSqlEvidence(e.evidence);
    FactsAreAccepted(e);
    UuidSurvives(e.facts.studentId);
    NullIfBlankIsIdentity(e.facts.supersedes);
    NullIfBlankIsIdentity(e.facts.previousHash);
    NullsOnly(e.facts.supersedes);
    NullsOnly(e.facts.previousHash);
    NullsOnly(e.facts.scenarioId);
  }

  lemma NullsOnly(o: Option<string>)
    requires StrippedOptional(o)
    ensures NullIfBlank(o) == o || NullIfBlank(o) == None
    ensures o == None ==> NullIfBlank(o) == None
  {
    NullIfBlankIsIdentity(o);
    BtrimOfNothing();
  }

  /** What the tables hold of an accepted entry, read back before its hash is checked. */
  function Recovered(e: Entry): Entry
    requires e.facts.createdAt.Aware?
  {
    var p := CanonicalPayload(e);
    Entry(StoredFacts(p.facts), p.sourceVersions, p.limitations, StoredReferences(p.evidence), e.integrityHash)
  }

  lemma RowIsReadable(e: Entry, digest: Digest)
    requires ReadyToAppend(e, digest) && SqlAccepts(CanonicalPayload(e), e.integrityHash)
    ensures ReadableRow(Persist(e).row)
  {
    hide StrLe, EvidenceLe, IsHex64, Blank, Strip, OptionalText, CanonicalUuid, Btrim, VerifyIntegrityHash, Distinct,
         StrippedOptional, NullIfBlank;
    ReadyPayload(e, digest);
    var f := e.facts;
    NullIfBlankIsIdentity(f.actorId);
    NullIfBlankIsIdentity(f.inputState);
    NullIfBlankIsIdentity(f.scenarioId);
    NullIfBlankIsIdentity(f.domainTrace);
    NullIfBlankIsIdentity(f.previousHash);
    NullIfBlankIsIdentity(f.supersedes);
    UuidSurvives(f.studentId);
    BtrimOfNothing();
    HexIsNotEmpty(e.integrityHash);
  }

  lemma BtrimOfNothing()
    ensures Btrim("") == ""
  {
  }

  /** Loading the rows of an accepted append amounts to the hash check of the recovered entry. */
  lemma LoadIsHashCheck(e: Entry, digest: Digest)
    requires ReadyToAppend(e, digest) && SqlAccepts(CanonicalPayload(e), e.integrityHash)
    ensures e.facts.createdAt.Aware?
    ensures LoadEntry(Persist(e).row, Persist(e).evidence, digest)
            == if VerifiedEntry(Recovered(e), digest) then Some(Recovered(e)) else None
  {
    hide ReadableRow, VerifiedEntry, ReadEvidence, RoundTripSafe;
    ReadyPayload(e, digest);
    RowIsReadable(e, digest);
    var p := CanonicalPayload(e);
    AcceptedReferences(p, e.integrityHash);
    StoredIsReadable(p.evidence);
    EvidenceReadExactly(Persist(e).evidence, p.facts.entryId, StoredReferences(p.evidence));
  }

  lemma AcceptedReferences(p: Payload, hash: string)
    requires SqlAccepts(p, hash)
    ensures p.facts.entryId != ""
    ensures forall r :: r in p.evidence ==> Btrim(r.source) != "" && Btrim(r.identifier) != "" && Btrim(r.version) != ""
  {
    hide SqlTexts, IsHex64, Distinct, NullIfBlank;
    BtrimOfNothing();
  }

  /** Appended and loaded again, an entry comes back as itself, its lists in canonical order, if and
      only if none of its optional texts is empty. Otherwise the append is accepted but the text is
      stored as null, and what was stored can never be loaded, unless the digest collides. */
  lemma StorageRoundTrip(e: Entry, digest: Digest)
    requires ReadyToAppend(e, digest) && SqlAccepts(CanonicalPayload(e), e.integrityHash)
    ensures var r := LoadEntry(Persist(e).row, Persist(e).evidence, digest);
            if NoEmptyOptional(e) then r == Some(Ordered(e))
            else r == None || (r.value.facts.createdAt.Aware? && Collision(digest, CanonicalPayload(r.value), CanonicalPayload(e)))
  {
    hide SqlAccepts, OptionalText, RoundTripSafe, ValidEntry, IsHex64, EvidenceLe, StrLe, LoadEntry;
    ReadyPayload(e, digest);
    LoadIsHashCheck(e, digest);
    FactsSurvive(e);
    var p := CanonicalPayload(e);
    AcceptedReferences(p, e.integrityHash);
    StoredIsReadable(p.evidence);
    if NoEmptyOptional(e) {
      OrderedVerifies(e, digest);
      assert Recovered(e) == Ordered(e);
    } else if VerifiedEntry(Recovered(e), digest) {
      RecoveredDiffers(e, digest);
    }
  }

  lemma RecoveredDiffers(e: Entry, digest: Digest)
    requires ReadyToAppend(e, digest) && SqlAccepts(CanonicalPayload(e), e.integrityHash) && !NoEmptyOptional(e)
    ensures e.facts.createdAt.Aware? && CanonicalPayload(Recovered(e)) != CanonicalPayload(e)
  {
    hide SqlAccepts, OptionalText, RoundTripSafe, ValidEntry, IsHex64, EvidenceLe, StrLe;
    ReadyPayload(e, digest);
    FactsSurvive(e);
    var p := CanonicalPayload(e);
    AcceptedReferences(p, e.integrityHash);
    StoredIsReadable(p.evidence);
    if NoEmptyLocation(p.evidence) {
      assert StoredFacts(e.facts) != e.facts;
    } else {
      var r :| r in p.evidence && !(OptionalText(r.locator) && OptionalText(r.uri));
      EvidenceLeIsPreorder();
      SortMembers(EvidenceLe, StoredReferences(p.evidence), r);
    }
  }

  /** A response that lost the last evidence rows still has contiguous positions, but it no longer
      matches the hash, unless the digest collides. */
  lemma TruncatedEvidenceIsDetected(e: Entry, keep: nat, digest: Digest)
    requires ReadyToAppend(e, digest) && SqlAccepts(CanonicalPayload(e), e.integrityHash)
    requires keep < |Persist(e).evidence|
    ensures var r := LoadEntry(Persist(e).row, Persist(e).evidence[..keep], digest);
            r == None || (r.value.facts.createdAt.Aware? && Collision(digest, CanonicalPayload(r.value), CanonicalPayload(e)))
  {
    hide SqlAccepts, OptionalText, RoundTripSafe, ValidEntry, IsHex64, EvidenceLe, StrLe, ReadableRow, ContiguousRows;
    ReadyPayload(e, digest);
    var r := LoadEntry(Persist(e).row, Persist(e).evidence[..keep], digest);
    if r.Some? {
      VerifiedIsHashable(r.value, digest);
      EvidenceLeIsPreorder();
      SortCorrect(EvidenceLe, r.value.evidence);
    }
  }

  /** An entry the domain itself created comes back identical, or not at all. */
  lemma CreatedEntryRoundTrip(draft: Entry, digest: Digest)
    requires HexDigest(digest) && Create(draft, digest).Some?
    requires ReadyToAppend(Create(draft, digest).value, digest)
    requires SqlAccepts(CanonicalPayload(Create(draft, digest).value), Create(draft, digest).value.integrityHash)
    ensures var e := Create(draft, digest).value;
            LoadEntry(Persist(e).row, Persist(e).evidence, digest) == Some(e) <==> NoEmptyOptional(e)
  {
    hide Create, SqlAccepts, LoadEntry, Persist, ReadyToAppend;
    var e := Create(draft, digest).value;
    CreatedEntriesVerify(draft, digest);
    StorageRoundTrip(e, digest);
    NormalTextsAreFixed(e.sourceVersions);
    NormalTextsAreFixed(e.limitations);
    NormalReferencesAreFixed(e.evidence);
  }
}
