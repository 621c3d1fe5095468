/** The mapper, the storage round trip and the outbox protocol together: a submission whose worker
    died between append and completion is picked up again and completed. */
module OutboxRecovery {
  import opened Wrappers
  import opened CanonicalLedger
  import opened LedgerStorage
  import opened OutboxProtocol
  import opened OutboxFailure
  import M = OutboxMapper

  /** Looking an entry up by identity, student and tenant finds the row it wrote. */
  lemma {:induction false} LoadFindsOwnRow(ledger: seq<Stored>, k: nat, e: Entry, digest: Digest)
    requires LedgerOk(ledger, digest) && k < |ledger|
    requires e.facts.createdAt.Aware? && ledger[k] == Persist(e)
    requires e.facts.scopeType == StudentIndividual && e.facts.studentId.Some? && NullIfBlank(e.facts.studentId) == e.facts.studentId
    ensures Load(ledger, e, digest) == LoadEntry(Persist(e).row, Persist(e).evidence, digest)
  {
    hide LoadEntry, Trusted, NullIfBlank, StoredReferences, EvidenceRows;
    PersistNames(e);
    if k < |ledger| - 1 {
      assert IdOf(ledger[k]) != IdOf(ledger[|ledger| - 1]);
      LedgerPrefixOk(ledger, digest);
      LoadFindsOwnRow(ledger[..|ledger| - 1], k, e, digest);
    }
  }

  lemma LedgerPrefixOk(ledger: seq<Stored>, digest: Digest)
    requires ledger != [] && LedgerOk(ledger, digest)
    ensures LedgerOk(ledger[..|ledger| - 1], digest)
  {
    hide Trusted, IdOf;
  }

  /** A worker meeting its own earlier append recognises it exactly when the entry can be read back,
      that is when the submission's progress state reference is not the empty text, unless the
      digest collides. */
  lemma OwnAppendIsRecognised(ledger: seq<Stored>, k: nat, p: M.Projection, digest: Digest)
    requires HexDigest(digest) && LedgerOk(ledger, digest) && k < |ledger|
    requires M.Map(p, digest).Some? && StrippedOptional(p.revision.progressReference)
    requires M.Map(p, digest).value.facts.createdAt.Aware? && ledger[k] == Persist(M.Map(p, digest).value)
    ensures var e := M.Map(p, digest).value;
            if p.revision.progressReference != Some("") then Reconcilable(ledger, e, digest)
            else Load(ledger, e, digest) == None
                 || (Load(ledger, e, digest).value.facts.createdAt.Aware?
                     && Collision(digest, CanonicalPayload(Load(ledger, e, digest).value), CanonicalPayload(e)))
  {
    hide M.Map, LoadEntry, Persist, LedgerOk, SqlAccepts, ReadyToAppend, NoEmptyOptional, NullIfBlank, StrippedOptional, M.OrderedEvidence,
         VerifiedEntry, Normal, CanonicalPayload, Collision, Ordered;
    var e := M.Map(p, digest).value;
    M.MappedIdentity(p, digest);
    M.MappedReloads(p, digest);
    M.MappedIsAppendable(p, digest);
    M.MappedIsAccepted(p, digest);
    StorageRoundTrip(e, digest);
    M.UuidIsText(p.revision.ownerId);
    UuidSurvives(e.facts.studentId);
    LoadFindsOwnRow(ledger, k, e, digest);
  }

  lemma MappedIsFit(p: M.Projection, digest: Digest)
    requires HexDigest(digest) && M.Map(p, digest).Some? && StrippedOptional(p.revision.progressReference)
    ensures Appendable(M.Map(p, digest).value, digest)
  {
    hide M.Map, SqlAccepts, ReadyToAppend, StrippedOptional;
    M.MappedIsAppendable(p, digest);
    M.MappedIsAccepted(p, digest);
  }

  /** After any run in which the event's claims carry the submission and nobody else writes under
      its identity, the ledger has room for the submission's entry or can reconcile it. */
  lemma RunsLeaveItReconcilable(now: int, before: seq<Act>, p: M.Projection, digest: Digest)
    requires HexDigest(digest) && M.Map(p, digest).Some? && StrippedOptional(p.revision.progressReference)
    requires Legal(Start(now), before, digest) && OneSource(before, p.revision.revisionId, M.Map(p, digest).value)
    requires p.revision.progressReference == Some("") ==> !HasId(After(Start(now), before, digest).db.ledger, p.revision.revisionId)
    ensures Reconcilable(After(Start(now), before, digest).db.ledger, M.Map(p, digest).value, digest)
  {
    hide M.Map, Persist, ReadyToAppend, SqlAccepts, Effect, Enabled, Reconcilable, OneSource, StrippedOptional, M.OrderedEvidence,
         VerifiedEntry, Normal;
    var e, id, s := M.Map(p, digest).value, p.revision.revisionId, After(Start(now), before, digest);
    M.MappedIdentity(p, digest);
    if HasId(s.db.ledger, id) {
      StartInv(now, digest);
      RunKeepsInv(Start(now), before, digest);
      OnlyOwnRows(now, before, id, e, digest);
      var k :| 0 <= k < |s.db.ledger| && IdOf(s.db.ledger[k]) == id;
      assert s.db.ledger[k] in s.db.ledger;
      AppendableIsAware(e, digest);
      InvParts(s, digest);
      OwnAppendIsRecognised(s.db.ledger, k, p, digest);
    } else {
      RoomIsReconcilable(s.db.ledger, e, digest);
    }
  }

  /** Whatever crashed, timed out or was lost in whatever run went before, as long as the event's
      claims carried the submission and nobody else wrote under its identity, an open event can
      still be completed, with the hash of the one entry its projection maps to. */
  lemma InterruptedSubmissionRecovers(now: int, before: seq<Act>, p: M.Projection, digest: Digest) returns (run: seq<Act>)
    requires HexDigest(digest) && M.Map(p, digest).Some? && StrippedOptional(p.revision.progressReference)
    requires Legal(Start(now), before, digest) && OneSource(before, p.revision.revisionId, M.Map(p, digest).value)
    requires var s, id := After(Start(now), before, digest), p.revision.revisionId;
             && id in s.db.outbox && !Terminal(s.db.outbox[id].phase)
             && (p.revision.progressReference == Some("") ==> !HasId(s.db.ledger, id))
    ensures Legal(After(Start(now), before, digest), run, digest)
    ensures var u, id, e := After(After(Start(now), before, digest), run, digest), p.revision.revisionId, M.Map(p, digest).value;
            && id in u.db.outbox && u.db.outbox[id].phase == Completed && u.db.outbox[id].completedHash == Some(e.integrityHash)
            && InLedger(u.db.ledger, id, e.integrityHash)
  {
    hide M.Map, Reconcilable, Appendable, OneSource, Grows, InLedger, StrippedOptional, M.OrderedEvidence, VerifiedEntry, Normal,
         LedgerOk, TaskOk, HasId;
    var e, s := M.Map(p, digest).value, After(Start(now), before, digest);
    M.MappedIdentity(p, digest);
    MappedIsFit(p, digest);
    RunsLeaveItReconcilable(now, before, p, digest);
    StartInv(now, digest);
    RunKeepsInv(Start(now), before, digest);
    run := EveryOpenEventCanComplete(s, p.revision.revisionId, e, digest);
    RunKeepsInv(s, run, digest);
    assert EventOk(After(s, run, digest), p.revision.revisionId);
  }

  /** A progress state reference with surrounding whitespace, on the other hand, keeps the event from
      ever being completed. */
  lemma PaddedReferenceNeverCompletes(now: int, run: seq<Act>, p: M.Projection, digest: Digest)
    requires HexDigest(digest) && M.Map(p, digest).Some? && !StrippedOptional(p.revision.progressReference)
    requires Legal(Start(now), run, digest) && OneSource(run, p.revision.revisionId, M.Map(p, digest).value)
    ensures var s, id := After(Start(now), run, digest), p.revision.revisionId;
            !HasId(s.db.ledger, id) && (id in s.db.outbox ==> s.db.outbox[id].phase != Completed)
  {
    hide M.Map, Persist, ReadyToAppend, SqlAccepts, Effect, Enabled, OneSource, StrippedOptional, Trusted;
    var e, id, s := M.Map(p, digest).value, p.revision.revisionId, After(Start(now), run, digest);
    M.MappedIsAppendable(p, digest);
    OnlyOwnRows(now, run, id, e, digest);
    forall k | 0 <= k < |s.db.ledger| ensures IdOf(s.db.ledger[k]) != id {
      assert s.db.ledger[k] in s.db.ledger;
    }
    if id in s.db.outbox && s.db.outbox[id].phase == Completed { CompletedMeansLedgered(now, run, id, digest); }
  }

  lemma RoomIsReconcilable(ledger: seq<Stored>, e: Entry, digest: Digest)
    requires !HasId(ledger, e.facts.entryId)
    ensures Reconcilable(ledger, e, digest)
  {
  }
}
