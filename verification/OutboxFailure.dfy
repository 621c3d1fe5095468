/** What the outbox protocol promises about failure, and what it does not: when a permanently failed
    event can have its entry in the ledger all the same, and when the attempt limit is passed. */
module OutboxFailure {
  import opened Wrappers
  import opened CanonicalLedger
  import opened LedgerStorage
  import opened OutboxProtocol

  // ---- One source per event -----------------------------------------------------------

  /** Somebody else writes under the event's identity, or a claim of it maps to something else. */
  predicate Foreign(a: Act, id: EventId, e: Entry) {
    (a.OtherAppend? && a.entry.facts.entryId == id) || (a.ClaimEvent? && a.id == id && a.mapped != Some(e))
  }

  predicate OneSource(run: seq<Act>, id: EventId, e: Entry) {
    forall a :: a in run ==> !Foreign(a, id, e)
  }

  /** Whatever exists under the identity, in flight or in the ledger, is `e`. */
  ghost predicate OwnOnly(s: Sys, id: EventId, e: Entry, digest: Digest) {
    && (forall t :: t in s.tasks && s.tasks[t].event == id ==> s.tasks[t].mapped == Some(e))
    && (forall row :: row in s.db.ledger && IdOf(row) == id ==> Appendable(e, digest) && row == Persist(e))
  }

  /** The ledger grows by at most the one entry the step carries. */
  lemma LedgerStep(s: Sys, a: Act, digest: Digest)
    requires Enabled(s, a, digest)
    ensures var more := Effect(s, a, digest).db.ledger;
            || more == s.db.ledger
            || (a.OtherAppend? && Appendable(a.entry, digest) && more == s.db.ledger + [Persist(a.entry)])
            || (a.AppendStep? && a.token in s.tasks && s.tasks[a.token].mapped.Some? && Appendable(s.tasks[a.token].mapped.value, digest)
                && more == s.db.ledger + [Persist(s.tasks[a.token].mapped.value)])
  {
    hide ReadyToAppend, SqlAccepts, Persist, Load, SameEntry, HasId, SettlementOf, StatusAfter;
  }

  /** Whoever wrote a new row, it is that of the entry the step carries. */
  lemma AddedRow(s: Sys, a: Act, row: Stored, digest: Digest) returns (x: Entry)
    requires Enabled(s, a, digest) && row in Effect(s, a, digest).db.ledger && row !in s.db.ledger
    ensures Appendable(x, digest) && row == Persist(x)
    ensures || (a.OtherAppend? && x == a.entry)
            || (a.AppendStep? && a.token in s.tasks && s.tasks[a.token].mapped == Some(x))
  {
    LedgerStep(s, a, digest);
    hide Effect, Enabled, Appendable, Persist;
    x := if a.OtherAppend? then a.entry else s.tasks[a.token].mapped.value;
  }

  /** A row the step adds under the identity is the one entry there is. */
  lemma NewRowIsOwn(s: Sys, a: Act, row: Stored, id: EventId, e: Entry, digest: Digest)
    requires Inv(s, digest) && Enabled(s, a, digest) && OwnOnly(s, id, e, digest) && !Foreign(a, id, e)
    requires row in Effect(s, a, digest).db.ledger && row !in s.db.ledger && IdOf(row) == id
    ensures Appendable(e, digest) && row == Persist(e)
  {
    hide Effect, Enabled, Appendable, Persist;
    var x := AddedRow(s, a, row, digest);
    AppendableIsAware(x, digest);
    if a.AppendStep? { assert TaskOk(s, a.token, digest); }
    PersistNames(x);
  }

  lemma OnlyMapsToOwn(s: Sys, a: Act, t: Token, id: EventId, e: Entry, digest: Digest)
    requires Inv(s, digest) && Enabled(s, a, digest) && OwnOnly(s, id, e, digest) && !Foreign(a, id, e)
    requires t in Effect(s, a, digest).tasks && Effect(s, a, digest).tasks[t].event == id
    ensures Effect(s, a, digest).tasks[t].mapped == Some(e)
  {
    StepKeepsInv(s, a, digest);
    hide Inv, Effect, Enabled, Appendable, Persist;
    if t !in s.tasks { NewTaskStep(s, a, t, digest); } else { OwnTask(s, t, id, e, digest); }
  }

  lemma OwnOnlyStep(s: Sys, a: Act, id: EventId, e: Entry, digest: Digest)
    requires Inv(s, digest) && Enabled(s, a, digest) && OwnOnly(s, id, e, digest) && !Foreign(a, id, e)
    ensures OwnOnly(Effect(s, a, digest), id, e, digest)
  {
    var u := Effect(s, a, digest);
    hide Inv, Effect, Enabled, Appendable, Persist;
    forall t | t in u.tasks && u.tasks[t].event == id ensures u.tasks[t].mapped == Some(e) { OnlyMapsToOwn(s, a, t, id, e, digest); }
    forall row | row in u.db.ledger && IdOf(row) == id ensures Appendable(e, digest) && row == Persist(e) {
      if row !in s.db.ledger { NewRowIsOwn(s, a, row, id, e, digest); }
    }
  }

  /** When all claims of an event map to one entry and nobody else writes under its identity, that
      entry is all a run ever leaves in the ledger under it. */
  lemma {:induction false} OnlyOwnRows(now: int, run: seq<Act>, id: EventId, e: Entry, digest: Digest)
    requires Legal(Start(now), run, digest) && OneSource(run, id, e)
    ensures OwnOnly(After(Start(now), run, digest), id, e, digest)
  {
    hide Enabled, Effect, OwnOnly, Foreign;
    if run == [] {
      assert OwnOnly(Start(now), id, e, digest) by { StartIsOwn(now, id, e, digest); }
    } else {
      var front, a := run[..|run| - 1], run[|run| - 1];
      assert run == front + [a];
      OnlyOwnRows(now, front, id, e, digest);
      StartInv(now, digest);
      RunKeepsInv(Start(now), front, digest);
      OwnOnlyStep(After(Start(now), front, digest), a, id, e, digest);
    }
  }

  lemma StartIsOwn(now: int, id: EventId, e: Entry, digest: Digest)
    ensures OwnOnly(Start(now), id, e, digest)
  {
  }

  // ---- How a ledgered event can fail permanently ----------------------------------------

  /** The lookup finds nothing it can read, or reads another payload under the same hash. */
  ghost predicate Misread(ledger: seq<Stored>, e: Entry, digest: Digest) {
    var x := Load(ledger, e, digest);
    x.Some? ==> x.value.facts.createdAt.Aware? && e.facts.createdAt.Aware?
                && Collision(digest, CanonicalPayload(x.value), CanonicalPayload(e))
  }

  /** The steps that can strand an event whose entry is, or comes to be, in the ledger: somebody
      else's entry under the identity; an append answered unreadably or as a conflict although the
      identity was free; a duplicate check that gets no answer or cannot read the row; and a release
      at the attempt limit. */
  ghost predicate Cause(s: Sys, a: Act, id: EventId, e: Entry, digest: Digest) {
    match a
    case AppendStep(t, call) =>
      t in s.tasks && s.tasks[t].event == id && (call == Unreadable || call == RefusedAsConflict) && !HasId(s.db.ledger, id)
    case LoadStep(t, answered) =>
      t in s.tasks && s.tasks[t].event == id && (!answered || Misread(s.db.ledger, e, digest))
    case SettleStep(t, delivery, _, maxAttempts) =>
      && AtPc(s, t, AtRelease) && TakesEffect(delivery) && Owns(s.db, id, t) && s.db.outbox[id].attempts >= maxAttempts
    case _ => Foreign(a, id, e)
  }

  ghost predicate HadCause(start: Sys, run: seq<Act>, id: EventId, e: Entry, digest: Digest)
    requires Legal(start, run, digest)
    decreases |run|
  {
    && run != []
    && (|| HadCause(start, run[..|run| - 1], id, e, digest)
        || Cause(After(start, run[..|run| - 1], digest), run[|run| - 1], id, e, digest))
  }

  /** Nothing has gone wrong with the event, unless its entry can never be appended at all. */
  ghost predicate Unharmed(s: Sys, id: EventId, e: Entry, digest: Digest) {
    && OwnOnly(s, id, e, digest)
    && (forall t :: t in s.tasks && s.tasks[t].event == id ==> CourseFits(s, id, e, s.tasks[t].pc, digest))
    && (id in s.db.outbox && s.db.outbox[id].phase == PermanentFailure ==> !ReadyToAppend(e, digest))
  }

  ghost predicate CourseFits(s: Sys, id: EventId, e: Entry, pc: Pc, digest: Digest) {
    && (pc.AtLoad? ==> HasId(s.db.ledger, id))
    && (pc.AtFail? ==> !ReadyToAppend(e, digest))
  }

  /** A duplicate check that is answered, on a ledger that holds nothing but `e`, succeeds. */
  lemma OwnDuplicateIsRecognised(s: Sys, id: EventId, e: Entry, digest: Digest)
    requires OwnOnly(s, id, e, digest) && HasId(s.db.ledger, id) && e.facts.entryId == id
    requires !Misread(s.db.ledger, e, digest)
    ensures Load(s.db.ledger, e, digest).Some? && SameEntry(Load(s.db.ledger, e, digest).value, e)
  {
    hide Load, LoadEntry, CanonicalPayload, ReadyToAppend, SqlAccepts, Persist, Collision;
    var k :| 0 <= k < |s.db.ledger| && IdOf(s.db.ledger[k]) == id;
    assert s.db.ledger[k] in s.db.ledger;
    AppendableIsAware(e, digest);
    var row := LoadReadsRow(s.db.ledger, e, digest);
    OwnRowReads(e, row, Load(s.db.ledger, e, digest).value, digest);
  }

  lemma OwnLoad(s: Sys, t: Token, answered: bool, id: EventId, e: Entry, digest: Digest)
    requires t in s.tasks && s.tasks[t].event == id && s.tasks[t].mapped == Some(e) && e.facts.entryId == id
    requires OwnOnly(s, id, e, digest) && HasId(s.db.ledger, id) && !Cause(s, LoadStep(t, answered), id, e, digest)
    ensures AfterLoad(s, t, answered, digest) == Goto(s, t, AtComplete(true))
  {
    hide OwnOnly, Misread, Load, SameEntry, HasId;
    OwnDuplicateIsRecognised(s, id, e, digest);
  }

  lemma OwnAppend(s: Sys, t: Token, call: AppendCall, id: EventId, e: Entry, digest: Digest)
    requires Enabled(s, AppendStep(t, call), digest)
    requires s.tasks[t].event == id && s.tasks[t].mapped == Some(e) && e.facts.entryId == id
    requires !Cause(s, AppendStep(t, call), id, e, digest)
    ensures t in AfterAppend(s, t, call).tasks
    ensures var pc := AfterAppend(s, t, call).tasks[t].pc;
            (pc.AtLoad? ==> HasId(s.db.ledger, id)) && (pc.AtFail? ==> !ReadyToAppend(e, digest))
  {
    hide ReadyToAppend, Appendable, HasId, Append, Persist;
  }

  /** The worker of the event moves. */
  lemma OwnMove(s: Sys, a: Act, t: Token, id: EventId, e: Entry, digest: Digest)
    requires Enabled(s, a, digest) && Moves(a, t) && t in s.tasks && s.tasks[t] == Task(id, Some(e), s.tasks[t].pc) && e.facts.entryId == id
    requires OwnOnly(s, id, e, digest) && CourseFits(s, id, e, s.tasks[t].pc, digest) && !Cause(s, a, id, e, digest)
    ensures t in Effect(s, a, digest).tasks
    ensures var pc := Effect(s, a, digest).tasks[t].pc;
            (pc.AtLoad? ==> HasId(s.db.ledger, id)) && (pc.AtFail? ==> !ReadyToAppend(e, digest))
  {
    if a.LoadStep? { OwnLoad(s, t, a.answered, id, e, digest); }
    else if a.AppendStep? { OwnAppend(s, t, a.call, id, e, digest); }
    hide OwnOnly, Cause, CourseFits, ReadyToAppend, Appendable, AfterLoad, AfterAppend, HasId, Settle, SettlementOf;
  }

  lemma CoursesStayFit(s: Sys, a: Act, t: Token, id: EventId, e: Entry, digest: Digest)
    requires Inv(s, digest) && Enabled(s, a, digest) && Unharmed(s, id, e, digest) && !Cause(s, a, id, e, digest)
    requires t in Effect(s, a, digest).tasks && Effect(s, a, digest).tasks[t].event == id
    ensures CourseFits(Effect(s, a, digest), id, e, Effect(s, a, digest).tasks[t].pc, digest)
  {
    StepKeepsInv(s, a, digest);
    hide Effect, Enabled, LedgerOk, EventOk, Cause, OwnOnly, HasId, ReadyToAppend;
    if t !in s.tasks {
      NewTaskStep(s, a, t, digest);
    } else {
      assert TaskOk(s, t, digest) && s.tasks[t].mapped == Some(e) by { assert OwnOnly(s, id, e, digest); OwnTask(s, t, id, e, digest); }
      if Moves(a, t) { OwnMove(s, a, t, id, e, digest); } else { OtherTaskUntouched(s, a, t, digest); }
      if HasId(s.db.ledger, id) { HasIdGrows(s.db.ledger, Effect(s, a, digest).db.ledger, id); }
    }
  }

  lemma OwnTask(s: Sys, t: Token, id: EventId, e: Entry, digest: Digest)
    requires OwnOnly(s, id, e, digest) && t in s.tasks && s.tasks[t].event == id
    ensures s.tasks[t].mapped == Some(e)
  {
  }

  /** The event's row fails permanently only by a failing worker of its own or at the limit. */
  lemma FailingStep(s: Sys, a: Act, id: EventId, digest: Digest)
    requires Enabled(s, a, digest) && id in Effect(s, a, digest).db.outbox
    requires Effect(s, a, digest).db.outbox[id].phase == PermanentFailure
    ensures || (id in s.db.outbox && s.db.outbox[id].phase == PermanentFailure)
            || (a.SettleStep? && TakesEffect(a.delivery) && Owns(s.db, id, a.token) && s.tasks[a.token].event == id
                && (s.tasks[a.token].pc.AtFail? || (s.tasks[a.token].pc == AtRelease && s.db.outbox[id].attempts >= a.maxAttempts)))
  {
    hide ReadyToAppend, SqlAccepts, Persist, Load, SameEntry, HasId;
  }

  lemma UnharmedStep(s: Sys, a: Act, id: EventId, e: Entry, digest: Digest)
    requires Inv(s, digest) && Enabled(s, a, digest) && Unharmed(s, id, e, digest) && !Cause(s, a, id, e, digest)
    ensures Unharmed(Effect(s, a, digest), id, e, digest)
  {
    var u := Effect(s, a, digest);
    hide Effect, Enabled, Inv, OwnOnly, HasId, ReadyToAppend, Misread;
    OwnOnlyStep(s, a, id, e, digest);
    forall t | t in u.tasks && u.tasks[t].event == id ensures CourseFits(u, id, e, u.tasks[t].pc, digest) {
      CoursesStayFit(s, a, t, id, e, digest);
    }
    if id in u.db.outbox && u.db.outbox[id].phase == PermanentFailure { FailingStep(s, a, id, digest); }
  }

  lemma {:induction false} WithoutCauseUnharmed(now: int, run: seq<Act>, id: EventId, e: Entry, digest: Digest)
    requires Legal(Start(now), run, digest) && !HadCause(Start(now), run, id, e, digest)
    ensures Unharmed(After(Start(now), run, digest), id, e, digest)
  {
    hide Enabled, Effect, Unharmed, Cause;
    if run == [] {
      assert Unharmed(Start(now), id, e, digest) by { StartIsUnharmed(now, id, e, digest); }
    } else {
      var front, a := run[..|run| - 1], run[|run| - 1];
      WithoutCauseUnharmed(now, front, id, e, digest);
      StartInv(now, digest);
      RunKeepsInv(Start(now), front, digest);
      UnharmedStep(After(Start(now), front, digest), a, id, e, digest);
    }
  }

  lemma StartIsUnharmed(now: int, id: EventId, e: Entry, digest: Digest)
    ensures Unharmed(Start(now), id, e, digest)
  {
  }

  /** In every run, an event that failed permanently although its entry is in the ledger, or could
      have been appended, had one of the causes above on the way. So without them an entry once in
      the ledger protects its event from permanent failure for ever. */
  lemma StrandedOnlyByACause(now: int, run: seq<Act>, id: EventId, e: Entry, digest: Digest)
    requires Legal(Start(now), run, digest)
    requires var u := After(Start(now), run, digest);
             && id in u.db.outbox && u.db.outbox[id].phase == PermanentFailure
             && (HasId(u.db.ledger, id) || ReadyToAppend(e, digest))
    ensures HadCause(Start(now), run, id, e, digest)
  {
    hide Enabled, Effect, HadCause, ReadyToAppend, SqlAccepts, Persist;
    if !HadCause(Start(now), run, id, e, digest) {
      WithoutCauseUnharmed(now, run, id, e, digest);
      var u := After(Start(now), run, digest);
      if HasId(u.db.ledger, id) {
        var k :| 0 <= k < |u.db.ledger| && IdOf(u.db.ledger[k]) == id;
        assert u.db.ledger[k] in u.db.ledger;
        AppendableIsAware(e, digest);
      }
    }
  }

  // ---- When a permanent failure means a ledgered entry ----------------------------------

  /** The step has the database execute an append under the identity. */
  predicate Executes(s: Sys, a: Act, id: EventId) {
    || (a.OtherAppend? && a.entry.facts.entryId == id)
    || (a.AppendStep? && a.token in s.tasks && s.tasks[a.token].event == id && Writes(a.call))
  }

  ghost predicate HadExecution(start: Sys, run: seq<Act>, id: EventId, digest: Digest)
    requires Legal(start, run, digest)
    decreases |run|
  {
    && run != []
    && (|| HadExecution(start, run[..|run| - 1], id, digest)
        || Executes(After(start, run[..|run| - 1], digest), run[|run| - 1], id))
  }

  lemma HasIdSnoc(ledger: seq<Stored>, row: Stored, id: string)
    ensures HasId(ledger + [row], id) <==> HasId(ledger, id) || IdOf(row) == id
  {
    var more := ledger + [row];
    if HasId(ledger, id) { HasIdGrows(ledger, more, id); }
    assert more[|ledger|] == row;
    if HasId(more, id) {
      var k :| 0 <= k < |more| && IdOf(more[k]) == id;
      assert k < |ledger| ==> ledger[k] == more[k];
    }
  }

  /** One append of the protocol puts the identity into the ledger, whether or not it was there. */
  lemma AppendTakes(db: Db, e: Entry, id: EventId)
    requires e.facts.createdAt.Aware?
    ensures HasId(Append(db, e).ledger, id) <==> HasId(db.ledger, id) || e.facts.entryId == id
  {
    hide Persist, HasId;
    PersistNames(e);
    HasIdSnoc(db.ledger, Persist(e), id);
  }

  lemma LedgerOfAppend(s: Sys, t: Token, call: AppendCall)
    requires t in s.tasks && s.tasks[t].mapped.Some? && (Writes(call) ==> s.tasks[t].mapped.value.facts.createdAt.Aware?)
    ensures AfterAppend(s, t, call).db.ledger == if Writes(call) then Append(s.db, s.tasks[t].mapped.value).ledger else s.db.ledger
  {
    hide Persist, HasId;
  }

  lemma ExecutionStep(s: Sys, a: Act, id: EventId, digest: Digest)
    requires Inv(s, digest) && Enabled(s, a, digest)
    ensures HasId(Effect(s, a, digest).db.ledger, id) <==> HasId(s.db.ledger, id) || Executes(s, a, id)
  {
    if a.OtherAppend? {
      AppendableIsAware(a.entry, digest);
      hide Appendable, Persist, HasId;
      PersistNames(a.entry);
      HasIdSnoc(s.db.ledger, Persist(a.entry), id);
    } else if a.AppendStep? {
      assert TaskOk(s, a.token, digest);
      hide Inv, TaskOk, Persist, HasId, ReadyToAppend, SqlAccepts, Append, AfterAppend;
      LedgerOfAppend(s, a.token, a.call);
      if Writes(a.call) { AppendTakes(s.db, s.tasks[a.token].mapped.value, id); }
    } else {
      hide Inv, Enabled, Effect, HasId;
      LedgerStays(s, a, digest);
    }
  }

  lemma LedgerStays(s: Sys, a: Act, digest: Digest)
    requires Enabled(s, a, digest) && !a.OtherAppend? && !a.AppendStep?
    ensures Effect(s, a, digest).db.ledger == s.db.ledger
  {
    hide ReadyToAppend, Load, SameEntry, HasId, SettlementOf, PcAfter, Claimable;
  }

  /** In every run, and so for a permanently failed event as well, the ledger holds an entry under the
      identity if and only if the database executed some append under it, answered or not. */
  lemma {:induction false} LedgeredExactlyByExecution(now: int, run: seq<Act>, id: EventId, digest: Digest)
    requires Legal(Start(now), run, digest)
    ensures HasId(After(Start(now), run, digest).db.ledger, id) <==> HadExecution(Start(now), run, id, digest)
  {
    hide Enabled, Effect, Executes;
    if run != [] {
      var front, a := run[..|run| - 1], run[|run| - 1];
      LedgeredExactlyByExecution(now, front, id, digest);
      StartInv(now, digest);
      RunKeepsInv(Start(now), front, digest);
      ExecutionStep(After(Start(now), front, digest), a, id, digest);
    }
  }

  /** The steps by which an event can fail permanently without its entry: a claim that maps to
      something else, an append refused as a conflict although the identity was free, and a release
      at the attempt limit. */
  ghost predicate Refusal(s: Sys, a: Act, id: EventId, e: Entry) {
    match a
    case ClaimEvent(claimed, _, mapped) => claimed == id && mapped != Some(e)
    case AppendStep(t, call) => t in s.tasks && s.tasks[t].event == id && call == RefusedAsConflict && !HasId(s.db.ledger, id)
    case SettleStep(t, delivery, _, maxAttempts) =>
      && AtPc(s, t, AtRelease) && TakesEffect(delivery) && Owns(s.db, id, t) && s.db.outbox[id].attempts >= maxAttempts
    case _ => false
  }

  ghost predicate HadRefusal(start: Sys, run: seq<Act>, id: EventId, e: Entry, digest: Digest)
    requires Legal(start, run, digest)
    decreases |run|
  {
    && run != []
    && (|| HadRefusal(start, run[..|run| - 1], id, e, digest)
        || Refusal(After(start, run[..|run| - 1], digest), run[|run| - 1], id, e))
  }

  /** The event's workers carry `e`, and one that is about to fail the event leaves a ledgered entry. */
  ghost predicate FailsLedgered(s: Sys, id: EventId, e: Entry) {
    && (forall t :: t in s.tasks && s.tasks[t].event == id ==>
          s.tasks[t].mapped == Some(e) && (s.tasks[t].pc.AtLoad? || s.tasks[t].pc.AtFail? ==> HasId(s.db.ledger, id)))
    && (id in s.db.outbox && s.db.outbox[id].phase == PermanentFailure ==> HasId(s.db.ledger, id))
  }

  /** The worker of the event moves. */
  lemma LedgeredMove(s: Sys, a: Act, t: Token, id: EventId, e: Entry, digest: Digest)
    requires Enabled(s, a, digest) && Moves(a, t) && t in s.tasks && s.tasks[t] == Task(id, Some(e), s.tasks[t].pc) && e.facts.entryId == id
    requires s.tasks[t].pc.AtLoad? || s.tasks[t].pc.AtFail? ==> HasId(s.db.ledger, id)
    requires ReadyToAppend(e, digest) && !Refusal(s, a, id, e)
    ensures t in Effect(s, a, digest).tasks
    ensures var pc := Effect(s, a, digest).tasks[t].pc;
            pc.AtLoad? || pc.AtFail? ==> HasId(s.db.ledger, id) || Executes(s, a, id)
  {
    hide ReadyToAppend, Appendable, Load, SameEntry, HasId, Settle, SettlementOf, Append;
  }

  lemma LedgeredTask(s: Sys, a: Act, t: Token, id: EventId, e: Entry, digest: Digest)
    requires Inv(s, digest) && Enabled(s, a, digest) && FailsLedgered(s, id, e) && ReadyToAppend(e, digest) && !Refusal(s, a, id, e)
    requires t in Effect(s, a, digest).tasks && Effect(s, a, digest).tasks[t].event == id
    ensures var u := Effect(s, a, digest);
            u.tasks[t].mapped == Some(e) && (u.tasks[t].pc.AtLoad? || u.tasks[t].pc.AtFail? ==> HasId(u.db.ledger, id))
  {
    StepKeepsInv(s, a, digest);
    ExecutionStep(s, a, id, digest);
    hide Effect, Enabled, LedgerOk, EventOk, HasId, ReadyToAppend, Executes;
    if t !in s.tasks {
      NewTaskStep(s, a, t, digest);
    } else {
      assert TaskOk(s, t, digest);
      hide Inv, TaskOk;
      if Moves(a, t) { LedgeredMove(s, a, t, id, e, digest); } else { OtherTaskUntouched(s, a, t, digest); }
    }
  }

  lemma LedgeredStep(s: Sys, a: Act, id: EventId, e: Entry, digest: Digest)
    requires Inv(s, digest) && Enabled(s, a, digest) && FailsLedgered(s, id, e) && ReadyToAppend(e, digest) && !Refusal(s, a, id, e)
    ensures FailsLedgered(Effect(s, a, digest), id, e)
  {
    var u := Effect(s, a, digest);
    hide Effect, Enabled, Inv, HasId, ReadyToAppend, Executes;
    ExecutionStep(s, a, id, digest);
    forall t | t in u.tasks && u.tasks[t].event == id
      ensures u.tasks[t].mapped == Some(e) && (u.tasks[t].pc.AtLoad? || u.tasks[t].pc.AtFail? ==> HasId(u.db.ledger, id))
    {
      LedgeredTask(s, a, t, id, e, digest);
    }
    if id in u.db.outbox && u.db.outbox[id].phase == PermanentFailure { FailingStep(s, a, id, digest); }
  }

  lemma {:induction false} WithoutRefusalLedgered(now: int, run: seq<Act>, id: EventId, e: Entry, digest: Digest)
    requires Legal(Start(now), run, digest) && ReadyToAppend(e, digest) && !HadRefusal(Start(now), run, id, e, digest)
    ensures FailsLedgered(After(Start(now), run, digest), id, e)
  {
    hide Enabled, Effect, FailsLedgered, Refusal, ReadyToAppend;
    if run == [] {
      assert FailsLedgered(Start(now), id, e) by { StartFailsLedgered(now, id, e); }
    } else {
      var front, a := run[..|run| - 1], run[|run| - 1];
      WithoutRefusalLedgered(now, front, id, e, digest);
      StartInv(now, digest);
      RunKeepsInv(Start(now), front, digest);
      LedgeredStep(After(Start(now), front, digest), a, id, e, digest);
    }
  }

  lemma StartFailsLedgered(now: int, id: EventId, e: Entry)
    ensures FailsLedgered(Start(now), id, e)
  {
  }

  /** In every run, an event that failed permanently without its entry in the ledger, although that
      could have been appended, had such a refusal on the way. Without one every permanent failure
      strands a written entry: some append of the event was executed. */
  lemma UnledgeredOnlyByARefusal(now: int, run: seq<Act>, id: EventId, e: Entry, digest: Digest)
    requires Legal(Start(now), run, digest) && ReadyToAppend(e, digest)
    requires var u := After(Start(now), run, digest); id in u.db.outbox && u.db.outbox[id].phase == PermanentFailure
    ensures HadRefusal(Start(now), run, id, e, digest) || HadExecution(Start(now), run, id, digest)
    ensures !HasId(After(Start(now), run, digest).db.ledger, id) ==> HadRefusal(Start(now), run, id, e, digest)
  {
    hide Enabled, Effect, HadRefusal, HadExecution, ReadyToAppend, HasId;
    LedgeredExactlyByExecution(now, run, id, digest);
    if !HadRefusal(Start(now), run, id, e, digest) { WithoutRefusalLedgered(now, run, id, e, digest); }
  }

  // ---- Runs in which it happens ---------------------------------------------------------

  /** An event is claimed and mapped to `e`. */
  lemma ClaimedAndMapped(s: Sys, id: EventId, e: Entry, digest: Digest) returns (run: seq<Act>)
    requires Claimable(s.db, id) && e.facts.entryId == id
    ensures Legal(s, run, digest)
    ensures var u := After(s, run, digest);
            && Working(u, s.db.nextToken, id, e, AtAppend) && u.db.ledger == s.db.ledger && u.db.now == s.db.now
            && id in s.db.outbox && u.db.outbox[id].attempts == s.db.outbox[id].attempts + 1
  {
    assert Legal(s, [], digest);
    Extend(s, [], ClaimEvent(id, 60, Some(e)), digest);
    run := [] + [ClaimEvent(id, 60, Some(e))];
    MapsUndisturbed(After(s, run, digest), s.db.nextToken, id, e, digest);
    Extend(s, run, MapStep(s.db.nextToken, ContractFailure), digest);
    run := run + [MapStep(s.db.nextToken, ContractFailure)];
  }

  /** The entry is written, or was already, and the worker does not learn it. */
  lemma AppendUnlearned(s: Sys, t: Token, id: EventId, e: Entry, call: AppendCall, digest: Digest)
    requires Working(s, t, id, e, AtAppend) && e.facts.entryId == id && Appendable(e, digest)
    requires call == Reached(ResponseLost) || (call == Unreadable && !HasId(s.db.ledger, id))
    ensures Enabled(s, AppendStep(t, call), digest) && e.facts.createdAt.Aware?
    ensures var u := Effect(s, AppendStep(t, call), digest);
            Working(u, t, id, e, if call == Unreadable then AtFail(ContractFailure) else AtRelease) && u.db == Append(s.db, e)
  {
    AppendableIsAware(e, digest);
    hide ReadyToAppend, SqlAccepts, HasId, Append, AfterAppend;
    UnlearnedLeads(s, t, call);
    AppendKeepsOutbox(s.db, e);
  }

  lemma UnlearnedLeads(s: Sys, t: Token, call: AppendCall)
    requires t in s.tasks && s.tasks[t].mapped.Some? && s.tasks[t].mapped.value.facts.createdAt.Aware?
    requires call == Reached(ResponseLost) || (call == Unreadable && !HasId(s.db.ledger, s.tasks[t].mapped.value.facts.entryId))
    ensures AfterAppend(s, t, call)
            == Goto(s.(db := Append(s.db, s.tasks[t].mapped.value)), t, if call == Unreadable then AtFail(ContractFailure) else AtRelease)
  {
    hide HasId, Append;
  }

  lemma WrittenIsInLedger(db: Db, e: Entry)
    requires e.facts.createdAt.Aware?
    requires HasId(db.ledger, e.facts.entryId) ==> InLedger(db.ledger, e.facts.entryId, e.integrityHash)
    ensures InLedger(Append(db, e).ledger, e.facts.entryId, e.integrityHash)
    ensures HasId(Append(db, e).ledger, e.facts.entryId)
  {
    hide Persist;
    PersistNames(e);
    if !HasId(db.ledger, e.facts.entryId) {
      var more := Append(db, e).ledger;
      assert more[|more| - 1] == Persist(e);
    }
  }

  lemma Fails(s: Sys, t: Token, id: EventId, e: Entry, error: ErrorClass, digest: Digest)
    requires Working(s, t, id, e, AtFail(error))
    ensures Enabled(s, SettleStep(t, Answered, 0, 0), digest)
    ensures var u := Effect(s, SettleStep(t, Answered, 0, 0), digest);
            id in u.db.outbox && u.db.outbox[id].phase == PermanentFailure && u.db.ledger == s.db.ledger
  {
  }

  lemma Releases(s: Sys, t: Token, id: EventId, e: Entry, limit: int, digest: Digest)
    requires Working(s, t, id, e, AtRelease)
    ensures Enabled(s, SettleStep(t, Answered, 30, limit), digest)
    ensures var u := Effect(s, SettleStep(t, Answered, 30, limit), digest);
            && u.db.ledger == s.db.ledger && u.db.now == s.db.now && id in s.db.outbox
            && u.db.outbox == s.db.outbox[id := Settled(s.db.outbox[id], ReleaseWith(30, limit), s.db.now)]
  {
  }

  /** The event failed permanently and the ledger holds its entry. */
  predicate Stranded(s: Sys, id: EventId, e: Entry) {
    && id in s.db.outbox && s.db.outbox[id].phase == PermanentFailure
    && e.facts.entryId == id && InLedger(s.db.ledger, id, e.integrityHash)
  }

  lemma Submitted(id: EventId, digest: Digest) returns (run: seq<Act>)
    ensures Legal(Start(0), run, digest)
    ensures var u := After(Start(0), run, digest);
            Claimable(u.db, id) && u.db.outbox[id].attempts == 0 && u.db.ledger == []
  {
    assert Legal(Start(0), [], digest);
    Extend(Start(0), [], NewEvent(id), digest);
    run := [] + [NewEvent(id)];
  }

  /** An append that is written but answered unreadably. */
  lemma UnreadableAnswerStrands(id: EventId, e: Entry, digest: Digest) returns (run: seq<Act>)
    requires e.facts.entryId == id && Appendable(e, digest)
    ensures Legal(Start(0), run, digest) && Stranded(After(Start(0), run, digest), id, e)
  {
    hide Appendable, Claimable, Working, InLedger, Enabled, Effect, Append;
    run := Submitted(id, digest);
    var s := After(Start(0), run, digest);
    var pass := ClaimedAndMapped(s, id, e, digest);
    Concat(Start(0), run, pass, digest);
    run := run + pass;
    var m := After(Start(0), run, digest);
    var t := s.db.nextToken;
    AppendUnlearned(m, t, id, e, Unreadable, digest);
    WrittenIsInLedger(m.db, e);
    Extend(Start(0), run, AppendStep(t, Unreadable), digest);
    run := run + [AppendStep(t, Unreadable)];
    Fails(After(Start(0), run, digest), t, id, e, ContractFailure, digest);
    Extend(Start(0), run, SettleStep(t, Answered, 0, 0), digest);
    run := run + [SettleStep(t, Answered, 0, 0)];
  }

  /** One attempt whose append is written but whose response is lost. */
  lemma LostResponse(s: Sys, id: EventId, e: Entry, limit: int, digest: Digest) returns (run: seq<Act>)
    requires Claimable(s.db, id) && e.facts.entryId == id && Appendable(e, digest)
    requires HasId(s.db.ledger, id) ==> InLedger(s.db.ledger, id, e.integrityHash)
    ensures Legal(s, run, digest)
    ensures var u := After(s, run, digest);
            && id in s.db.outbox && id in u.db.outbox && u.db.outbox[id].attempts == s.db.outbox[id].attempts + 1
            && u.db.outbox[id].phase == (if u.db.outbox[id].attempts >= limit then PermanentFailure else Pending)
            && (u.db.outbox[id].phase == Pending ==> u.db.outbox[id].nextAttempt == u.db.now + 30)
            && InLedger(u.db.ledger, id, e.integrityHash) && HasId(u.db.ledger, id)
  {
    hide Appendable, Claimable, InLedger, HasId, Enabled, Effect, Append;
    var t := s.db.nextToken;
    run := ClaimedAndMapped(s, id, e, digest);
    var m := After(s, run, digest);
    AppendUnlearned(m, t, id, e, Reached(ResponseLost), digest);
    WrittenIsInLedger(m.db, e);
    AppendKeepsOutbox(m.db, e);
    Extend(s, run, AppendStep(t, Reached(ResponseLost)), digest);
    run := run + [AppendStep(t, Reached(ResponseLost))];
    Releases(After(s, run, digest), t, id, e, limit, digest);
    Extend(s, run, SettleStep(t, Answered, 30, limit), digest);
    run := run + [SettleStep(t, Answered, 30, limit)];
  }

  lemma AppendKeepsOutbox(db: Db, e: Entry)
    requires e.facts.createdAt.Aware?
    ensures Append(db, e).outbox == db.outbox && Append(db, e).now == db.now
  {
  }

  /** `n` attempts, each written and each unanswered, below the limit; the backoff has passed. */
  lemma {:induction false} LostResponses(id: EventId, e: Entry, limit: int, n: nat, digest: Digest) returns (run: seq<Act>)
    requires e.facts.entryId == id && Appendable(e, digest) && n < limit
    ensures Legal(Start(0), run, digest)
    ensures var u := After(Start(0), run, digest);
            && Claimable(u.db, id) && u.db.outbox[id].attempts == n
            && (HasId(u.db.ledger, id) ==> InLedger(u.db.ledger, id, e.integrityHash))
            && (n > 0 ==> HasId(u.db.ledger, id))
  {
    hide Appendable, InLedger, Enabled;
    if n == 0 {
      run := Submitted(id, digest);
    } else {
      run := LostResponses(id, e, limit, n - 1, digest);
      var s := After(Start(0), run, digest);
      var attempt := LostResponse(s, id, e, limit, digest);
      Concat(Start(0), run, attempt, digest);
      run := run + attempt;
      assert Enabled(After(Start(0), run, digest), Tick(30), digest) by { AlwaysTicks(After(Start(0), run, digest), 30, digest); }
      Extend(Start(0), run, Tick(30), digest);
      run := run + [Tick(30)];
    }
  }

  lemma AlwaysTicks(s: Sys, elapsed: nat, digest: Digest)
    ensures Enabled(s, Tick(elapsed), digest)
  {
  }

  /** Every append is written and every response is lost, until the attempts are used up. */
  lemma LostResponsesStrand(id: EventId, e: Entry, limit: int, digest: Digest) returns (run: seq<Act>)
    requires e.facts.entryId == id && Appendable(e, digest) && limit >= 1
    ensures Legal(Start(0), run, digest) && Stranded(After(Start(0), run, digest), id, e)
    ensures After(Start(0), run, digest).db.outbox[id].attempts == limit
  {
    hide Appendable, InLedger, HasId, Enabled, Effect, Claimable;
    run := LostResponses(id, e, limit, limit - 1, digest);
    var last := LostResponse(After(Start(0), run, digest), id, e, limit, digest);
    Concat(Start(0), run, last, digest);
    run := run + last;
  }

  /** A written append whose response is lost, and a retry whose duplicate check gets no answer. */
  lemma UnansweredCheckStrands(id: EventId, e: Entry, digest: Digest) returns (run: seq<Act>)
    requires e.facts.entryId == id && Appendable(e, digest)
    ensures Legal(Start(0), run, digest) && Stranded(After(Start(0), run, digest), id, e)
  {
    hide Appendable, Claimable, Working, InLedger, HasId, Enabled, Effect, Append;
    run := LostResponses(id, e, 2, 1, digest);
    var s := After(Start(0), run, digest);
    var t := s.db.nextToken;
    var pass := ClaimedAndMapped(s, id, e, digest);
    Concat(Start(0), run, pass, digest);
    run := run + pass;
    AppendsUndisturbed(After(Start(0), run, digest), t, id, e, digest);
    Extend(Start(0), run, AppendStep(t, Reached(Answered)), digest);
    run := run + [AppendStep(t, Reached(Answered))];
    Unanswered(After(Start(0), run, digest), t, id, e, digest);
    Extend(Start(0), run, LoadStep(t, false), digest);
    run := run + [LoadStep(t, false)];
    Fails(After(Start(0), run, digest), t, id, e, DuplicateMismatch, digest);
    Extend(Start(0), run, SettleStep(t, Answered, 0, 0), digest);
    run := run + [SettleStep(t, Answered, 0, 0)];
  }

  lemma Unanswered(s: Sys, t: Token, id: EventId, e: Entry, digest: Digest)
    requires Working(s, t, id, e, AtLoad)
    ensures Enabled(s, LoadStep(t, false), digest)
    ensures var u := Effect(s, LoadStep(t, false), digest); Working(u, t, id, e, AtFail(DuplicateMismatch)) && u.db == s.db
  {
    hide Load, SameEntry;
  }

  // ---- The attempt limit ----------------------------------------------------------------

  /** Some claim took the event over from a worker that had not settled it, with the attempts
      already used up. */
  ghost predicate ClaimedOver(start: Sys, run: seq<Act>, id: EventId, limit: int, digest: Digest)
    requires Legal(start, run, digest)
    decreases |run|
  {
    && run != []
    && var front, a := run[..|run| - 1], run[|run| - 1];
       || ClaimedOver(start, front, id, limit, digest)
       || (a.ClaimEvent? && a.id == id
           && var db := After(start, front, digest).db;
              id in db.outbox && db.outbox[id].phase == Processing && db.outbox[id].attempts >= limit)
  }

  /** With one attempt limit for all releases, an event is claimed more often than that if and only
      if some claim found it still being processed with the attempts used up. */
  lemma {:induction false} LimitIsPassedExactly(now: int, run: seq<Act>, id: EventId, limit: int, digest: Digest)
    requires Legal(Start(now), run, digest) && limit >= 1
    requires forall a :: a in run && a.SettleStep? ==> a.maxAttempts == limit
    ensures Claims(run, id) > limit <==> ClaimedOver(Start(now), run, id, limit, digest)
  {
    hide Enabled, Effect;
    if run != [] {
      var front, a := run[..|run| - 1], run[|run| - 1];
      assert run == front + [a];
      LimitIsPassedExactly(now, front, id, limit, digest);
      PendingIsBelowTheLimit(now, front, id, limit, digest);
      AttemptsCountClaims(now, front, id, digest);
      if a.ClaimEvent? && a.id == id { ClaimedFrom(After(Start(now), front, digest), a, digest); }
    }
  }

  lemma ClaimedFrom(s: Sys, a: Act, digest: Digest)
    requires Enabled(s, a, digest) && a.ClaimEvent?
    ensures a.id in s.db.outbox && (s.db.outbox[a.id].phase == Pending || s.db.outbox[a.id].phase == Processing)
  {
  }

  /** The attempt limit is applied only when a worker releases its claim: workers that crash and
      are claimed over can drive the count beyond any bound. */
  lemma {:induction false} CrashesEscapeTheAttemptLimit(id: EventId, n: nat, digest: Digest) returns (run: seq<Act>)
    ensures Legal(Start(0), run, digest)
    ensures var u := After(Start(0), run, digest);
            && id in u.db.outbox && u.db.outbox[id].phase == Processing && u.db.outbox[id].attempts == n + 1
            && u.db.outbox[id].leaseExpires == Some(u.db.now + 60)
  {
    var s := Start(0);
    if n == 0 {
      assert Legal(s, [], digest);
      Extend(s, [], NewEvent(id), digest);
      Extend(s, [] + [NewEvent(id)], ClaimEvent(id, 60, None), digest);
      run := [] + [NewEvent(id)] + [ClaimEvent(id, 60, None)];
    } else {
      run := CrashesEscapeTheAttemptLimit(id, n - 1, digest);
      Extend(s, run, Tick(61), digest);
      Extend(s, run + [Tick(61)], ClaimEvent(id, 60, None), digest);
      run := run + [Tick(61)] + [ClaimEvent(id, 60, None)];
    }
  }
}
