/** The decision-trace outbox as a transition system: any number of workers, the lease-guarded
    outbox rows and the append-only ledger they share.

    Sources: the worker (apps/api/app/decision_trace_persistence/processor.py), its adapters
    (outbox_repository.py, repository.py), and the database functions of
    supabase/migrations/20260926120000_add_p8_outbox_processor_boundary.sql. Every database call is
    one step; a request or its response may be lost, a worker may crash between any two steps,
    leases run out while work goes on, and other producers append to the same ledger.
  */
module OutboxProtocol {
  import opened Wrappers
  import opened CanonicalLedger
  import opened LedgerStorage

  type EventId = string
  type Token = nat

  datatype ErrorClass = TransientUnavailable | DuplicateMismatch | SourceIntegrityFailure | ContractFailure

  datatype Phase = Pending | Processing | Completed | PermanentFailure

  /** The operational columns of one outbox row; its source columns never change. */
  datatype Event = Event(phase: Phase, attempts: nat, nextAttempt: int, owner: Option<Token>, leaseExpires: Option<int>,
                         completedHash: Option<string>, lastError: Option<ErrorClass>)

  datatype Db = Db(now: int, outbox: map<EventId, Event>, ledger: seq<Stored>, nextToken: Token)

  // ---- The database functions ---------------------------------------------------------

  predicate Claimable(db: Db, id: EventId) {
    && id in db.outbox
    && var e := db.outbox[id];
       || (e.phase == Pending && e.nextAttempt <= db.now)
       || (e.phase == Processing && e.leaseExpires.Some? && e.leaseExpires.value < db.now)
  }

  /** One row of `claim_decision_trace_outbox_events`: a new token, a new lease, one attempt more. */
  function Claim(db: Db, id: EventId, lease: nat): Db
    requires Claimable(db, id)
  {
    var e := db.outbox[id];
    db.(outbox := db.outbox[id := e.(phase := Processing, owner := Some(db.nextToken), leaseExpires := Some(db.now + lease),
                                     attempts := e.attempts + 1)],
        nextToken := db.nextToken + 1)
  }

  predicate Owns(db: Db, id: EventId, token: Token) {
    id in db.outbox && db.outbox[id].phase == Processing && db.outbox[id].owner == Some(token)
  }

  datatype Settlement = CompleteWith(hash: string) | ReleaseWith(backoff: int, maxAttempts: int) | FailWith(error: ErrorClass)

  /** The release function raises on a backoff outside one second to one day, whatever the claim. */
  predicate Admissible(how: Settlement) {
    how.ReleaseWith? ==> 1 <= how.backoff <= 86400
  }

  function Settled(e: Event, how: Settlement, now: int): Event {
    var free := e.(owner := None, leaseExpires := None);
    match how
    case CompleteWith(hash) => free.(phase := Completed, completedHash := Some(hash))
    case FailWith(error) => free.(phase := PermanentFailure, lastError := Some(error))
    case ReleaseWith(backoff, maxAttempts) =>
      if e.attempts >= maxAttempts then free.(phase := PermanentFailure, lastError := Some(TransientUnavailable))
      else free.(phase := Pending, nextAttempt := now + backoff, lastError := Some(TransientUnavailable))
  }

  /** `complete_`, `release_` and `fail_decision_trace_outbox_event`: guarded by the claim token and
      nothing else, so a lease that has run out still settles as long as nobody claimed again. */
  function Settle(db: Db, id: EventId, token: Token, how: Settlement): Db {
    if Owns(db, id, token) && Admissible(how) then db.(outbox := db.outbox[id := Settled(db.outbox[id], how, db.now)]) else db
  }

  function IdOf(s: Stored): string { s.row.facts.entryId }

  predicate HasId(ledger: seq<Stored>, id: string) {
    exists k :: 0 <= k < |ledger| && IdOf(ledger[k]) == id
  }

  predicate InLedger(ledger: seq<Stored>, id: string, hash: string) {
    exists k :: 0 <= k < |ledger| && IdOf(ledger[k]) == id && ledger[k].row.integrityHash == hash
  }

  /** Passes the adapter's checks before the call, and those of the append function and the table
      that concern the entry alone. */
  predicate Appendable(e: Entry, digest: Digest) {
    e.facts.createdAt.Aware? && ReadyToAppend(e, digest) && SqlAccepts(CanonicalPayload(e), e.integrityHash)
  }

  /** `append_decision_trace_ledger`, when it accepts: identities are unique. */
  function Append(db: Db, e: Entry): Db
    requires e.facts.createdAt.Aware?
  {
    if HasId(db.ledger, e.facts.entryId) then db else db.(ledger := db.ledger + [Persist(e)])
  }

  /** `load_student_entry` for the identity, student and tenant of `e`. */
  function Load(ledger: seq<Stored>, e: Entry, digest: Digest): Option<Entry> {
    if ledger == [] then None
    else
      var s, f := ledger[|ledger| - 1], ledger[|ledger| - 1].row.facts;
      if f.entryId != e.facts.entryId then Load(ledger[..|ledger| - 1], e, digest)
      else if f.studentId.Some? && f.studentId == e.facts.studentId && f.universityId == e.facts.universityId
              && f.scopeType == StudentIndividual
      then LoadEntry(s.row, s.evidence, digest)
      else None
  }

  /** What the worker accepts as its own entry, already written. */
  predicate SameEntry(existing: Entry, mapped: Entry) {
    && existing.integrityHash == mapped.integrityHash
    && existing.facts.createdAt.Aware? && mapped.facts.createdAt.Aware?
    && CanonicalPayload(existing) == CanonicalPayload(mapped)
  }

  // ---- Workers ------------------------------------------------------------------------

  datatype Status = StatusCompleted | IdempotentDuplicate | TransientRetry | StatusPermanentFailure | CompletionFailed(stale: bool)

  datatype Pc =
    | AtMap
    | AtAppend
    | AtLoad
    | AtComplete(duplicate: bool)
    | AtRelease
    | AtFail(error: ErrorClass)
    | Finished(status: Status)
    | Crashed

  /** The processing of one claim. `mapped` is what the mapper makes of the claimed projection. */
  datatype Task = Task(event: EventId, mapped: Option<Entry>, pc: Pc)

  datatype Sys = Sys(db: Db, tasks: map<Token, Task>)

  /** What becomes of a call: answered, lost on either way, or ended by an exception that is no
      persistence error, before or after it took effect. */
  datatype Delivery = Answered | RequestLost | ResponseLost | Escaped(effected: bool)

  predicate TakesEffect(d: Delivery) { d == Answered || d == ResponseLost || d == Escaped(true) }

  /** How an append call ends for the worker: answered, lost on either way, written but answered
      with something unreadable, or refused for another reason than the identity. */
  datatype AppendCall = Reached(delivery: Delivery) | Unreadable | RefusedAsConflict | RefusedAsUnavailable | RefusedByChecks

  datatype Act =
    | Tick(elapsed: nat)
    | NewEvent(id: EventId)
    | OtherAppend(entry: Entry)
    | ClaimEvent(id: EventId, lease: nat, mapped: Option<Entry>)
    | MapStep(token: Token, rejection: ErrorClass)
    | AppendStep(token: Token, call: AppendCall)
    | LoadStep(token: Token, answered: bool)
    | SettleStep(token: Token, delivery: Delivery, backoff: int, maxAttempts: int)
    | Crash(token: Token)

  /** The database gets to execute the append, and so accepts the entry itself. */
  predicate Writes(call: AppendCall) {
    call == Unreadable || (call.Reached? && TakesEffect(call.delivery))
  }

  predicate AtPc(s: Sys, t: Token, pc: Pc) { t in s.tasks && s.tasks[t].pc == pc }

  predicate Settling(pc: Pc) { pc.AtComplete? || pc.AtRelease? || pc.AtFail? }

  predicate Enabled(s: Sys, a: Act, digest: Digest) {
    match a
    case Tick(_) => true
    case NewEvent(id) => id !in s.db.outbox
    case OtherAppend(e) => Appendable(e, digest) && !HasId(s.db.ledger, e.facts.entryId)
    case ClaimEvent(id, _, mapped) =>
      Claimable(s.db, id) && (mapped.Some? ==> mapped.value.facts.entryId == id)
    case MapStep(t, rejection) => AtPc(s, t, AtMap) && (rejection == SourceIntegrityFailure || rejection == ContractFailure)
    case AppendStep(t, call) =>
      && AtPc(s, t, AtAppend) && s.tasks[t].mapped.Some?
      && (call == RefusedByChecks <==> !ReadyToAppend(s.tasks[t].mapped.value, digest))
      && (Writes(call) ==> Appendable(s.tasks[t].mapped.value, digest))
    case LoadStep(t, _) => AtPc(s, t, AtLoad) && s.tasks[t].mapped.Some?
    case SettleStep(t, _, _, _) => t in s.tasks && Settling(s.tasks[t].pc) && (s.tasks[t].pc.AtComplete? ==> s.tasks[t].mapped.Some?)
    case Crash(t) => t in s.tasks && !s.tasks[t].pc.Finished?
  }

  function Goto(s: Sys, t: Token, pc: Pc): Sys
    requires t in s.tasks
  {
    s.(tasks := s.tasks[t := s.tasks[t].(pc := pc)])
  }

  function AfterAppend(s: Sys, t: Token, call: AppendCall): Sys
    requires t in s.tasks && s.tasks[t].mapped.Some?
  {
    var e := s.tasks[t].mapped.value;
    var written := if e.facts.createdAt.Aware? then s.(db := Append(s.db, e)) else s;
    match call
    case Reached(Answered) => if HasId(s.db.ledger, e.facts.entryId) then Goto(s, t, AtLoad) else Goto(written, t, AtComplete(false))
    case Reached(delivery) => Goto(if TakesEffect(delivery) then written else s, t, AtRelease)
    case Unreadable => if HasId(s.db.ledger, e.facts.entryId) then Goto(s, t, AtLoad) else Goto(written, t, AtFail(ContractFailure))
    case RefusedAsConflict => Goto(s, t, AtLoad)
    case RefusedAsUnavailable => Goto(s, t, AtRelease)
    case RefusedByChecks => Goto(s, t, AtFail(ContractFailure))
  }

  function AfterLoad(s: Sys, t: Token, answered: bool, digest: Digest): Sys
    requires t in s.tasks && s.tasks[t].mapped.Some?
  {
    var e := s.tasks[t].mapped.value;
    var existing := if answered then Load(s.db.ledger, e, digest) else None;
    if existing.Some? && SameEntry(existing.value, e) then Goto(s, t, AtComplete(true)) else Goto(s, t, AtFail(DuplicateMismatch))
  }

  function SettlementOf(task: Task, backoff: int, maxAttempts: int): Settlement
    requires Settling(task.pc) && (task.pc.AtComplete? ==> task.mapped.Some?)
  {
    match task.pc
    case AtComplete(_) => CompleteWith(task.mapped.value.integrityHash)
    case AtFail(error) => FailWith(error)
    case _ => ReleaseWith(backoff, maxAttempts)
  }

  /** Only completion looks at its answer; a failed release or fail call is ignored. */
  function StatusAfter(pc: Pc, delivery: Delivery, owned: bool): Status
    requires Settling(pc)
  {
    match pc
    case AtComplete(duplicate) =>
      if delivery != Answered then CompletionFailed(false)
      else if !owned then CompletionFailed(true)
      else if duplicate then IdempotentDuplicate else StatusCompleted
    case AtRelease => TransientRetry
    case _ => StatusPermanentFailure
  }

  /** Of the exceptions that are no persistence error only one is not caught: that of the completion
      call on the duplicate path, which ends the worker's whole batch. */
  function PcAfter(pc: Pc, delivery: Delivery, owned: bool): Pc
    requires Settling(pc)
  {
    if delivery.Escaped? && pc == AtComplete(true) then Crashed else Finished(StatusAfter(pc, delivery, owned))
  }

  function AfterSettle(s: Sys, t: Token, delivery: Delivery, backoff: int, maxAttempts: int): Sys
    requires t in s.tasks && Settling(s.tasks[t].pc) && (s.tasks[t].pc.AtComplete? ==> s.tasks[t].mapped.Some?)
  {
    var task := s.tasks[t];
    var db := if TakesEffect(delivery) then Settle(s.db, task.event, t, SettlementOf(task, backoff, maxAttempts)) else s.db;
    Goto(s.(db := db), t, PcAfter(task.pc, delivery, Owns(s.db, task.event, t)))
  }

  function Effect(s: Sys, a: Act, digest: Digest): Sys
    requires Enabled(s, a, digest)
  {
    match a
    case Tick(elapsed) => s.(db := s.db.(now := s.db.now + elapsed))
    case NewEvent(id) => s.(db := s.db.(outbox := s.db.outbox[id := Event(Pending, 0, s.db.now, None, None, None, None)]))
    case OtherAppend(e) => s.(db := s.db.(ledger := s.db.ledger + [Persist(e)]))
    case ClaimEvent(id, lease, mapped) => Sys(Claim(s.db, id, lease), s.tasks[s.db.nextToken := Task(id, mapped, AtMap)])
    case MapStep(t, rejection) => Goto(s, t, if s.tasks[t].mapped.Some? then AtAppend else AtFail(rejection))
    case AppendStep(t, call) => AfterAppend(s, t, call)
    case LoadStep(t, answered) => AfterLoad(s, t, answered, digest)
    case SettleStep(t, delivery, backoff, maxAttempts) => AfterSettle(s, t, delivery, backoff, maxAttempts)
    case Crash(t) => Goto(s, t, Crashed)
  }

  // ---- What every step keeps ----------------------------------------------------------

  /** A ledger row that some verified, checked entry wrote. */
  ghost predicate Trusted(s: Stored, digest: Digest) {
    exists e :: Appendable(e, digest) && s == Persist(e)
  }

  ghost predicate LedgerOk(ledger: seq<Stored>, digest: Digest) {
    && (forall k :: 0 <= k < |ledger| ==> Trusted(ledger[k], digest))
    && (forall i, j :: 0 <= i < j < |ledger| ==> IdOf(ledger[i]) != IdOf(ledger[j]))
  }

  /** The table's operational-state constraint, and what a completed row vouches for. */
  ghost predicate EventOk(s: Sys, id: EventId)
    requires id in s.db.outbox
  {
    var e := s.db.outbox[id];
    match e.phase
    case Pending => e.owner == None && e.leaseExpires == None && e.completedHash == None
    case Processing =>
      && e.owner.Some? && e.leaseExpires.Some? && e.completedHash == None
      && e.owner.value in s.tasks && s.tasks[e.owner.value].event == id
    case Completed => e.owner == None && e.leaseExpires == None && e.completedHash.Some? && InLedger(s.db.ledger, id, e.completedHash.value)
    case PermanentFailure => e.owner == None && e.leaseExpires == None && e.completedHash == None && e.lastError.Some?
  }

  /** The entry itself was written. */
  ghost predicate Written(ledger: seq<Stored>, e: Entry, digest: Digest) {
    Appendable(e, digest) && Persist(e) in ledger
  }

  /** The row under the entry's identity reads back with the entry's hash and the entry's payload. */
  ghost predicate Recognised(ledger: seq<Stored>, e: Entry, digest: Digest) {
    exists s :: s in ledger && IdOf(s) == e.facts.entryId && ReadsAs(s, e, digest)
  }

  predicate ReadsAs(s: Stored, e: Entry, digest: Digest) {
    var x := LoadEntry(s.row, s.evidence, digest);
    && x.Some? && x.value.integrityHash == e.integrityHash
    && x.value.facts.createdAt.Aware? && e.facts.createdAt.Aware? && CanonicalPayload(x.value) == CanonicalPayload(e)
  }

  /** What a worker at the completion of its entry, or past it, has to show for it. */
  ghost predicate Backed(ledger: seq<Stored>, e: Entry, duplicate: bool, digest: Digest) {
    if duplicate then Recognised(ledger, e, digest) else Written(ledger, e, digest)
  }

  ghost predicate TaskOk(s: Sys, t: Token, digest: Digest)
    requires t in s.tasks
  {
    var task := s.tasks[t];
    && t < s.db.nextToken
    && task.event in s.db.outbox
    && (task.mapped.Some? ==> task.mapped.value.facts.entryId == task.event)
    && (task.pc.AtAppend? || task.pc.AtLoad? || task.pc.AtComplete? ==> task.mapped.Some?)
    && (task.pc.AtComplete? ==> Backed(s.db.ledger, task.mapped.value, task.pc.duplicate, digest))
    && (task.pc == Finished(StatusCompleted) || task.pc == Finished(IdempotentDuplicate) ==>
          && task.mapped.Some?
          && Backed(s.db.ledger, task.mapped.value, task.pc == Finished(IdempotentDuplicate), digest)
          && s.db.outbox[task.event].phase == Completed
          && s.db.outbox[task.event].completedHash == Some(task.mapped.value.integrityHash))
  }

  ghost predicate Inv(s: Sys, digest: Digest) {
    && LedgerOk(s.db.ledger, digest)
    && (forall id :: id in s.db.outbox ==> EventOk(s, id))
    && (forall t :: t in s.tasks ==> TaskOk(s, t, digest))
  }

  // ---- Ledger lemmas ------------------------------------------------------------------

  lemma InLedgerGrows(ledger: seq<Stored>, more: seq<Stored>, id: string, hash: string)
    requires ledger <= more && InLedger(ledger, id, hash)
    ensures InLedger(more, id, hash)
  {
    var k :| 0 <= k < |ledger| && IdOf(ledger[k]) == id && ledger[k].row.integrityHash == hash;
    assert more[k] == ledger[k];
  }

  lemma AppendKeepsLedgerOk(ledger: seq<Stored>, e: Entry, digest: Digest)
    requires LedgerOk(ledger, digest) && Appendable(e, digest) && !HasId(ledger, e.facts.entryId)
    ensures e.facts.createdAt.Aware?
    ensures LedgerOk(ledger + [Persist(e)], digest)
    ensures Written(ledger + [Persist(e)], e, digest)
  {
    AppendableIsAware(e, digest);
    hide Appendable, Persist;
    var more := ledger + [Persist(e)];
    assert Trusted(Persist(e), digest);
    assert more[|ledger|] == Persist(e);
    assert IdOf(more[|ledger|]) == e.facts.entryId by { PersistNames(e); }
    forall i, j | 0 <= i < j < |more| ensures IdOf(more[i]) != IdOf(more[j]) {
      if j == |ledger| { assert IdOf(ledger[i]) != e.facts.entryId; }
    }
  }

  lemma AppendableIsAware(e: Entry, digest: Digest)
    requires Appendable(e, digest)
    ensures e.facts.createdAt.Aware? && ReadyToAppend(e, digest)
  {
    hide ReadyToAppend, SqlAccepts;
  }

  /** Whatever backs a completion is a row with the entry's identity and hash. */
  lemma BackedIsInLedger(ledger: seq<Stored>, e: Entry, duplicate: bool, digest: Digest)
    requires Backed(ledger, e, duplicate, digest)
    ensures InLedger(ledger, e.facts.entryId, e.integrityHash)
  {
    if duplicate {
      hide LoadEntry, CanonicalPayload;
      var s :| s in ledger && IdOf(s) == e.facts.entryId && ReadsAs(s, e, digest);
      LoadKeepsHash(s, digest);
      RowInLedger(ledger, s);
    } else {
      AppendableIsAware(e, digest);
      hide Appendable, Persist;
      PersistNames(e);
      RowInLedger(ledger, Persist(e));
    }
  }

  lemma RowInLedger(ledger: seq<Stored>, s: Stored)
    requires s in ledger
    ensures InLedger(ledger, IdOf(s), s.row.integrityHash)
  {
    var k :| 0 <= k < |ledger| && ledger[k] == s;
  }

  lemma BackedGrows(ledger: seq<Stored>, more: seq<Stored>, e: Entry, duplicate: bool, digest: Digest)
    requires ledger <= more && Backed(ledger, e, duplicate, digest)
    ensures Backed(more, e, duplicate, digest)
  {
    hide Appendable, ReadsAs, Persist;
    assert forall s :: s in ledger ==> s in more;
  }

  lemma ReadyIsAware(e: Entry, digest: Digest)
    requires ReadyToAppend(e, digest)
    ensures e.facts.createdAt.Aware?
  {
    hide RoundTripSafe;
    VerifiedIsHashable(e, digest);
  }

  lemma PersistNames(e: Entry)
    requires e.facts.createdAt.Aware?
    ensures IdOf(Persist(e)) == e.facts.entryId && Persist(e).row.integrityHash == e.integrityHash
  {
  }

  /** A loaded entry is the reading of a row under the identity asked for, of that student and tenant. */
  lemma {:induction false} LoadReadsRow(ledger: seq<Stored>, e: Entry, digest: Digest) returns (s: Stored)
    requires Load(ledger, e, digest).Some?
    ensures s in ledger && IdOf(s) == e.facts.entryId && LoadEntry(s.row, s.evidence, digest) == Load(ledger, e, digest)
    ensures s.row.facts.studentId.Some? && s.row.facts.studentId == e.facts.studentId
    ensures s.row.facts.universityId == e.facts.universityId && s.row.facts.scopeType == StudentIndividual
  {
    hide LoadEntry;
    s := ledger[|ledger| - 1];
    if IdOf(s) != e.facts.entryId { s := LoadReadsRow(ledger[..|ledger| - 1], e, digest); }
  }

  /** Every loaded entry verifies, and carries the hash stored for the identity asked for. */
  lemma LoadedIsInLedger(ledger: seq<Stored>, e: Entry, digest: Digest)
    requires Load(ledger, e, digest).Some?
    ensures InLedger(ledger, e.facts.entryId, Load(ledger, e, digest).value.integrityHash)
    ensures VerifiedEntry(Load(ledger, e, digest).value, digest)
  {
    hide LoadEntry, Load, VerifiedEntry;
    var s := LoadReadsRow(ledger, e, digest);
    LoadKeepsHash(s, digest);
    RowInLedger(ledger, s);
  }

  lemma LoadKeepsHash(s: Stored, digest: Digest)
    requires LoadEntry(s.row, s.evidence, digest).Some?
    ensures LoadEntry(s.row, s.evidence, digest).value.integrityHash == s.row.integrityHash
    ensures VerifiedEntry(LoadEntry(s.row, s.evidence, digest).value, digest)
  {
    hide VerifiedEntry, ReadableRow, ReadEvidence;
  }

  lemma UniqueHash(ledger: seq<Stored>, id: string, h: string, h': string, digest: Digest)
    requires LedgerOk(ledger, digest) && InLedger(ledger, id, h) && InLedger(ledger, id, h')
    ensures h == h'
  {
    hide Trusted;
    var i :| 0 <= i < |ledger| && IdOf(ledger[i]) == id && ledger[i].row.integrityHash == h;
    var j :| 0 <= j < |ledger| && IdOf(ledger[j]) == id && ledger[j].row.integrityHash == h';
    assert i == j;
  }

  // ---- Preservation, one kind of change at a time -------------------------------------

  /** What a step may do to the shared state as far as everybody else is concerned. */
  ghost predicate Grows(s: Sys, u: Sys) {
    && s.db.ledger <= u.db.ledger
    && s.db.nextToken <= u.db.nextToken && s.db.now <= u.db.now
    && (forall id :: id in s.db.outbox ==> id in u.db.outbox)
    && (forall id :: id in s.db.outbox && Terminal(s.db.outbox[id].phase) ==> u.db.outbox[id] == s.db.outbox[id])
    && (forall t :: t in s.tasks ==> t in u.tasks && u.tasks[t].event == s.tasks[t].event && u.tasks[t].mapped == s.tasks[t].mapped)
  }

  predicate Terminal(p: Phase) { p == Completed || p == PermanentFailure }

  /** Tasks that did not move stay well formed when the shared state grows. */
  lemma OtherTasksStayOk(s: Sys, u: Sys, t: Token, digest: Digest)
    requires Grows(s, u) && t in s.tasks && TaskOk(s, t, digest) && u.tasks[t] == s.tasks[t]
    ensures TaskOk(u, t, digest)
  {
    hide Backed;
    var task := s.tasks[t];
    if task.pc.AtComplete? { BackedGrows(s.db.ledger, u.db.ledger, task.mapped.value, task.pc.duplicate, digest); }
    if task.pc == Finished(StatusCompleted) { BackedGrows(s.db.ledger, u.db.ledger, task.mapped.value, false, digest); }
    if task.pc == Finished(IdempotentDuplicate) { BackedGrows(s.db.ledger, u.db.ledger, task.mapped.value, true, digest); }
  }

  /** So do rows that were not touched. */
  lemma OtherEventsStayOk(s: Sys, u: Sys, id: EventId)
    requires Grows(s, u) && id in s.db.outbox && EventOk(s, id) && u.db.outbox[id] == s.db.outbox[id]
    ensures EventOk(u, id)
  {
    var e := s.db.outbox[id];
    if e.phase == Completed { InLedgerGrows(s.db.ledger, u.db.ledger, id, e.completedHash.value); }
  }

  lemma EnvironmentStep(s: Sys, a: Act, digest: Digest)
    requires Inv(s, digest) && Enabled(s, a, digest) && (a.Tick? || a.NewEvent? || a.OtherAppend?)
    ensures Inv(Effect(s, a, digest), digest) && Grows(s, Effect(s, a, digest))
  {
    hide Appendable, Persist, Trusted, InLedger, Backed;
    var u := Effect(s, a, digest);
    if a.OtherAppend? { AppendKeepsLedgerOk(s.db.ledger, a.entry, digest); }
    forall t | t in u.tasks ensures TaskOk(u, t, digest) { OtherTasksStayOk(s, u, t, digest); }
    forall id | id in u.db.outbox ensures EventOk(u, id) {
      if id in s.db.outbox { OtherEventsStayOk(s, u, id); }
    }
  }

  lemma ClaimStep(s: Sys, a: Act, digest: Digest)
    requires Inv(s, digest) && Enabled(s, a, digest) && a.ClaimEvent?
    ensures Inv(Effect(s, a, digest), digest) && Grows(s, Effect(s, a, digest))
  {
    hide LedgerOk, InLedger, Backed;
    var u := Effect(s, a, digest);
    var issued := s.db.nextToken;
    assert issued in s.tasks ==> TaskOk(s, issued, digest);
    assert EventOk(s, a.id);
    assert Grows(s, u) && TaskOk(u, issued, digest) && EventOk(u, a.id);
    hide TaskOk, EventOk, Grows;
    forall t | t in u.tasks ensures TaskOk(u, t, digest) {
      if t != issued { OtherTasksStayOk(s, u, t, digest); }
    }
    forall id | id in u.db.outbox ensures EventOk(u, id) {
      if id != a.id { OtherEventsStayOk(s, u, id); }
    }
  }

  /** One worker moved: its program counter, possibly its own event's row, possibly a ledger row. */
  ghost predicate WorkerChange(s: Sys, u: Sys, t: Token) {
    && t in s.tasks && t in u.tasks && u.tasks == s.tasks[t := s.tasks[t].(pc := u.tasks[t].pc)]
    && s.db.ledger <= u.db.ledger && u.db.nextToken == s.db.nextToken && u.db.now == s.db.now
    && var id := s.tasks[t].event;
       && id in s.db.outbox && id in u.db.outbox && u.db.outbox == s.db.outbox[id := u.db.outbox[id]]
       && (Terminal(s.db.outbox[id].phase) ==> u.db.outbox[id] == s.db.outbox[id])
  }

  lemma WorkerChangeGrows(s: Sys, u: Sys, t: Token)
    requires WorkerChange(s, u, t)
    ensures Grows(s, u)
  {
  }

  /** For the invariant it is enough to look at the task that moved and at its own event. */
  lemma WorkerChangeKeepsInv(s: Sys, u: Sys, t: Token, digest: Digest)
    requires Inv(s, digest) && WorkerChange(s, u, t)
    requires LedgerOk(u.db.ledger, digest) && TaskOk(u, t, digest) && EventOk(u, s.tasks[t].event)
    ensures Inv(u, digest) && Grows(s, u)
  {
    WorkerChangeGrows(s, u, t);
    hide LedgerOk, EventOk, TaskOk, Grows;
    forall t' | t' in u.tasks ensures TaskOk(u, t', digest) {
      if t' != t { OtherTasksStayOk(s, u, t', digest); }
    }
    forall id | id in u.db.outbox ensures EventOk(u, id) {
      if id != s.tasks[t].event { OtherEventsStayOk(s, u, id); }
    }
  }

  /** A move to a program counter that promises nothing. */
  lemma PlainMove(s: Sys, t: Token, pc: Pc, digest: Digest)
    requires Inv(s, digest) && t in s.tasks
    requires !pc.AtComplete? && (pc.AtAppend? || pc.AtLoad? ==> s.tasks[t].mapped.Some?)
    requires pc != Finished(StatusCompleted) && pc != Finished(IdempotentDuplicate)
    ensures Inv(Goto(s, t, pc), digest) && Grows(s, Goto(s, t, pc))
  {
    hide LedgerOk, InLedger, Backed;
    assert TaskOk(s, t, digest);
    WorkerChangeKeepsInv(s, Goto(s, t, pc), t, digest);
  }

  /** A move to the completion of an entry the ledger holds. */
  lemma MoveToComplete(s: Sys, t: Token, duplicate: bool, digest: Digest)
    requires Inv(s, digest) && t in s.tasks && s.tasks[t].mapped.Some?
    requires Backed(s.db.ledger, s.tasks[t].mapped.value, duplicate, digest)
    ensures Inv(Goto(s, t, AtComplete(duplicate)), digest) && Grows(s, Goto(s, t, AtComplete(duplicate)))
  {
    hide LedgerOk, InLedger, Backed;
    assert TaskOk(s, t, digest);
    WorkerChangeKeepsInv(s, Goto(s, t, AtComplete(duplicate)), t, digest);
  }

  lemma LoadKeepsInv(s: Sys, t: Token, answered: bool, digest: Digest)
    requires Inv(s, digest) && t in s.tasks && s.tasks[t].mapped.Some?
    ensures Inv(AfterLoad(s, t, answered, digest), digest) && Grows(s, AfterLoad(s, t, answered, digest))
  {
    hide LedgerOk, EventOk, InLedger, Load, LoadEntry, CanonicalPayload, Grows;
    var e := s.tasks[t].mapped.value;
    assert TaskOk(s, t, digest);
    if answered && Load(s.db.ledger, e, digest).Some? && SameEntry(Load(s.db.ledger, e, digest).value, e) {
      var row := LoadReadsRow(s.db.ledger, e, digest);
      assert ReadsAs(row, e, digest);
      MoveToComplete(s, t, true, digest);
    } else {
      PlainMove(s, t, AtFail(DuplicateMismatch), digest);
    }
  }

  /** A row written by the append function disturbs nobody. */
  lemma WritingKeepsInv(s: Sys, e: Entry, digest: Digest)
    requires Inv(s, digest) && Appendable(e, digest)
    ensures e.facts.createdAt.Aware?
    ensures var u := s.(db := Append(s.db, e));
            Inv(u, digest) && Grows(s, u) && (!HasId(s.db.ledger, e.facts.entryId) ==> Written(u.db.ledger, e, digest))
  {
    hide Appendable, Persist, Trusted, InLedger, EventOk, TaskOk, LedgerOk, Written;
    AppendableIsAware(e, digest);
    var u := s.(db := Append(s.db, e));
    if !HasId(s.db.ledger, e.facts.entryId) { AppendKeepsLedgerOk(s.db.ledger, e, digest); }
    forall t | t in u.tasks ensures TaskOk(u, t, digest) { OtherTasksStayOk(s, u, t, digest); }
    forall id | id in u.db.outbox ensures EventOk(u, id) { OtherEventsStayOk(s, u, id); }
  }

  lemma GrowsTransitive(s: Sys, m: Sys, u: Sys)
    requires Grows(s, m) && Grows(m, u)
    ensures Grows(s, u)
  {
  }

  lemma AppendKeepsInv(s: Sys, t: Token, call: AppendCall, digest: Digest)
    requires Inv(s, digest) && Enabled(s, AppendStep(t, call), digest)
    ensures Inv(AfterAppend(s, t, call), digest) && Grows(s, AfterAppend(s, t, call))
  {
    hide LedgerOk, EventOk, InLedger, ReadyToAppend, Appendable, Grows, HasId, Written;
    var e := s.tasks[t].mapped.value;
    assert TaskOk(s, t, digest);
    if !Writes(call) {
      PlainMove(s, t, AfterAppend(s, t, call).tasks[t].pc, digest);
    } else {
      WritingKeepsInv(s, e, digest);
      var u := s.(db := Append(s.db, e));
      var pc := AfterAppend(s, t, call).tasks[t].pc;
      if pc == AtComplete(false) { MoveToComplete(u, t, false, digest); } else { PlainMove(u, t, pc, digest); }
      GrowsTransitive(s, u, Goto(u, t, pc));
      assert AfterAppend(s, t, call) == Goto(u, t, pc);
    }
  }

  /** The row a settlement leaves behind. */
  lemma SettledOk(s: Sys, t: Token, backoff: int, maxAttempts: int, digest: Digest)
    requires Inv(s, digest) && t in s.tasks && Settling(s.tasks[t].pc) && TaskOk(s, t, digest)
    ensures var task := s.tasks[t];
            var db := Settle(s.db, task.event, t, SettlementOf(task, backoff, maxAttempts));
            && db.ledger == s.db.ledger && WorkerChange(s, s.(db := db), t) && EventOk(s.(db := db), task.event)
            && (Owns(s.db, task.event, t) && task.pc.AtComplete? ==>
                  db.outbox[task.event].phase == Completed && db.outbox[task.event].completedHash == Some(task.mapped.value.integrityHash))
  {
    hide LedgerOk, InLedger, Backed;
    var task := s.tasks[t];
    assert EventOk(s, task.event);
    if task.pc.AtComplete? { BackedIsInLedger(s.db.ledger, task.mapped.value, task.pc.duplicate, digest); }
    assert s.tasks == s.tasks[t := s.tasks[t]];
  }

  /** A move to a reported success of an event that is completed with the entry's hash. */
  lemma MoveToSuccess(s: Sys, t: Token, duplicate: bool, digest: Digest)
    requires Inv(s, digest) && t in s.tasks && s.tasks[t].pc == AtComplete(duplicate)
    requires var task := s.tasks[t];
             && task.mapped.Some? && task.event in s.db.outbox && s.db.outbox[task.event].phase == Completed
             && s.db.outbox[task.event].completedHash == Some(task.mapped.value.integrityHash)
    ensures var u := Goto(s, t, Finished(if duplicate then IdempotentDuplicate else StatusCompleted)); Inv(u, digest) && Grows(s, u)
  {
    hide LedgerOk, InLedger, Backed;
    assert TaskOk(s, t, digest);
    WorkerChangeKeepsInv(s, Goto(s, t, Finished(if duplicate then IdempotentDuplicate else StatusCompleted)), t, digest);
  }

  /** The row first, the program counter afterwards. */
  lemma SettledKeepsInv(s: Sys, t: Token, backoff: int, maxAttempts: int, digest: Digest)
    requires Inv(s, digest) && t in s.tasks && Settling(s.tasks[t].pc) && TaskOk(s, t, digest)
    ensures var task := s.tasks[t];
            var m := s.(db := Settle(s.db, task.event, t, SettlementOf(task, backoff, maxAttempts)));
            && Inv(m, digest) && Grows(s, m) && t in m.tasks && m.tasks[t] == task
            && (Owns(s.db, task.event, t) && task.pc.AtComplete? ==>
                  && task.mapped.Some? && task.event in m.db.outbox && m.db.outbox[task.event].phase == Completed
                  && m.db.outbox[task.event].completedHash == Some(task.mapped.value.integrityHash))
  {
    hide Settle, Inv, EventOk, Owns;
    var m := s.(db := Settle(s.db, s.tasks[t].event, t, SettlementOf(s.tasks[t], backoff, maxAttempts)));
    SettledOk(s, t, backoff, maxAttempts, digest);
    WorkerChangeGrows(s, m, t);
    hide Backed, InLedger, SettlementOf;
    OtherTasksStayOk(s, m, t, digest);
    assert LedgerOk(m.db.ledger, digest) by { InvParts(s, digest); }
    hide LedgerOk;
    WorkerChangeKeepsInv(s, m, t, digest);
  }

  lemma SettleKeepsInv(s: Sys, t: Token, delivery: Delivery, backoff: int, maxAttempts: int, digest: Digest)
    requires Inv(s, digest) && t in s.tasks && Settling(s.tasks[t].pc) && TaskOk(s, t, digest)
    ensures Inv(AfterSettle(s, t, delivery, backoff, maxAttempts), digest) && Grows(s, AfterSettle(s, t, delivery, backoff, maxAttempts))
  {
    hide Settle, Inv, EventOk, Owns, Backed, SettlementOf, Grows;
    var task := s.tasks[t];
    var pc := PcAfter(task.pc, delivery, Owns(s.db, task.event, t));
    if !TakesEffect(delivery) {
      PlainMove(s, t, pc, digest);
    } else {
      var m := s.(db := Settle(s.db, task.event, t, SettlementOf(task, backoff, maxAttempts)));
      SettledKeepsInv(s, t, backoff, maxAttempts, digest);
      if pc == Finished(StatusCompleted) || pc == Finished(IdempotentDuplicate) {
        MoveToSuccess(m, t, task.pc.duplicate, digest);
      } else {
        PlainMove(m, t, pc, digest);
      }
      GrowsTransitive(s, m, Goto(m, t, pc));
    }
  }

  lemma InvParts(s: Sys, digest: Digest)
    requires Inv(s, digest)
    ensures LedgerOk(s.db.ledger, digest)
  {
  }

  /** Every step of every worker and of the environment keeps the invariant, only ever extends the
      ledger, and leaves completed and permanently failed rows alone. */
  lemma StepKeepsInv(s: Sys, a: Act, digest: Digest)
    requires Inv(s, digest) && Enabled(s, a, digest)
    ensures Inv(Effect(s, a, digest), digest) && Grows(s, Effect(s, a, digest))
  {
    hide Grows, LedgerOk, EventOk, InLedger, AfterAppend, AfterLoad, AfterSettle, ReadyToAppend;
    if a.Tick? || a.NewEvent? || a.OtherAppend? { EnvironmentStep(s, a, digest); }
    else if a.ClaimEvent? { ClaimStep(s, a, digest); }
    else {
      assert TaskOk(s, a.token, digest);
      match a
      case AppendStep(t, call) => AppendKeepsInv(s, t, call, digest);
      case LoadStep(t, answered) => LoadKeepsInv(s, t, answered, digest);
      case SettleStep(t, delivery, backoff, maxAttempts) => SettleKeepsInv(s, t, delivery, backoff, maxAttempts, digest);
      case MapStep(t, rejection) => PlainMove(s, t, if s.tasks[t].mapped.Some? then AtAppend else AtFail(rejection), digest);
      case Crash(t) => PlainMove(s, t, Crashed, digest);
    }
  }

  // ---- Runs ---------------------------------------------------------------------------

  function Start(now: int): Sys { Sys(Db(now, map[], [], 0), map[]) }

  predicate Legal(s: Sys, run: seq<Act>, digest: Digest)
    decreases |run|, 0
  {
    run == [] ||
    (Legal(s, run[..|run| - 1], digest) && Enabled(After(s, run[..|run| - 1], digest), run[|run| - 1], digest))
  }

  function After(s: Sys, run: seq<Act>, digest: Digest): Sys
    requires Legal(s, run, digest)
    decreases |run|, 1
  {
    if run == [] then s else Effect(After(s, run[..|run| - 1], digest), run[|run| - 1], digest)
  }

  lemma StartInv(now: int, digest: Digest)
    ensures Inv(Start(now), digest)
  {
  }

  lemma {:induction false} RunKeepsInv(s: Sys, run: seq<Act>, digest: Digest)
    requires Inv(s, digest) && Legal(s, run, digest)
    ensures Inv(After(s, run, digest), digest) && Grows(s, After(s, run, digest))
  {
    hide Inv, Enabled, Effect;
    if run != [] {
      var front := run[..|run| - 1];
      RunKeepsInv(s, front, digest);
      StepKeepsInv(After(s, front, digest), run[|run| - 1], digest);
      GrowsTransitive(s, After(s, front, digest), After(s, run, digest));
    }
  }

  /** A completed event has exactly one ledger entry under its identity, written from a verified
      entry, and the recorded hash is that entry's hash; over every interleaving of workers,
      crashes, lost messages, lease expiries and foreign appends. */
  lemma CompletedMeansLedgered(now: int, run: seq<Act>, id: EventId, digest: Digest)
    requires Legal(Start(now), run, digest)
    requires var s := After(Start(now), run, digest); id in s.db.outbox && s.db.outbox[id].phase == Completed
    ensures var s := After(Start(now), run, digest);
            exists k :: && 0 <= k < |s.db.ledger| && IdOf(s.db.ledger[k]) == id
                        && s.db.outbox[id].completedHash == Some(s.db.ledger[k].row.integrityHash)
                        && Trusted(s.db.ledger[k], digest)
                        && forall j :: 0 <= j < |s.db.ledger| && IdOf(s.db.ledger[j]) == id ==> j == k
  {
    hide Trusted;
    StartInv(now, digest);
    RunKeepsInv(Start(now), run, digest);
    var s := After(Start(now), run, digest);
    assert EventOk(s, id);
    var k :| 0 <= k < |s.db.ledger| && IdOf(s.db.ledger[k]) == id && s.db.ledger[k].row.integrityHash == s.db.outbox[id].completedHash.value;
    assert Trusted(s.db.ledger[k], digest);
  }

  /** A worker that reports success is right, and stays right: whatever happens afterwards, the
      event is completed with the hash of the entry the worker mapped, and the ledger holds that very
      entry as written, or a row that reads back with its hash and its payload. */
  lemma ReportedSuccessIsFinal(now: int, before: seq<Act>, after: seq<Act>, t: Token, digest: Digest)
    requires Legal(Start(now), before, digest) && Legal(After(Start(now), before, digest), after, digest)
    requires var s := After(Start(now), before, digest);
             AtPc(s, t, Finished(StatusCompleted)) || AtPc(s, t, Finished(IdempotentDuplicate))
    ensures var task := After(Start(now), before, digest).tasks[t];
            var u := After(After(Start(now), before, digest), after, digest);
            && task.event in u.db.outbox && u.db.outbox[task.event].phase == Completed && task.mapped.Some?
            && u.db.outbox[task.event].completedHash == Some(task.mapped.value.integrityHash)
            && task.mapped.value.facts.entryId == task.event
            && Backed(u.db.ledger, task.mapped.value, task.pc == Finished(IdempotentDuplicate), digest)
  {
    hide LedgerOk, InLedger, Backed;
    StartInv(now, digest);
    RunKeepsInv(Start(now), before, digest);
    var s := After(Start(now), before, digest);
    assert TaskOk(s, t, digest);
    var task := s.tasks[t];
    RunKeepsInv(s, after, digest);
    BackedGrows(s.db.ledger, After(s, after, digest).db.ledger, task.mapped.value, task.pc == Finished(IdempotentDuplicate), digest);
  }

  // ---- Stale claims -------------------------------------------------------------------

  predicate Moves(a: Act, t: Token) {
    (a.MapStep? || a.AppendStep? || a.LoadStep? || a.SettleStep? || a.Crash?) && a.token == t
  }

  /** A worker whose token is not the row's current one changes no row of the outbox. */
  lemma StaleWorkerChangesNoEvent(s: Sys, a: Act, t: Token, digest: Digest)
    requires Inv(s, digest) && Enabled(s, a, digest) && Moves(a, t)
    requires !Owns(s.db, s.tasks[t].event, t)
    ensures Effect(s, a, digest).db.outbox == s.db.outbox
    ensures a.SettleStep? && s.tasks[t].pc.AtComplete? ==>
              var u := Effect(s, a, digest);
              && t in u.tasks
              && (u.tasks[t].pc == Finished(CompletionFailed(a.delivery == Answered)) || (a.delivery.Escaped? && u.tasks[t].pc == Crashed))
  {
    hide Inv, ReadyToAppend, Appendable, Persist, Load, SameEntry, HasId, SettlementOf, Owns, AfterAppend, AfterLoad, AfterSettle;
    if a.SettleStep? {
      StaleSettlement(s, t, a.delivery, a.backoff, a.maxAttempts);
    } else if a.AppendStep? {
      AppendLeavesOutbox(s, t, a.call);
    } else if a.LoadStep? {
      LoadLeavesOutbox(s, t, a.answered, digest);
    }
  }

  lemma StaleSettlement(s: Sys, t: Token, delivery: Delivery, backoff: int, maxAttempts: int)
    requires t in s.tasks && Settling(s.tasks[t].pc) && (s.tasks[t].pc.AtComplete? ==> s.tasks[t].mapped.Some?)
    requires !Owns(s.db, s.tasks[t].event, t)
    ensures var u := AfterSettle(s, t, delivery, backoff, maxAttempts);
            && u.db == s.db && t in u.tasks
            && (s.tasks[t].pc.AtComplete? ==>
                  || u.tasks[t].pc == Finished(CompletionFailed(delivery == Answered)) || (delivery.Escaped? && u.tasks[t].pc == Crashed))
  {
    hide Owns, SettlementOf;
  }

  lemma AppendLeavesOutbox(s: Sys, t: Token, call: AppendCall)
    requires t in s.tasks && s.tasks[t].mapped.Some?
    ensures AfterAppend(s, t, call).db.outbox == s.db.outbox
  {
    hide HasId, Persist;
  }

  lemma LoadLeavesOutbox(s: Sys, t: Token, answered: bool, digest: Digest)
    requires t in s.tasks && s.tasks[t].mapped.Some?
    ensures AfterLoad(s, t, answered, digest).db.outbox == s.db.outbox
  {
    hide Load, SameEntry;
  }

  /** Tokens are never issued twice: once an event has been claimed again, or settled, an earlier
      claim of it stays stale for ever. */
  lemma {:induction false} StaleForEver(s: Sys, run: seq<Act>, t: Token, digest: Digest)
    requires Inv(s, digest) && Legal(s, run, digest) && t in s.tasks && !Owns(s.db, s.tasks[t].event, t)
    ensures var u := After(s, run, digest); t in u.tasks && !Owns(u.db, u.tasks[t].event, t)
  {
    hide Enabled, Effect, Owns, Inv;
    if run != [] {
      var front := run[..|run| - 1];
      StaleForEver(s, front, t, digest);
      RunKeepsInv(s, front, digest);
      StaleStaysStale(After(s, front, digest), run[|run| - 1], t, digest);
    }
  }

  /** An outbox row gets a new owner only by a claim, and then the next token. */
  lemma OwnersStep(s: Sys, a: Act, id: EventId, token: Token, digest: Digest)
    requires Enabled(s, a, digest) && Owns(Effect(s, a, digest).db, id, token)
    ensures Owns(s.db, id, token) || token == s.db.nextToken
  {
    hide ReadyToAppend, Appendable, Persist, Load, SameEntry, HasId;
  }

  lemma StaleStaysStale(s: Sys, a: Act, t: Token, digest: Digest)
    requires Inv(s, digest) && Enabled(s, a, digest) && t in s.tasks && !Owns(s.db, s.tasks[t].event, t)
    ensures var u := Effect(s, a, digest); t in u.tasks && !Owns(u.db, u.tasks[t].event, t)
  {
    StepKeepsInv(s, a, digest);
    hide Enabled, Effect, LedgerOk, EventOk, InLedger, Owns;
    assert TaskOk(s, t, digest);
    if Owns(Effect(s, a, digest).db, s.tasks[t].event, t) { OwnersStep(s, a, s.tasks[t].event, t, digest); }
  }

  // ---- Retries ------------------------------------------------------------------------

  /** The task is not on the path of having appended the entry itself. */
  predicate NotOwnAppend(s: Sys, t: Token)
    requires t in s.tasks
  {
    s.tasks[t].pc != AtComplete(false) && s.tasks[t].pc != Finished(StatusCompleted)
  }

  lemma HasIdGrows(ledger: seq<Stored>, more: seq<Stored>, id: string)
    requires ledger <= more && HasId(ledger, id)
    ensures HasId(more, id)
  {
    var k :| 0 <= k < |ledger| && IdOf(ledger[k]) == id;
    assert more[k] == ledger[k];
  }

  lemma OtherTaskUntouched(s: Sys, a: Act, t: Token, digest: Digest)
    requires Enabled(s, a, digest) && t in s.tasks && !Moves(a, t) && (a.ClaimEvent? ==> t != s.db.nextToken)
    ensures t in Effect(s, a, digest).tasks && Effect(s, a, digest).tasks[t] == s.tasks[t]
  {
    hide ReadyToAppend, Appendable, Persist, Load, SameEntry, HasId, Settle, Claim, SettlementOf, StatusAfter;
  }

  /** The worker of `t` itself moves, and does not get to complete an append of its own. */
  lemma RetryMove(s: Sys, a: Act, t: Token, digest: Digest)
    requires Enabled(s, a, digest) && Moves(a, t) && t in s.tasks && NotOwnAppend(s, t)
    requires s.tasks[t].mapped.Some? ==> s.tasks[t].mapped.value.facts.entryId == s.tasks[t].event
    requires HasId(s.db.ledger, s.tasks[t].event)
    ensures t in Effect(s, a, digest).tasks && NotOwnAppend(Effect(s, a, digest), t)
  {
    hide Appendable, ReadyToAppend, Load, SameEntry, HasId, Settle, SettlementOf, Append;
  }

  lemma RetryStep(s: Sys, a: Act, t: Token, digest: Digest)
    requires Inv(s, digest) && Enabled(s, a, digest) && t in Effect(s, a, digest).tasks
    requires HasId(s.db.ledger, Effect(s, a, digest).tasks[t].event)
    requires t in s.tasks ==> NotOwnAppend(s, t)
    ensures NotOwnAppend(Effect(s, a, digest), t)
  {
    StepKeepsInv(s, a, digest);
    hide ReadyToAppend, Appendable, SqlAccepts, HasId, AfterAppend, AfterLoad, AfterSettle, Claimable;
    if t in s.tasks {
      assert TaskOk(s, t, digest);
      hide Inv, TaskOk, Effect, Enabled;
      if Moves(a, t) { RetryMove(s, a, t, digest); } else { OtherTaskUntouched(s, a, t, digest); }
    } else {
      NewTaskStep(s, a, t, digest);
    }
  }

  lemma NewTaskStep(s: Sys, a: Act, t: Token, digest: Digest)
    requires Enabled(s, a, digest) && t !in s.tasks && t in Effect(s, a, digest).tasks
    ensures a.ClaimEvent? && t == s.db.nextToken && Effect(s, a, digest).tasks[t] == Task(a.id, a.mapped, AtMap)
  {
    hide ReadyToAppend, Appendable, Persist, Load, SameEntry, HasId, Settle, Claim, SettlementOf, StatusAfter;
  }

  lemma {:induction false} RetryKeepsPath(s: Sys, run: seq<Act>, t: Token, digest: Digest)
    requires Inv(s, digest) && Legal(s, run, digest) && t in After(s, run, digest).tasks
    requires var id := After(s, run, digest).tasks[t].event; HasId(s.db.ledger, id) && (t in s.tasks ==> NotOwnAppend(s, t))
    ensures var u, id := After(s, run, digest), After(s, run, digest).tasks[t].event;
            && NotOwnAppend(u, t)
            && forall k :: 0 <= k < |u.db.ledger| && IdOf(u.db.ledger[k]) == id ==> k < |s.db.ledger| && u.db.ledger[k] == s.db.ledger[k]
  {
    hide Enabled, Effect;
    RunKeepsInv(s, run, digest);
    var u := After(s, run, digest);
    OneRowPerId(s.db.ledger, u.db.ledger, u.tasks[t].event, digest);
    hide Inv;
    if run != [] {
      var m, a := After(s, run[..|run| - 1], digest), run[|run| - 1];
      RunKeepsInv(s, run[..|run| - 1], digest);
      StepKeepsInv(m, a, digest);
      HasIdGrows(s.db.ledger, m.db.ledger, u.tasks[t].event);
      if t in m.tasks { RetryKeepsPath(s, run[..|run| - 1], t, digest); }
      RetryStep(m, a, t, digest);
    }
  }

  /** Once the ledger holds an entry under an event's identity, no later processing of that event
      writes a second one, and none that had not already written this one can finish otherwise than
      by the verified-duplicate path. */
  lemma RetryIsIdempotent(now: int, before: seq<Act>, after: seq<Act>, t: Token, digest: Digest)
    requires Legal(Start(now), before, digest) && Legal(After(Start(now), before, digest), after, digest)
    requires var s := After(Start(now), before, digest);
             var u := After(s, after, digest);
             t in u.tasks && HasId(s.db.ledger, u.tasks[t].event) && (t in s.tasks ==> NotOwnAppend(s, t))
    ensures var s := After(Start(now), before, digest);
            var u := After(s, after, digest);
            && u.tasks[t].pc != AtComplete(false) && u.tasks[t].pc != Finished(StatusCompleted)
            && forall k :: 0 <= k < |u.db.ledger| && IdOf(u.db.ledger[k]) == u.tasks[t].event ==>
                 k < |s.db.ledger| && u.db.ledger[k] == s.db.ledger[k]
  {
    StartInv(now, digest);
    RunKeepsInv(Start(now), before, digest);
    hide Inv;
    RetryKeepsPath(After(Start(now), before, digest), after, t, digest);
  }

  lemma OneRowPerId(ledger: seq<Stored>, more: seq<Stored>, id: string, digest: Digest)
    requires ledger <= more && LedgerOk(more, digest) && HasId(ledger, id)
    ensures forall k :: 0 <= k < |more| && IdOf(more[k]) == id ==> k < |ledger| && more[k] == ledger[k]
  {
    hide Trusted;
    var j :| 0 <= j < |ledger| && IdOf(ledger[j]) == id;
    assert IdOf(more[j]) == id;
  }

  /** The one row under an identity backs every completion under it. */
  lemma BackedByTheRow(ledger: seq<Stored>, row: Stored, e: Entry, duplicate: bool, digest: Digest)
    requires LedgerOk(ledger, digest) && row in ledger && IdOf(row) == e.facts.entryId
    requires Backed(ledger, e, duplicate, digest)
    ensures if duplicate then ReadsAs(row, e, digest) else Appendable(e, digest) && row == Persist(e)
  {
    hide Trusted, Appendable, ReadsAs, Persist;
    if duplicate {
      var s :| s in ledger && IdOf(s) == e.facts.entryId && ReadsAs(s, e, digest);
      SameRow(ledger, row, s, digest);
    } else {
      AppendableIsAware(e, digest);
      PersistNames(e);
      SameRow(ledger, row, Persist(e), digest);
    }
  }

  lemma SameRow(ledger: seq<Stored>, r: Stored, s: Stored, digest: Digest)
    requires LedgerOk(ledger, digest) && r in ledger && s in ledger && IdOf(r) == IdOf(s)
    ensures r == s
  {
    hide Trusted;
    var i :| 0 <= i < |ledger| && ledger[i] == r;
    var j :| 0 <= j < |ledger| && ledger[j] == s;
    assert i == j;
  }

  /** A duplicate that differs from the readable ledger row in payload or in hash never completes:
      the worker never reaches the duplicate path's completion, and it reaches the other one only for
      the row it wrote itself, which then reads back differently only by a digest collision. */
  lemma DifferingDuplicateNeverCompletes(now: int, run: seq<Act>, t: Token, row: Stored, x: Entry, digest: Digest)
    requires Legal(Start(now), run, digest) && t in After(Start(now), run, digest).tasks
    requires var s := After(Start(now), run, digest); row in s.db.ledger && IdOf(row) == s.tasks[t].event
    requires LoadEntry(row.row, row.evidence, digest) == Some(x) && x.facts.createdAt.Aware?
    requires var task := After(Start(now), run, digest).tasks[t];
             && task.mapped.Some?
             && (x.integrityHash != task.mapped.value.integrityHash
                 || (task.mapped.value.facts.createdAt.Aware? && CanonicalPayload(x) != CanonicalPayload(task.mapped.value)))
    ensures var task := After(Start(now), run, digest).tasks[t];
            && task.pc != AtComplete(true) && task.pc != Finished(IdempotentDuplicate)
            && (task.pc == AtComplete(false) || task.pc == Finished(StatusCompleted) ==>
                  && Appendable(task.mapped.value, digest) && row == Persist(task.mapped.value)
                  && x.integrityHash == task.mapped.value.integrityHash
                  && Collision(digest, CanonicalPayload(x), CanonicalPayload(task.mapped.value)))
  {
    StartInv(now, digest);
    RunKeepsInv(Start(now), run, digest);
    var s := After(Start(now), run, digest);
    var task := s.tasks[t];
    RowFacts(s, t, row, digest);
    hide Inv, Legal, After, LoadEntry, Persist, ReadyToAppend, SqlAccepts;
    if task.pc == AtComplete(false) || task.pc == Finished(StatusCompleted) {
      OwnRowReads(task.mapped.value, row, x, digest);
    }
  }

  lemma RowFacts(s: Sys, t: Token, row: Stored, digest: Digest)
    requires Inv(s, digest) && t in s.tasks && s.tasks[t].mapped.Some? && row in s.db.ledger && IdOf(row) == s.tasks[t].event
    ensures var task := s.tasks[t];
            && (task.pc == AtComplete(true) || task.pc == Finished(IdempotentDuplicate) ==> ReadsAs(row, task.mapped.value, digest))
            && (task.pc == AtComplete(false) || task.pc == Finished(StatusCompleted) ==>
                  Appendable(task.mapped.value, digest) && row == Persist(task.mapped.value))
  {
    hide LedgerOk, Backed, EventOk, ReadsAs, Appendable, Persist;
    var task := s.tasks[t];
    assert TaskOk(s, t, digest);
    if task.pc == AtComplete(true) || task.pc == Finished(IdempotentDuplicate) {
      BackedByTheRow(s.db.ledger, row, task.mapped.value, true, digest);
    }
    if task.pc == AtComplete(false) || task.pc == Finished(StatusCompleted) {
      BackedByTheRow(s.db.ledger, row, task.mapped.value, false, digest);
    }
  }

  /** A row read back carries its entry's hash and verifies, so another payload is a collision. */
  lemma OwnRowReads(e: Entry, row: Stored, x: Entry, digest: Digest)
    requires Appendable(e, digest) && row == Persist(e) && LoadEntry(row.row, row.evidence, digest) == Some(x)
    ensures x.facts.createdAt.Aware? && x.integrityHash == e.integrityHash
    ensures CanonicalPayload(x) == CanonicalPayload(e) || Collision(digest, CanonicalPayload(x), CanonicalPayload(e))
  {
    AppendableIsAware(e, digest);
    hide SqlAccepts, RoundTripSafe, ValidEntry, LoadEntry, CanonicalPayload, StoredReferences, EvidenceRows;
    PersistNames(e);
    LoadKeepsHash(row, digest);
    VerifiedIsHashable(x, digest);
  }

  // ---- Leases, backoff and attempts ---------------------------------------------------

  lemma {:induction false} ClockOnlyAdvances(s: Sys, run: seq<Act>, digest: Digest)
    requires Legal(s, run, digest)
    ensures s.db.now <= After(s, run, digest).db.now
  {
    if run != [] {
      ClockOnlyAdvances(s, run[..|run| - 1], digest);
      ClockStep(After(s, run[..|run| - 1], digest), run[|run| - 1], digest);
    }
  }

  lemma ClockStep(s: Sys, a: Act, digest: Digest)
    requires Enabled(s, a, digest)
    ensures s.db.now <= Effect(s, a, digest).db.now
  {
    hide ReadyToAppend, Appendable, Persist, Load, SameEntry, HasId, SettlementOf;
  }

  /** One step and one row: claimed, settled by its owner, or as it was. */
  lemma RowStep(s: Sys, a: Act, id: EventId, digest: Digest)
    requires Enabled(s, a, digest) && id in s.db.outbox
    ensures id in Effect(s, a, digest).db.outbox
    ensures var u := Effect(s, a, digest);
            (|| u.db.outbox[id] == s.db.outbox[id]
             || (a.ClaimEvent? && a.id == id && u.db.outbox[id].attempts == s.db.outbox[id].attempts + 1 && u.db.outbox[id].phase == Processing)
             || (a.SettleStep? && Owns(s.db, id, a.token) && u.db.outbox[id].attempts == s.db.outbox[id].attempts
                 && (u.db.outbox[id].phase == Pending ==> u.db.outbox[id].attempts < a.maxAttempts)))
    ensures a.ClaimEvent? && a.id == id ==> Effect(s, a, digest).db.outbox[id].attempts == s.db.outbox[id].attempts + 1
  {
    hide ReadyToAppend, Appendable, Persist, Load, SameEntry, HasId;
  }

  /** A released event is left alone until its backoff has passed. */
  lemma {:induction false} BackoffIsRespected(s: Sys, run: seq<Act>, id: EventId, digest: Digest)
    requires Legal(s, run, digest) && id in s.db.outbox && s.db.outbox[id].phase == Pending
    requires After(s, run, digest).db.now < s.db.outbox[id].nextAttempt
    ensures id in After(s, run, digest).db.outbox && After(s, run, digest).db.outbox[id] == s.db.outbox[id]
  {
    hide Effect;
    if run != [] {
      var front, a := run[..|run| - 1], run[|run| - 1];
      ClockStep(After(s, front, digest), a, digest);
      BackoffIsRespected(s, front, id, digest);
      RowStep(After(s, front, digest), a, id, digest);
    }
  }

  /** The worker does nothing more about the claim. */
  predicate Over(pc: Pc) { pc.Finished? || pc.Crashed? }

  lemma SettlingFinishes(s: Sys, a: Act, t: Token, digest: Digest)
    requires Enabled(s, a, digest) && t in s.tasks && (a.ClaimEvent? ==> t != s.db.nextToken)
    ensures t in Effect(s, a, digest).tasks
    ensures Over(s.tasks[t].pc) || (a.SettleStep? && a.token == t) ==> Over(Effect(s, a, digest).tasks[t].pc)
  {
    hide ReadyToAppend, Appendable, Persist, Load, SameEntry, HasId, Settle, SettlementOf, StatusAfter, Claim;
  }

  lemma LeaseStep(s: Sys, a: Act, id: EventId, t: Token, digest: Digest)
    requires Inv(s, digest) && Enabled(s, a, digest) && t in s.tasks
    ensures t in Effect(s, a, digest).tasks
    ensures Over(s.tasks[t].pc) ==> Over(Effect(s, a, digest).tasks[t].pc)
    ensures Owns(s.db, id, t) && s.db.outbox[id].leaseExpires.Some? && s.db.now <= s.db.outbox[id].leaseExpires.value ==>
              || Over(Effect(s, a, digest).tasks[t].pc)
              || (id in Effect(s, a, digest).db.outbox && Effect(s, a, digest).db.outbox[id] == s.db.outbox[id])
  {
    hide Effect, ReadyToAppend, LedgerOk, EventOk;
    assert TaskOk(s, t, digest);
    hide Inv, TaskOk;
    SettlingFinishes(s, a, t, digest);
    if Owns(s.db, id, t) { RowStep(s, a, id, digest); }
  }

  /** While its lease runs nobody takes an event from the worker that holds it: the row stays as
      claimed until that worker settles it or is gone. */
  lemma {:induction false} LeaseIsExclusive(s: Sys, run: seq<Act>, id: EventId, t: Token, digest: Digest)
    requires Inv(s, digest) && Legal(s, run, digest) && t in s.tasks && Owns(s.db, id, t)
    requires s.db.outbox[id].leaseExpires.Some? && After(s, run, digest).db.now <= s.db.outbox[id].leaseExpires.value
    ensures t in After(s, run, digest).tasks
    ensures || Over(After(s, run, digest).tasks[t].pc)
            || (id in After(s, run, digest).db.outbox && After(s, run, digest).db.outbox[id] == s.db.outbox[id])
  {
    hide Enabled, Effect, Inv;
    if run != [] {
      var front, a := run[..|run| - 1], run[|run| - 1];
      ClockStep(After(s, front, digest), a, digest);
      RunKeepsInv(s, front, digest);
      LeaseIsExclusive(s, front, id, t, digest);
      LeaseStep(After(s, front, digest), a, id, t, digest);
    }
  }

  function Claims(run: seq<Act>, id: EventId): nat {
    if run == [] then 0
    else Claims(run[..|run| - 1], id) + (if run[|run| - 1].ClaimEvent? && run[|run| - 1].id == id then 1 else 0)
  }

  lemma NewRowStep(s: Sys, a: Act, id: EventId, digest: Digest)
    requires Enabled(s, a, digest) && id !in s.db.outbox
    ensures !(a.ClaimEvent? && a.id == id)
    ensures id in Effect(s, a, digest).db.outbox ==> Effect(s, a, digest).db.outbox[id].attempts == 0
  {
    hide ReadyToAppend, Appendable, Persist, Load, SameEntry, HasId, SettlementOf;
  }

  /** The attempt counter counts claims, no more and no fewer. */
  lemma {:induction false} AttemptsCountClaims(now: int, run: seq<Act>, id: EventId, digest: Digest)
    requires Legal(Start(now), run, digest)
    ensures var u := After(Start(now), run, digest);
            Claims(run, id) == if id in u.db.outbox then u.db.outbox[id].attempts else 0
  {
    hide Enabled, Effect;
    if run != [] {
      var front, a := run[..|run| - 1], run[|run| - 1];
      AttemptsCountClaims(now, front, id, digest);
      var m := After(Start(now), front, digest);
      if id in m.db.outbox { RowStep(m, a, id, digest); } else { NewRowStep(m, a, id, digest); }
    }
  }

  /** When all workers use one attempt limit, an event waits for another attempt only after fewer
      claims than that. */
  lemma {:induction false} PendingIsBelowTheLimit(now: int, run: seq<Act>, id: EventId, limit: int, digest: Digest)
    requires Legal(Start(now), run, digest)
    requires forall a :: a in run && a.SettleStep? ==> a.maxAttempts == limit
    ensures var u := After(Start(now), run, digest);
            id in u.db.outbox && u.db.outbox[id].phase == Pending ==> Claims(run, id) == 0 || Claims(run, id) < limit
  {
    hide Enabled, Effect;
    AttemptsCountClaims(now, run, id, digest);
    if run != [] {
      var front, a := run[..|run| - 1], run[|run| - 1];
      assert run == front + [a];
      PendingIsBelowTheLimit(now, front, id, limit, digest);
      AttemptsCountClaims(now, front, id, digest);
      var m := After(Start(now), front, digest);
      if id in m.db.outbox { RowStep(m, a, id, digest); } else { NewRowStep(m, a, id, digest); }
    }
  }

  // ---- Recovery -----------------------------------------------------------------------

  lemma Extend(s: Sys, run: seq<Act>, a: Act, digest: Digest)
    requires Legal(s, run, digest) && Enabled(After(s, run, digest), a, digest)
    ensures Legal(s, run + [a], digest) && After(s, run + [a], digest) == Effect(After(s, run, digest), a, digest)
  {
    hide Enabled, Effect;
    assert (run + [a])[..|run|] == run;
  }

  /** Task `t` holds the current claim of event `id`, maps it to `e` and stands at `pc`. */
  predicate Working(s: Sys, t: Token, id: EventId, e: Entry, pc: Pc) {
    t in s.tasks && s.tasks[t] == Task(id, Some(e), pc) && Owns(s.db, id, t)
  }

  /** The ledger has room for `e`, or holds exactly it and can be read. */
  predicate Reconcilable(ledger: seq<Stored>, e: Entry, digest: Digest) {
    HasId(ledger, e.facts.entryId) ==> Load(ledger, e, digest).Some? && SameEntry(Load(ledger, e, digest).value, e)
  }

  lemma BecomesClaimable(s: Sys, id: EventId, digest: Digest) returns (wait: nat)
    requires Inv(s, digest) && id in s.db.outbox && !Terminal(s.db.outbox[id].phase)
    ensures Claimable(Effect(s, Tick(wait), digest).db, id)
  {
    hide LedgerOk, InLedger, TaskOk;
    assert EventOk(s, id);
    var e := s.db.outbox[id];
    var due := if e.phase == Pending then e.nextAttempt else e.leaseExpires.value + 1;
    wait := if due > s.db.now then due - s.db.now else 0;
  }

  lemma MapsUndisturbed(s: Sys, t: Token, id: EventId, e: Entry, digest: Digest)
    requires Working(s, t, id, e, AtMap)
    ensures Enabled(s, MapStep(t, ContractFailure), digest)
    ensures var u := Effect(s, MapStep(t, ContractFailure), digest); Working(u, t, id, e, AtAppend) && u.db == s.db
  {
  }

  lemma AppendsUndisturbed(s: Sys, t: Token, id: EventId, e: Entry, digest: Digest)
    requires Working(s, t, id, e, AtAppend) && e.facts.entryId == id && Appendable(e, digest)
    ensures Enabled(s, AppendStep(t, Reached(Answered)), digest)
    ensures var u := Effect(s, AppendStep(t, Reached(Answered)), digest);
            if HasId(s.db.ledger, id) then Working(u, t, id, e, AtLoad) && u.db == s.db
            else Working(u, t, id, e, AtComplete(false)) && u.db.outbox == s.db.outbox && u.db.now == s.db.now
  {
    AppendableIsAware(e, digest);
    hide ReadyToAppend, SqlAccepts, Persist, HasId;
  }

  lemma LoadsUndisturbed(s: Sys, t: Token, id: EventId, e: Entry, digest: Digest)
    requires Working(s, t, id, e, AtLoad) && Load(s.db.ledger, e, digest).Some?
    requires SameEntry(Load(s.db.ledger, e, digest).value, e)
    ensures Enabled(s, LoadStep(t, true), digest)
    ensures var u := Effect(s, LoadStep(t, true), digest); Working(u, t, id, e, AtComplete(true)) && u.db == s.db
  {
    hide Load, SameEntry;
  }

  lemma CompletesUndisturbed(s: Sys, t: Token, id: EventId, e: Entry, duplicate: bool, digest: Digest)
    requires Working(s, t, id, e, AtComplete(duplicate))
    ensures Enabled(s, SettleStep(t, Answered, 0, 0), digest)
    ensures id in s.db.outbox
    ensures var u := Effect(s, SettleStep(t, Answered, 0, 0), digest);
            && u.db.outbox == s.db.outbox[id := Settled(s.db.outbox[id], CompleteWith(e.integrityHash), s.db.now)]
            && AtPc(u, t, Finished(if duplicate then IdempotentDuplicate else StatusCompleted))
  {
  }

  /** One undisturbed pass of the worker. */
  lemma CleanPass(s: Sys, t: Token, id: EventId, e: Entry, digest: Digest) returns (run: seq<Act>)
    requires Working(s, t, id, e, AtMap) && e.facts.entryId == id
    requires Appendable(e, digest) && Reconcilable(s.db.ledger, e, digest)
    ensures Legal(s, run, digest) && id in s.db.outbox
    ensures After(s, run, digest).db.outbox
            == s.db.outbox[id := Settled(s.db.outbox[id], CompleteWith(e.integrityHash), s.db.now)]
  {
    assert Legal(s, [], digest) && After(s, [], digest) == s;
    hide Appendable, Load, SameEntry, HasId, Settled, Enabled, Effect, Working, Legal, After;
    MapsUndisturbed(s, t, id, e, digest);
    Extend(s, [], MapStep(t, ContractFailure), digest);
    run := [] + [MapStep(t, ContractFailure)];
    AppendsUndisturbed(After(s, run, digest), t, id, e, digest);
    Extend(s, run, AppendStep(t, Reached(Answered)), digest);
    run := run + [AppendStep(t, Reached(Answered))];
    if HasId(s.db.ledger, id) {
      LoadsUndisturbed(After(s, run, digest), t, id, e, digest);
      Extend(s, run, LoadStep(t, true), digest);
      run := run + [LoadStep(t, true)];
    }
    CompletesUndisturbed(After(s, run, digest), t, id, e, HasId(s.db.ledger, id), digest);
    Extend(s, run, SettleStep(t, Answered, 0, 0), digest);
    run := run + [SettleStep(t, Answered, 0, 0)];
  }

  lemma {:induction false} Concat(s: Sys, a: seq<Act>, b: seq<Act>, digest: Digest)
    requires Legal(s, a, digest) && Legal(After(s, a, digest), b, digest)
    ensures Legal(s, a + b, digest) && After(s, a + b, digest) == After(After(s, a, digest), b, digest)
  {
    hide Enabled, Effect;
    if b == [] {
      assert a + b == a;
    } else {
      Concat(s, a, b[..|b| - 1], digest);
      assert (a + b)[..|a + b| - 1] == a + b[..|b| - 1];
    }
  }

  /** No interleaving of crashes, lost messages and expired leases loses an event: as long as it has
      not ended, letting its lease or backoff run out and one undisturbed pass complete it, with the
      mapped entry's hash, provided the ledger has room for that entry or already holds it. */
  lemma EveryOpenEventCanComplete(s: Sys, id: EventId, e: Entry, digest: Digest) returns (run: seq<Act>)
    requires Inv(s, digest) && id in s.db.outbox && !Terminal(s.db.outbox[id].phase)
    requires e.facts.entryId == id && Appendable(e, digest) && Reconcilable(s.db.ledger, e, digest)
    ensures Legal(s, run, digest)
    ensures var u := After(s, run, digest);
            && id in u.db.outbox && u.db.outbox[id].phase == Completed
            && u.db.outbox[id].completedHash == Some(e.integrityHash)
  {
    hide Inv, Appendable, Reconcilable;
    var wait := BecomesClaimable(s, id, digest);
    assert Legal(s, [], digest);
    Extend(s, [], Tick(wait), digest);
    assert [] + [Tick(wait)] == [Tick(wait)];
    var s1 := After(s, [Tick(wait)], digest);
    Extend(s, [Tick(wait)], ClaimEvent(id, 60, Some(e)), digest);
    run := [Tick(wait)] + [ClaimEvent(id, 60, Some(e))];
    var s2 := After(s, run, digest);
    assert Working(s2, s1.db.nextToken, id, e, AtMap) && s2.db.ledger == s.db.ledger;
    var rest := CleanPass(s2, s1.db.nextToken, id, e, digest);
    Concat(s, run, rest, digest);
    run := run + rest;
  }
}
