/** What the calls of a worker do to its event's row, and what its final status tells about them. The
    statements are about the columns of the row and the calls of the run alone.

    Sources: the settlement functions of
    supabase/migrations/20260926120000_add_p8_outbox_processor_boundary.sql and the worker
    (apps/api/app/decision_trace_persistence/processor.py). */
module OutboxSettlement {
  import opened Wrappers
  import opened CanonicalLedger
  import opened LedgerStorage
  import opened OutboxProtocol

  // ---- The row ------------------------------------------------------------------------

  /** The row is being processed under the claim `t`; neither the clock nor the lease is asked. */
  predicate HeldUnder(db: Db, id: EventId, t: Token) {
    id in db.outbox && db.outbox[id].phase == Processing && db.outbox[id].owner == Some(t)
  }

  /** What a settlement is to leave in the row, by the point its worker has reached. */
  predicate RowSettled(was: Event, row: Event, task: Task, now: int, backoff: int, maxAttempts: int) {
    && row.owner == None && row.leaseExpires == None && row.attempts == was.attempts
    && match task.pc
       case AtComplete(_) => row.phase == Completed && task.mapped.Some? && row.completedHash == Some(task.mapped.value.integrityHash)
       case AtFail(error) => row.phase == PermanentFailure && row.lastError == Some(error)
       case _ =>
         && row.lastError == Some(TransientUnavailable)
         && if was.attempts < maxAttempts then row.phase == Pending && row.nextAttempt == now + backoff
            else row.phase == PermanentFailure
  }

  /** An answered settlement takes effect exactly when its worker's claim still holds the row, whatever
      has become of the lease, and in case of a release when the backoff is within its bounds; then the
      row says how the event went on, and otherwise nothing in the outbox has changed. */
  lemma SettlementTakesEffectExactly(s: Sys, t: Token, backoff: int, maxAttempts: int, digest: Digest)
    requires Inv(s, digest) && Enabled(s, SettleStep(t, Answered, backoff, maxAttempts), digest)
    ensures var task, u := s.tasks[t], Effect(s, SettleStep(t, Answered, backoff, maxAttempts), digest);
            && task.event in s.db.outbox && task.event in u.db.outbox && u.db.ledger == s.db.ledger
            && (forall id :: id in s.db.outbox && id != task.event ==> id in u.db.outbox && u.db.outbox[id] == s.db.outbox[id])
            && (if HeldUnder(s.db, task.event, t) && (task.pc == AtRelease ==> 1 <= backoff <= 86400)
                then u.db.outbox[task.event] != s.db.outbox[task.event]
                     && RowSettled(s.db.outbox[task.event], u.db.outbox[task.event], task, s.db.now, backoff, maxAttempts)
                else u.db.outbox == s.db.outbox)
  {
    hide LedgerOk, EventOk, Backed;
    assert TaskOk(s, t, digest);
  }

  /** A claim is possible exactly when nothing stands in its way: no running lease, no backoff, no end. */
  lemma ClaimPossibleExactly(s: Sys, id: EventId, lease: nat, mapped: Option<Entry>, digest: Digest)
    requires Inv(s, digest) && id in s.db.outbox && (mapped.Some? ==> mapped.value.facts.entryId == id)
    ensures Enabled(s, ClaimEvent(id, lease, mapped), digest) <==>
            && !Terminal(s.db.outbox[id].phase)
            && (s.db.outbox[id].phase == Pending ==> s.db.outbox[id].nextAttempt <= s.db.now)
            && (s.db.outbox[id].phase == Processing ==> s.db.outbox[id].leaseExpires.Some? && s.db.outbox[id].leaseExpires.value < s.db.now)
    ensures Enabled(s, ClaimEvent(id, lease, mapped), digest) ==>
              var u := Effect(s, ClaimEvent(id, lease, mapped), digest);
              && id in u.db.outbox && HeldUnder(u.db, id, s.db.nextToken) && u.db.nextToken == s.db.nextToken + 1
              && u.db.outbox[id].leaseExpires == Some(s.db.now + lease) && u.db.outbox[id].attempts == s.db.outbox[id].attempts + 1
              && s.db.nextToken in u.tasks && u.tasks[s.db.nextToken] == Task(id, mapped, AtMap)
  {
    hide LedgerOk, TaskOk, InLedger;
    assert EventOk(s, id);
  }

  lemma AppendLeads(s: Sys, t: Token, call: AppendCall)
    requires t in s.tasks && s.tasks[t].mapped.Some? && (Writes(call) ==> s.tasks[t].mapped.value.facts.createdAt.Aware?)
    ensures var taken, u := HasId(s.db.ledger, s.tasks[t].mapped.value.facts.entryId), AfterAppend(s, t, call);
            && t in u.tasks && u.db.outbox == s.db.outbox
            && (u.tasks[t].pc == AtComplete(false) <==> call == Reached(Answered) && !taken)
            && (u.tasks[t].pc == AtLoad <==> call == RefusedAsConflict || (taken && (call == Reached(Answered) || call == Unreadable)))
            && (u.tasks[t].pc == AtRelease <==> call == RefusedAsUnavailable || (call.Reached? && call.delivery != Answered))
            && (u.tasks[t].pc == AtFail(ContractFailure) <==> call == RefusedByChecks || (call == Unreadable && !taken))
  {
    hide Persist, HasId;
  }

  /** Where an append leaves its worker, by what is in the ledger and how the call came back. */
  lemma AppendLeadsExactly(s: Sys, t: Token, call: AppendCall, digest: Digest)
    requires Inv(s, digest) && Enabled(s, AppendStep(t, call), digest)
    ensures var id, u := s.tasks[t].event, Effect(s, AppendStep(t, call), digest);
            && t in u.tasks && u.db.outbox == s.db.outbox
            && (u.tasks[t].pc == AtComplete(false) <==> call == Reached(Answered) && !HasId(s.db.ledger, id))
            && (u.tasks[t].pc == AtLoad <==>
                  call == RefusedAsConflict || (HasId(s.db.ledger, id) && (call == Reached(Answered) || call == Unreadable)))
            && (u.tasks[t].pc == AtRelease <==> call == RefusedAsUnavailable || (call.Reached? && call.delivery != Answered))
            && (u.tasks[t].pc == AtFail(ContractFailure) <==> call == RefusedByChecks || (call == Unreadable && !HasId(s.db.ledger, id)))
  {
    assert TaskOk(s, t, digest);
    hide Inv, TaskOk, ReadyToAppend, SqlAccepts, HasId, AfterAppend;
    AppendLeads(s, t, call);
  }

  lemma MapLeads(s: Sys, t: Token, rejection: ErrorClass, digest: Digest)
    requires Enabled(s, MapStep(t, rejection), digest)
    ensures t in s.tasks && t in Effect(s, MapStep(t, rejection), digest).tasks
    ensures Effect(s, MapStep(t, rejection), digest).db == s.db
    ensures Effect(s, MapStep(t, rejection), digest).tasks[t].pc == if s.tasks[t].mapped.Some? then AtAppend else AtFail(rejection)
  {
  }

  /** A duplicate check leads to completion exactly when it is answered with an entry of the same hash
      and payload, and to a failure as a mismatch otherwise. */
  lemma LoadLeadsExactly(s: Sys, t: Token, answered: bool, e: Entry, digest: Digest)
    requires Enabled(s, LoadStep(t, answered), digest) && s.tasks[t].mapped == Some(e)
    ensures var x, u := Load(s.db.ledger, e, digest), Effect(s, LoadStep(t, answered), digest);
            && t in u.tasks && u.db == s.db && u.tasks[t].pc in {AtComplete(true), AtFail(DuplicateMismatch)}
            && (u.tasks[t].pc == AtComplete(true) <==>
                  && answered && x.Some? && x.value.integrityHash == e.integrityHash
                  && x.value.facts.createdAt.Aware? && e.facts.createdAt.Aware? && CanonicalPayload(x.value) == CanonicalPayload(e))
  {
    hide Load, CanonicalPayload;
  }

  // ---- What a status tells ------------------------------------------------------------

  /** The settlement call of claim `t` in the run, with the state it was made in. */
  ghost function SettlementIn(start: Sys, run: seq<Act>, t: Token, digest: Digest): Option<(Sys, Act)>
    requires Legal(start, run, digest)
    decreases |run|
  {
    if run == [] then None
    else
      var front, a := run[..|run| - 1], run[|run| - 1];
      if a.SettleStep? && a.token == t then Some((After(start, front, digest), a)) else SettlementIn(start, front, t, digest)
  }

  /** The call `a`, made in state `m`, is one after which a worker reports `status`: a release is a
      transient retry and a failure a permanent one, however the call went; a completion is a success
      only when it is answered for a row held under the claim, and a duplicate's when it had to look. */
  ghost predicate Reports(m: Sys, a: Act, t: Token, status: Status) {
    && a.SettleStep? && t in m.tasks
    && var task := m.tasks[t];
       match status
       case TransientRetry => task.pc == AtRelease
       case StatusPermanentFailure => task.pc.AtFail?
       case StatusCompleted => task.pc == AtComplete(false) && a.delivery == Answered && HeldUnder(m.db, task.event, t)
       case IdempotentDuplicate => task.pc == AtComplete(true) && a.delivery == Answered && HeldUnder(m.db, task.event, t)
       case CompletionFailed(stale) =>
         && task.pc.AtComplete?
         && if stale then a.delivery == Answered && !HeldUnder(m.db, task.event, t)
            else a.delivery != Answered && !(task.pc == AtComplete(true) && a.delivery.Escaped?)
  }

  lemma SettleReports(s: Sys, a: Act, t: Token, status: Status, digest: Digest)
    requires Enabled(s, a, digest) && a.SettleStep? && a.token == t
    ensures t in Effect(s, a, digest).tasks
    ensures Effect(s, a, digest).tasks[t].pc == Finished(status) <==> Reports(s, a, t, status)
    ensures Over(Effect(s, a, digest).tasks[t].pc)
  {
    hide Settle, SettlementOf;
  }

  /** Any other step leaves the claim unfinished, or as finished as it was. */
  lemma OthersFinishNothing(s: Sys, a: Act, t: Token, digest: Digest)
    requires Enabled(s, a, digest) && !(a.SettleStep? && a.token == t) && t in Effect(s, a, digest).tasks
    requires t in s.tasks ==> t < s.db.nextToken
    ensures t !in s.tasks ==> !Over(Effect(s, a, digest).tasks[t].pc)
    ensures t in s.tasks && s.tasks[t].pc.Finished? ==> Effect(s, a, digest).tasks[t].pc == s.tasks[t].pc
    ensures t in s.tasks && !s.tasks[t].pc.Finished? ==> !Effect(s, a, digest).tasks[t].pc.Finished?
  {
    hide ReadyToAppend, Appendable, Persist, Load, SameEntry, HasId, Settle, SettlementOf, StatusAfter;
    if t !in s.tasks {
      NewTaskStep(s, a, t, digest);
    } else if !Moves(a, t) {
      OtherTaskUntouched(s, a, t, digest);
    }
  }

  /** Over every run, a worker's status is the one its settlement call leads to, and it has one exactly
      when such a call was made. */
  lemma {:induction false} StatusTellsTheSettlement(start: Sys, run: seq<Act>, t: Token, status: Status, digest: Digest)
    requires Inv(start, digest) && Legal(start, run, digest) && t in After(start, run, digest).tasks
    requires t in start.tasks ==> !start.tasks[t].pc.Finished?
    ensures After(start, run, digest).tasks[t].pc == Finished(status) <==> SettledAs(start, run, t, status, digest)
  {
    hide Enabled, Effect, Reports;
    if run != [] {
      var front, a := run[..|run| - 1], run[|run| - 1];
      var m := After(start, front, digest);
      RunKeepsInv(start, front, digest);
      if t in m.tasks {
        IssuedBefore(m, t, digest);
        hide Inv;
        StatusTellsTheSettlement(start, front, t, status, digest);
        if a.SettleStep? && a.token == t { SettleReports(m, a, t, status, digest); } else { OthersFinishNothing(m, a, t, digest); }
      } else {
        hide Inv;
        NotYetSettled(start, front, t, digest);
        if a.SettleStep? && a.token == t { OnlyInFlight(m, a, digest); }
        OthersFinishNothing(m, a, t, digest);
      }
    }
  }

  lemma IssuedBefore(s: Sys, t: Token, digest: Digest)
    requires Inv(s, digest) && t in s.tasks
    ensures t < s.db.nextToken
  {
    assert TaskOk(s, t, digest);
  }

  /** Only a claim in flight can be settled. */
  lemma OnlyInFlight(s: Sys, a: Act, digest: Digest)
    requires Enabled(s, a, digest) && a.SettleStep?
    ensures a.token in s.tasks
  {
  }

  lemma {:induction false} NotYetSettled(start: Sys, run: seq<Act>, t: Token, digest: Digest)
    requires Inv(start, digest) && Legal(start, run, digest) && t !in After(start, run, digest).tasks
    ensures SettlementIn(start, run, t, digest) == None
  {
    hide Enabled, Effect, Inv;
    if run != [] {
      var front, a := run[..|run| - 1], run[|run| - 1];
      var m := After(start, front, digest);
      RunKeepsInv(start, front, digest);
      StepKeepsInv(m, a, digest);
      if a.SettleStep? && a.token == t { OnlyInFlight(m, a, digest); }
      NotYetSettled(start, front, t, digest);
    }
  }

  /** In the run, claim `t` was settled by a call after which its worker reports `status`. */
  ghost predicate SettledAs(start: Sys, run: seq<Act>, t: Token, status: Status, digest: Digest)
    requires Legal(start, run, digest)
  {
    var settlement := SettlementIn(start, run, t, digest);
    settlement.Some? && Reports(settlement.value.0, settlement.value.1, t, status)
  }
}
