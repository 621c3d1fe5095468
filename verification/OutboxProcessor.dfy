/** The outbox worker itself (apps/api/app/decision_trace_persistence/processor.py), run against the
    shared database while everybody else goes on, and shown to be one of the workers of the
    transition system in OutboxProtocol. */
module OutboxProcessor {
  import opened Wrappers
  import opened CanonicalLedger
  import opened LedgerStorage
  import opened OutboxProtocol
  import opened OutboxSettlement
  import M = OutboxMapper

  datatype ClaimedEvent = ClaimedEvent(eventId: EventId, token: Token, projection: M.Projection)

  /** How a call of the ledger adapter comes back to the worker. */
  datatype AppendReply = Appended(id: string) | Conflict | Unavailable | OtherPersistenceError | UnexpectedError

  /** `Raised`: an exception that is no persistence error. */
  datatype SettleReply = Done | StaleClaim | OtherError | Raised

  datatype ProcessingResult = ProcessingResult(eventId: EventId, status: Status, ledgerEntryId: Option<string>, integrityHash: Option<string>)

  datatype BatchSummary = BatchSummary(claimed: nat, completed: nat, retried: nat, failed: nat, results: seq<ProcessingResult>)

  predicate Successful(s: Status) { s == StatusCompleted || s == IdempotentDuplicate }

  function CountWhere(results: seq<ProcessingResult>, p: Status -> bool): nat {
    if results == [] then 0
    else CountWhere(results[..|results| - 1], p) + (if p(results[|results| - 1].status) then 1 else 0)
  }

  // ---- Reachability -------------------------------------------------------------------

  ghost predicate Reaches(s: Sys, u: Sys, digest: Digest) {
    exists run :: Legal(s, run, digest) && After(s, run, digest) == u
  }

  lemma ReachesItself(s: Sys, digest: Digest)
    ensures Reaches(s, s, digest)
  {
    assert Legal(s, [], digest) && After(s, [], digest) == s;
  }

  /** One more step of the transition system. */
  lemma Commit(start: Sys, s: Sys, a: Act, digest: Digest)
    requires Reaches(start, s, digest) && Inv(s, digest) && Enabled(s, a, digest)
    ensures Reaches(start, Effect(s, a, digest), digest) && Inv(Effect(s, a, digest), digest) && Grows(s, Effect(s, a, digest))
  {
    hide Enabled, Effect, Inv, Grows;
    StepKeepsInv(s, a, digest);
    var run :| Legal(start, run, digest) && After(start, run, digest) == s;
    Extend(start, run, a, digest);
  }

  lemma ReachesTransitive(s: Sys, m: Sys, u: Sys, digest: Digest)
    requires Reaches(s, m, digest) && Reaches(m, u, digest)
    ensures Reaches(s, u, digest)
  {
    hide Legal, After;
    var a :| Legal(s, a, digest) && After(s, a, digest) == m;
    var b :| Legal(m, b, digest) && After(m, b, digest) == u;
    Concat(s, a, b, digest);
  }

  /** What everybody else may do to a worker that waits: nothing to its own claims. */
  ghost predicate Spares(s: Sys, u: Sys, mine: set<Token>) {
    && Grows(s, u)
    && forall t :: t in mine && t in s.tasks ==> t in u.tasks && u.tasks[t] == s.tasks[t]
  }

  lemma SparesTransitive(s: Sys, m: Sys, u: Sys, mine: set<Token>)
    requires Spares(s, m, mine) && Spares(m, u, mine)
    ensures Spares(s, u, mine)
  {
    GrowsTransitive(s, m, u);
  }

  predicate MovesNone(a: Act, mine: set<Token>) {
    !((a.MapStep? || a.AppendStep? || a.LoadStep? || a.SettleStep? || a.Crash?) && a.token in mine)
  }

  lemma TokenWasIssued(s: Sys, t: Token, digest: Digest)
    requires Inv(s, digest) && t in s.tasks
    ensures t < s.db.nextToken
  {
    assert TaskOk(s, t, digest);
  }

  lemma NextTokenIsNew(s: Sys, digest: Digest)
    requires Inv(s, digest)
    ensures s.db.nextToken !in s.tasks
  {
    if s.db.nextToken in s.tasks { TokenWasIssued(s, s.db.nextToken, digest); }
  }

  lemma OthersSpare(s: Sys, a: Act, mine: set<Token>, digest: Digest)
    requires Inv(s, digest) && Enabled(s, a, digest) && MovesNone(a, mine)
    ensures Spares(s, Effect(s, a, digest), mine)
  {
    hide Grows, Inv, Enabled, Effect;
    StepKeepsInv(s, a, digest);
    forall t | t in mine && t in s.tasks
      ensures t in Effect(s, a, digest).tasks && Effect(s, a, digest).tasks[t] == s.tasks[t]
    {
      TokenWasIssued(s, t, digest);
      OtherTaskUntouched(s, a, t, digest);
    }
  }

  // ---- The shared database, and the adapters in front of it ---------------------------

  /** Where the worker's code resumes after an append. */
  function ResumeAppend(reply: AppendReply): Pc {
    match reply
    case Appended(_) => AtComplete(false)
    case Conflict => AtLoad
    case Unavailable => AtRelease
    case UnexpectedError => AtRelease
    case OtherPersistenceError => AtFail(ContractFailure)
  }

  /** What the worker reports after a settlement call: only completion looks at the reply. */
  function StatusOf(pc: Pc, reply: SettleReply): Status
    requires Settling(pc)
  {
    match pc
    case AtRelease => TransientRetry
    case AtFail(_) => StatusPermanentFailure
    case AtComplete(duplicate) =>
      if reply == OtherError || reply == Raised then CompletionFailed(false)
      else if reply == StaleClaim then CompletionFailed(true)
      else if duplicate then IdempotentDuplicate else StatusCompleted
  }

  /** On the duplicate path the worker catches persistence errors only. */
  function ResumeSettle(pc: Pc, reply: SettleReply): Pc
    requires Settling(pc)
  {
    if reply == Raised && pc == AtComplete(true) then Crashed else Finished(StatusOf(pc, reply))
  }

  function AppendReplyTo(call: AppendCall, taken: bool, id: string): AppendReply {
    match call
    case Reached(Answered) => if taken then Conflict else Appended(id)
    case Reached(Escaped(_)) => UnexpectedError
    case Reached(_) => Unavailable
    case Unreadable => if taken then Conflict else OtherPersistenceError
    case RefusedAsConflict => Conflict
    case RefusedAsUnavailable => Unavailable
    case RefusedByChecks => OtherPersistenceError
  }

  function SettleReplyTo(delivery: Delivery, owned: bool): SettleReply {
    match delivery
    case Answered => if owned then Done else StaleClaim
    case Escaped(_) => Raised
    case _ => OtherError
  }

  /** Acting on the reply takes the worker where the protocol's step does. */
  lemma AppendComesBack(s: Sys, t: Token, call: AppendCall, e: Entry, digest: Digest)
    requires Enabled(s, AppendStep(t, call), digest) && s.tasks[t].mapped == Some(e)
    requires Writes(call) ==> e.facts.createdAt.Aware?
    ensures var reply := AppendReplyTo(call, HasId(s.db.ledger, e.facts.entryId), e.facts.entryId);
            Effect(s, AppendStep(t, call), digest)
            == Goto(if Writes(call) then s.(db := OutboxProtocol.Append(s.db, e)) else s, t, ResumeAppend(reply))
  {
    hide ReadyToAppend, Appendable, Persist, HasId;
  }

  lemma SettlementComesBack(s: Sys, t: Token, delivery: Delivery, backoff: int, maxAttempts: int)
    requires t in s.tasks && Settling(s.tasks[t].pc) && (s.tasks[t].pc.AtComplete? ==> s.tasks[t].mapped.Some?)
    ensures var task := s.tasks[t];
            var db := if TakesEffect(delivery) then Settle(s.db, task.event, t, SettlementOf(task, backoff, maxAttempts)) else s.db;
            AfterSettle(s, t, delivery, backoff, maxAttempts)
            == Goto(s.(db := db), t, ResumeSettle(task.pc, SettleReplyTo(delivery, Owns(s.db, task.event, t))))
  {
    hide Settle, SettlementOf, Owns;
  }

  /** The claim of `event` is in flight and nothing has been done about it yet. */
  ghost predicate Claimed(s: Sys, event: ClaimedEvent, digest: Digest) {
    event.token in s.tasks && s.tasks[event.token] == Task(event.eventId, M.Map(event.projection, digest), AtMap)
  }

  ghost predicate BatchClaimed(s: Sys, events: seq<ClaimedEvent>, digest: Digest) {
    && (forall i :: 0 <= i < |events| ==> Claimed(s, events[i], digest) && events[i].token < s.db.nextToken)
    && (forall i, j :: 0 <= i < j < |events| ==> events[i].token != events[j].token)
  }

  /** What the database granted to this worker's claim calls, and whether the last one was answered. */
  datatype Grants = Grants(events: seq<ClaimedEvent>, answered: bool)

  function TokensOf(events: seq<ClaimedEvent>): set<Token> { set e | e in events :: e.token }

  /** The claims in flight are the `earlier` ones and those of `events`. */
  ghost predicate NewInFlight(earlier: set<Token>, now: set<Token>, events: seq<ClaimedEvent>) {
    now == earlier + TokensOf(events) && earlier !! TokensOf(events)
  }

  lemma OneNewInFlight(earlier: set<Token>, before: set<Token>, events: seq<ClaimedEvent>, event: ClaimedEvent)
    requires NewInFlight(earlier, before, events) && event.token !in before
    ensures NewInFlight(earlier, before + {event.token}, events + [event])
  {
    forall e ensures e in events + [event] <==> e in events || e == event {}
    assert TokensOf(events + [event]) == TokensOf(events) + {event.token};
  }

  lemma NothingClaimed(s: Sys, digest: Digest)
    ensures BatchClaimed(s, [], digest) && NewInFlight(s.tasks.Keys, s.tasks.Keys, []) && Grows(s, s)
  {
  }

  /** The event is being processed under the claim granted for it, for `lease` seconds from now. */
  ghost predicate Leased(db: Db, event: ClaimedEvent, lease: int) {
    HeldUnder(db, event.eventId, event.token) && db.outbox[event.eventId].leaseExpires == Some(db.now + lease)
  }

  lemma ClaimLeases(db: Db, events: seq<ClaimedEvent>, event: ClaimedEvent, lease: nat)
    requires Claimable(db, event.eventId) && event.token == db.nextToken
    requires forall e :: e in events ==> Leased(db, e, lease)
    ensures forall e :: e in events + [event] ==> Leased(Claim(db, event.eventId, lease), e, lease)
  {
  }

  /** `tasks` records the claims in flight, of all workers, with the point each has reached; `grants`
      those this worker was given, whether or not it learned of them. */
  class Backend {
    const digest: Digest
    var db: Db
    var tasks: map<Token, Task>
    ghost var grants: Grants

    ghost function Abstract(): Sys
      reads this
    {
      Sys(db, tasks)
    }

    ghost predicate Valid()
      reads this
    {
      HexDigest(digest) && Inv(Abstract(), digest)
    }

    /** Waiting for a response: any schedule of other workers, producers, crashes and time passes. */
    method Await(mine: set<Token>, ghost start: Sys)
      requires Valid() && Reaches(start, Abstract(), digest)
      modifies this`db, this`tasks
      ensures Valid() && Reaches(start, Abstract(), digest) && Spares(old(Abstract()), Abstract(), mine)
    {
      var schedule: seq<Act> := *;
      var i := 0;
      assert Grows(Abstract(), Abstract());
      while i < |schedule|
        invariant Valid() && Reaches(start, Abstract(), digest) && Spares(old(Abstract()), Abstract(), mine)
      {
        hide Inv, Reaches, Effect, Spares, Enabled, HexDigest;
        var a, s := schedule[i], Sys(db, tasks);
        if MovesNone(a, mine) && Enabled(s, a, digest) {
          Commit(start, s, a, digest);
          OthersSpare(s, a, mine, digest);
          SparesTransitive(old(Abstract()), s, Effect(s, a, digest), mine);
          var u := Effect(s, a, digest);
          db, tasks := u.db, u.tasks;
        }
        i := i + 1;
      }
    }

    /** `claim_events`: some claimable events, each under a token of its own; `None` when an argument
        is out of bounds or the answer is lost or unreadable, in which case the claims stand. What is
        granted is what is new in flight, and an answer lists all of it. */
    method ClaimEvents(batchSize: int, leaseSeconds: int, ghost start: Sys) returns (claimed: Option<seq<ClaimedEvent>>)
      requires Valid() && Reaches(start, Abstract(), digest)
      modifies this
      ensures Valid() && Reaches(start, Abstract(), digest) && Grows(old(Abstract()), Abstract())
      ensures !(1 <= batchSize <= 100 && 10 <= leaseSeconds <= 600) ==>
                claimed == None && Abstract() == old(Abstract()) && grants.events == old(grants.events)
      ensures old(grants.events) <= grants.events && grants.answered == claimed.Some?
      ensures var granted := grants.events[|old(grants.events)|..];
              && |granted| <= (if batchSize > 0 then batchSize else 0) && BatchClaimed(Abstract(), granted, digest)
              && NewInFlight(old(tasks.Keys), tasks.Keys, granted)
              && (claimed.Some? ==> claimed.value == granted)
              && db.now == old(db.now) && forall e :: e in granted ==> Leased(db, e, leaseSeconds)
    {
      hide Inv, Reaches, Grows, HexDigest, BatchClaimed, NewInFlight, Leased;
      claimed := None;
      ghost var before := grants.events;
      if 1 <= batchSize <= 100 && 10 <= leaseSeconds <= 600 {
        var events := Grant(batchSize, leaseSeconds, start);
        assert grants.events[|before|..] == events;
        var received: bool := *;
        if received { claimed := Some(events); }
      } else {
        assert grants.events[|before|..] == [];
        NothingClaimed(Abstract(), digest);
      }
      grants := grants.(answered := claimed.Some?);
    }

    /** `claim_decision_trace_outbox_events`, at one instant. */
    method Grant(batchSize: nat, leaseSeconds: nat, ghost start: Sys) returns (events: seq<ClaimedEvent>)
      requires Valid() && Reaches(start, Abstract(), digest)
      modifies this
      ensures Valid() && Reaches(start, Abstract(), digest) && Grows(old(Abstract()), Abstract())
      ensures |events| <= batchSize && BatchClaimed(Abstract(), events, digest) && NewInFlight(old(tasks.Keys), tasks.Keys, events)
      ensures grants == old(grants).(events := old(grants.events) + events)
      ensures db.now == old(db.now) && forall e :: e in events ==> Leased(db, e, leaseSeconds)
    {
      NothingClaimed(Abstract(), digest);
      hide Inv, Reaches, Grows, HexDigest, CanonicalUuid, M.Map, Claimable, BatchClaimed, NewInFlight, Leased;
      events := [];
      var wanted: nat := *;
      while wanted > 0 && |events| < batchSize
        invariant Valid() && Reaches(start, Abstract(), digest) && Grows(old(Abstract()), Abstract())
        invariant |events| <= batchSize && BatchClaimed(Abstract(), events, digest) && NewInFlight(old(tasks.Keys), tasks.Keys, events)
        invariant grants == old(grants).(events := old(grants.events) + events)
        invariant db.now == old(db.now) && forall e :: e in events ==> Leased(db, e, leaseSeconds)
        decreases wanted
      {
        var projection: M.Projection := *;
        if projection.event.Some? && Claimable(db, projection.event.value.eventId) {
          var event := ClaimedEvent(projection.event.value.eventId, db.nextToken, projection);
          NextTokenIsNew(Abstract(), digest);
          OneNewInFlight(old(tasks.Keys), tasks.Keys, events, event);
          ClaimLeases(db, events, event, leaseSeconds);
          ClaimOne(event, leaseSeconds, start, old(Abstract()), events);
          events := events + [event];
        }
        wanted := wanted - 1;
      }
    }

    method ClaimOne(event: ClaimedEvent, lease: nat, ghost start: Sys, ghost before: Sys, ghost earlier: seq<ClaimedEvent>)
      requires Valid() && Reaches(start, Abstract(), digest) && Grows(before, Abstract())
      requires event.projection.event.Some? && event.projection.event.value.eventId == event.eventId
      requires Claimable(db, event.eventId) && event.token == db.nextToken
      requires BatchClaimed(Abstract(), earlier, digest) && event.token !in tasks
      modifies this
      ensures Valid() && Reaches(start, Abstract(), digest) && Grows(before, Abstract())
      ensures BatchClaimed(Abstract(), earlier + [event], digest)
      ensures grants == old(grants).(events := old(grants.events) + [event])
      ensures tasks.Keys == old(tasks.Keys) + {event.token} && db == Claim(old(db), event.eventId, lease)
    {
      hide Inv, Reaches, Grows, Claimable, M.Map;
      var mapped := M.Map(event.projection, digest);
      if mapped.Some? { M.MappedIdentity(event.projection, digest); }
      ghost var s := Abstract();
      Commit(start, s, ClaimEvent(event.eventId, lease, mapped), digest);
      GrowsTransitive(before, s, Effect(s, ClaimEvent(event.eventId, lease, mapped), digest));
      db, tasks := Claim(db, event.eventId, lease), tasks[db.nextToken := Task(event.eventId, mapped, AtMap)];
      grants := grants.(events := grants.events + [event]);
      assert Claimed(Abstract(), event, digest);
    }

    /** The worker of claim `t` resumes at `pc`: what it just did amounts to step `a`. */
    method Resume(t: Token, pc: Pc, ghost a: Act, ghost before: Sys, mine: set<Token>, ghost start: Sys)
      requires HexDigest(digest) && Inv(before, digest) && Reaches(start, before, digest) && Enabled(before, a, digest)
      requires t in tasks && Effect(before, a, digest) == Goto(Abstract(), t, pc)
      requires tasks == before.tasks
      modifies this`tasks
      ensures Valid() && Reaches(start, Abstract(), digest)
      ensures Grows(before, Abstract()) && Spares(before, Abstract(), mine - {t})
      ensures tasks == old(tasks)[t := old(tasks[t]).(pc := pc)]
    {
      hide Inv, Reaches, Grows, Enabled, HexDigest;
      Commit(start, before, a, digest);
      tasks := tasks[t := tasks[t].(pc := pc)];
    }

    /** `append` of the ledger adapter: its own checks, then the database function, if the request
        gets there; and an answer, if that gets back. */
    method Append(t: Token, e: Entry, mine: set<Token>, ghost start: Sys) returns (reply: AppendReply)
      requires Valid() && Reaches(start, Abstract(), digest)
      requires t in mine && AtPc(Abstract(), t, AtAppend) && tasks[t].mapped == Some(e)
      modifies this`db, this`tasks
      ensures Valid() && Reaches(start, Abstract(), digest) && Spares(old(Abstract()), Abstract(), mine - {t})
      ensures t in tasks && tasks[t] == old(tasks[t]).(pc := ResumeAppend(reply))
      ensures reply.Appended? ==> reply.id == e.facts.entryId
    {
      hide Inv, Reaches, Grows, HexDigest, ReadyToAppend, Appendable, HasId, Persist, Claimable, Load, ResumeAppend;
      Await(mine, start);
      ghost var s := Abstract();
      assert s.tasks[t] == old(tasks[t]);
      ReadyOrRefused(e, digest);
      var call: AppendCall := *;
      if !ReadyToAppend(e, digest) {
        call := RefusedByChecks;
      } else if call == RefusedByChecks || (Writes(call) && !Appendable(e, digest)) {
        var violation: bool := *;
        call := if violation then RefusedAsConflict else RefusedAsUnavailable;
      }
      AppendComesBack(s, t, call, e, digest);
      reply := AppendReplyTo(call, HasId(db.ledger, e.facts.entryId), e.facts.entryId);
      if Writes(call) { db := OutboxProtocol.Append(db, e); }
      Resume(t, ResumeAppend(reply), AppendStep(t, call), s, mine, start);
      OneMoved(old(Abstract()), s, Abstract(), t, mine);
    }

    /** `load_student_entry`; an exception leaves the worker with nothing, as does a lost answer. */
    method LoadStudentEntry(t: Token, e: Entry, mine: set<Token>, ghost start: Sys)
      returns (existing: Option<Entry>, ghost answered: bool)
      requires Valid() && Reaches(start, Abstract(), digest)
      requires t in mine && AtPc(Abstract(), t, AtLoad) && tasks[t].mapped == Some(e)
      modifies this`db, this`tasks
      ensures Valid() && Reaches(start, Abstract(), digest) && Spares(old(Abstract()), Abstract(), mine)
      ensures existing == if answered then Load(db.ledger, e, digest) else None
    {
      Await(mine, start);
      var delivered: bool := *;
      existing := if delivered then Load(db.ledger, e, digest) else None;
      answered := delivered;
    }

    /** `complete_event`, `release_event` and `fail_event`, by where the worker stands. */
    method SettleEvent(t: Token, backoff: int, maxAttempts: int, mine: set<Token>, ghost start: Sys)
      returns (reply: SettleReply, ghost before: Sys, ghost call: Act)
      requires Valid() && Reaches(start, Abstract(), digest)
      requires t in mine && t in tasks && Settling(tasks[t].pc)
      modifies this`db, this`tasks
      ensures Valid() && Reaches(start, Abstract(), digest) && Spares(old(Abstract()), Abstract(), mine - {t})
      ensures t in tasks && tasks[t] == old(tasks[t]).(pc := ResumeSettle(old(tasks[t].pc), reply))
      ensures call.SettleStep? && call.token == t && call.backoff == backoff && call.maxAttempts == maxAttempts
      ensures Reaches(start, before, digest) && Enabled(before, call, digest) && Effect(before, call, digest) == Abstract()
    {
      hide Reaches, Grows, HexDigest, EventOk, LedgerOk, Backed;
      Await(mine, start);
      ghost var s := Abstract();
      var task := tasks[t];
      assert task == old(tasks[t]) && TaskOk(s, t, digest);
      hide Inv, TaskOk;
      var delivery: Delivery := *;
      SettlementComesBack(s, t, delivery, backoff, maxAttempts);
      reply := SettleReplyTo(delivery, Owns(db, task.event, t));
      if TakesEffect(delivery) { db := Settle(db, task.event, t, SettlementOf(task, backoff, maxAttempts)); }
      before, call := s, SettleStep(t, delivery, backoff, maxAttempts);
      Resume(t, ResumeSettle(task.pc, reply), call, s, mine, start);
      OneMoved(old(Abstract()), s, Abstract(), t, mine);
    }
  }

  lemma ReadyOrRefused(e: Entry, digest: Digest)
    ensures ReadyToAppend(e, digest) ==> e.facts.createdAt.Aware?
  {
    if ReadyToAppend(e, digest) { ReadyIsAware(e, digest); }
  }

  /** Others moved, then claim `t`. */
  lemma OneMoved(s: Sys, m: Sys, u: Sys, t: Token, mine: set<Token>)
    requires Spares(s, m, mine) && Grows(m, u) && t in m.tasks && t in u.tasks && u.tasks == m.tasks[t := u.tasks[t]]
    ensures Spares(s, u, mine - {t})
  {
    GrowsTransitive(s, m, u);
    hide Grows;
  }

  // ---- The worker ---------------------------------------------------------------------

  /** What a result says about the entry: identity and hash when an entry was at hand to complete
      with, nothing otherwise. */
  predicate ResultNames(result: ProcessingResult, event: ClaimedEvent, mapped: Option<Entry>) {
    && result.eventId == event.eventId
    && if Successful(result.status) || result.status.CompletionFailed?
       then mapped.Some? && result.ledgerEntryId == Some(event.eventId) && result.integrityHash == Some(mapped.value.integrityHash)
       else result.ledgerEntryId == None && result.integrityHash == None
  }

  predicate Retried(s: Status) { s == TransientRetry }

  predicate Unsuccessful(s: Status) { !Successful(s) && !Retried(s) }

  lemma {:induction false} CountsPartition(results: seq<ProcessingResult>)
    ensures CountWhere(results, Successful) + CountWhere(results, Retried) + CountWhere(results, Unsuccessful) == |results|
  {
    if results != [] { CountsPartition(results[..|results| - 1]); }
  }

  function PlacesWhere(results: seq<ProcessingResult>, p: Status -> bool): set<int> {
    set i | 0 <= i < |results| && p(results[i].status)
  }

  lemma PlacesSnoc(front: seq<ProcessingResult>, last: ProcessingResult, p: Status -> bool)
    ensures PlacesWhere(front + [last], p) == PlacesWhere(front, p) + (if p(last.status) then {|front|} else {})
    ensures |front| !in PlacesWhere(front, p)
  {
    var results := front + [last];
    assert results[|front|] == last && forall i :: 0 <= i < |front| ==> results[i] == front[i];
  }

  /** A counter counts the places of the results it is for. */
  lemma {:induction false} CountIsSize(results: seq<ProcessingResult>, p: Status -> bool)
    ensures CountWhere(results, p) == |PlacesWhere(results, p)|
  {
    if results == [] {
      assert PlacesWhere(results, p) == {};
    } else {
      var front, last := results[..|results| - 1], results[|results| - 1];
      assert results == front + [last];
      hide PlacesWhere;
      CountIsSize(front, p);
      PlacesSnoc(front, last, p);
    }
  }

  /** On the way from `start` to `s` claim `t` was settled by the call `a`, made in state `m`, after
      which its worker reports `status`. */
  ghost predicate SettledBy(start: Sys, m: Sys, a: Act, s: Sys, t: Token, status: Status, digest: Digest) {
    && Reaches(start, m, digest) && Enabled(m, a, digest) && a.SettleStep? && a.token == t && Reports(m, a, t, status)
    && Reaches(Effect(m, a, digest), s, digest)
  }

  /** Claim `t` was settled between the two states by a call that leads to `status`, and that carries the
      worker's own backoff and attempt limit. */
  ghost predicate EndsAs(start: Sys, s: Sys, t: Token, status: Status, backoff: int, maxAttempts: int, digest: Digest) {
    exists m, a :: SettledBy(start, m, a, s, t, status, digest) && a.backoff == backoff && a.maxAttempts == maxAttempts
  }

  lemma EndsWithin(start: Sys, s: Sys, u: Sys, v: Sys, t: Token, status: Status, backoff: int, maxAttempts: int, digest: Digest)
    requires Reaches(start, s, digest) && EndsAs(s, u, t, status, backoff, maxAttempts, digest) && Reaches(u, v, digest)
    ensures EndsAs(start, v, t, status, backoff, maxAttempts, digest)
  {
    hide Reaches, Reports, Enabled, Effect;
    var m, a :| SettledBy(s, m, a, u, t, status, digest) && a.backoff == backoff && a.maxAttempts == maxAttempts;
    ReachesTransitive(start, s, m, digest);
    ReachesTransitive(Effect(m, a, digest), u, v, digest);
    assert SettledBy(start, m, a, v, t, status, digest);
  }

  /** Each claim that has a result was settled so. */
  ghost predicate AllEnd(start: Sys, s: Sys, events: seq<ClaimedEvent>, results: seq<ProcessingResult>, backoff: int, maxAttempts: int, digest: Digest)
    requires |results| <= |events|
  {
    forall i :: 0 <= i < |results| ==> EndsAs(start, s, events[i].token, results[i].status, backoff, maxAttempts, digest)
  }

  lemma NoneEnd(start: Sys, s: Sys, events: seq<ClaimedEvent>, backoff: int, maxAttempts: int, digest: Digest)
    ensures AllEnd(start, s, events, [], backoff, maxAttempts, digest)
  {
  }

  /** What has ended goes on having ended as it did. */
  lemma EndingsStand(start: Sys, s: Sys, u: Sys, events: seq<ClaimedEvent>, results: seq<ProcessingResult>,
                     backoff: int, maxAttempts: int, digest: Digest)
    requires Reaches(s, u, digest) && |results| <= |events| && AllEnd(start, s, events, results, backoff, maxAttempts, digest)
    ensures AllEnd(start, u, events, results, backoff, maxAttempts, digest)
  {
    hide EndsAs;
    ReachesItself(start, digest);
    forall i | 0 <= i < |results| ensures EndsAs(start, u, events[i].token, results[i].status, backoff, maxAttempts, digest) {
      EndsWithin(start, start, s, u, events[i].token, results[i].status, backoff, maxAttempts, digest);
    }
  }

  lemma OneMoreEnds(start: Sys, s: Sys, u: Sys, events: seq<ClaimedEvent>, results: seq<ProcessingResult>, next: ProcessingResult,
                    backoff: int, maxAttempts: int, digest: Digest)
    requires Reaches(start, s, digest) && |results| < |events| && AllEnd(start, u, events, results, backoff, maxAttempts, digest)
    requires EndsAs(s, u, events[|results|].token, next.status, backoff, maxAttempts, digest)
    ensures AllEnd(start, u, events, results + [next], backoff, maxAttempts, digest)
  {
    hide EndsAs;
    ReachesItself(u, digest);
    EndsWithin(start, s, u, u, events[|results|].token, next.status, backoff, maxAttempts, digest);
  }

  /** The places of the events whose claims the run settled by a call that leads to one of `statuses`. */
  ghost function SettledAmong(start: Sys, run: seq<Act>, events: seq<ClaimedEvent>, statuses: set<Status>, digest: Digest): set<int>
    requires Legal(start, run, digest)
  {
    set i, status | 0 <= i < |events| && status in statuses && SettledAs(start, run, events[i].token, status, digest) :: i
  }

  const SUCCESSES := {StatusCompleted, IdempotentDuplicate}
  const RETRIES := {TransientRetry}
  const FAILURES := {StatusPermanentFailure, CompletionFailed(false), CompletionFailed(true)}

  lemma CountIsSettled(start: Sys, run: seq<Act>, events: seq<ClaimedEvent>, results: seq<ProcessingResult>, statuses: set<Status>,
                       p: Status -> bool, digest: Digest)
    requires Inv(start, digest) && Legal(start, run, digest) && |results| == |events| && forall st :: p(st) <==> st in statuses
    requires forall i :: 0 <= i < |events| ==> events[i].token !in start.tasks && Ended(After(start, run, digest), events[i], results[i], digest)
    ensures CountWhere(results, p) == |SettledAmong(start, run, events, statuses, digest)|
  {
    hide Inv, Legal, After, SettledAs, M.Map;
    CountIsSize(results, p);
    forall i, status | 0 <= i < |events|
      ensures SettledAs(start, run, events[i].token, status, digest) <==> results[i].status == status
    {
      StatusTellsTheSettlement(start, run, events[i].token, status, digest);
    }
    assert SettledAmong(start, run, events, statuses, digest) == PlacesWhere(results, p);
  }

  /** The event behind a reported success is completed with the hash of the entry its projection maps
      to, and the ledger holds that entry as written, or a row that reads back as its payload. */
  ghost predicate Vouched(db: Db, r: ProcessingResult, e: Entry, digest: Digest) {
    && r.eventId in db.outbox && db.outbox[r.eventId].phase == Completed
    && r.eventId == e.facts.entryId && r.integrityHash == Some(e.integrityHash)
    && db.outbox[r.eventId].completedHash == r.integrityHash
    && Backed(db.ledger, e, r.status == IdempotentDuplicate, digest)
  }

  ghost predicate Ended(s: Sys, event: ClaimedEvent, result: ProcessingResult, digest: Digest) {
    && event.token in s.tasks
    && s.tasks[event.token] == Task(event.eventId, M.Map(event.projection, digest), Finished(result.status))
    && ResultNames(result, event, M.Map(event.projection, digest))
  }

  lemma EndedIsVouched(s: Sys, event: ClaimedEvent, r: ProcessingResult, digest: Digest)
    requires Inv(s, digest) && Ended(s, event, r, digest) && Successful(r.status)
    ensures M.Map(event.projection, digest).Some? && Vouched(s.db, r, M.Map(event.projection, digest).value, digest)
  {
    hide M.Map, LedgerOk, Backed;
    assert TaskOk(s, event.token, digest);
  }

  /** On the way from `start` the claim stood at `pc`. */
  ghost predicate Passes(start: Sys, s: Sys, t: Token, pc: Pc, digest: Digest) {
    exists m :: Reaches(start, m, digest) && AtPc(m, t, pc) && Reaches(m, s, digest)
  }

  /** The worker of `event` let an exception of the completion call through, which it does only for
      a duplicate it has verified and was about to complete. */
  ghost predicate Escapes(start: Sys, s: Sys, event: ClaimedEvent, digest: Digest) {
    var mapped := M.Map(event.projection, digest);
    && event.token in s.tasks && s.tasks[event.token] == Task(event.eventId, mapped, Crashed)
    && Passes(start, s, event.token, AtComplete(true), digest)
    && mapped.Some? && Backed(s.db.ledger, mapped.value, true, digest)
  }

  lemma EscapesFrom(start: Sys, m: Sys, s: Sys, event: ClaimedEvent, digest: Digest)
    requires Reaches(start, m, digest) && Escapes(m, s, event, digest)
    ensures Escapes(start, s, event, digest)
  {
    hide M.Map, Backed, Reaches;
    var n :| Reaches(m, n, digest) && AtPc(n, event.token, AtComplete(true)) && Reaches(n, s, digest);
    ReachesTransitive(start, m, n, digest);
  }

  lemma AllVouched(s: Sys, events: seq<ClaimedEvent>, results: seq<ProcessingResult>, digest: Digest)
    requires Inv(s, digest) && |results| <= |events|
    requires forall i :: 0 <= i < |results| ==> Ended(s, events[i], results[i], digest)
    ensures forall i :: 0 <= i < |results| && Successful(results[i].status) ==>
              && M.Map(events[i].projection, digest).Some?
              && Vouched(s.db, results[i], M.Map(events[i].projection, digest).value, digest)
  {
    hide M.Map, Inv, Ended, Vouched;
    forall i | 0 <= i < |results| && Successful(results[i].status)
      ensures M.Map(events[i].projection, digest).Some? && Vouched(s.db, results[i], M.Map(events[i].projection, digest).value, digest)
    {
      EndedIsVouched(s, events[i], results[i], digest);
    }
  }

  /** While one event of a batch is processed the others, before and after it, stand as they stood. */
  lemma OthersStand(s: Sys, u: Sys, events: seq<ClaimedEvent>, results: seq<ProcessingResult>, mine: set<Token>, digest: Digest)
    requires |results| < |events| && mine == TokensOf(events)
    requires forall i, j :: 0 <= i < j < |events| ==> events[i].token != events[j].token
    requires forall i :: 0 <= i < |results| ==> Ended(s, events[i], results[i], digest)
    requires forall i :: |results| <= i < |events| ==> Claimed(s, events[i], digest)
    requires Spares(s, u, mine - {events[|results|].token})
    ensures forall i :: 0 <= i < |results| ==> Ended(u, events[i], results[i], digest)
    ensures forall i :: |results| < i < |events| ==> Claimed(u, events[i], digest)
  {
    hide M.Map, Grows, ResultNames;
    var k := |results|;
    forall i | 0 <= i < |events| && i != k ensures events[i].token in mine - {events[k].token} {
      assert events[i] in events;
      assert if i < k then events[i].token != events[k].token else events[k].token != events[i].token;
    }
  }

  lemma RunBetween(start: Sys, s: Sys, digest: Digest) returns (run: seq<Act>)
    requires Reaches(start, s, digest)
    ensures Legal(start, run, digest) && After(start, run, digest) == s
  {
    hide Legal, After;
    run :| Legal(start, run, digest) && After(start, run, digest) == s;
  }

  lemma AllSettled(start: Sys, run: seq<Act>, events: seq<ClaimedEvent>, results: seq<ProcessingResult>, digest: Digest)
    requires Inv(start, digest) && Legal(start, run, digest) && |results| <= |events|
    requires forall i :: 0 <= i < |events| ==> events[i].token !in start.tasks
    requires forall i :: 0 <= i < |results| ==> Ended(After(start, run, digest), events[i], results[i], digest)
    ensures forall i :: 0 <= i < |results| ==> SettledAs(start, run, events[i].token, results[i].status, digest)
  {
    hide Inv, Legal, After, SettledAs, M.Map;
    forall i | 0 <= i < |results| ensures SettledAs(start, run, events[i].token, results[i].status, digest) {
      StatusTellsTheSettlement(start, run, events[i].token, results[i].status, digest);
    }
  }

  lemma CountersAreSettled(start: Sys, run: seq<Act>, events: seq<ClaimedEvent>, results: seq<ProcessingResult>, digest: Digest)
    requires Inv(start, digest) && Legal(start, run, digest) && |results| == |events|
    requires forall i :: 0 <= i < |events| ==> events[i].token !in start.tasks && Ended(After(start, run, digest), events[i], results[i], digest)
    ensures CountWhere(results, Successful) == |SettledAmong(start, run, events, SUCCESSES, digest)|
    ensures CountWhere(results, Retried) == |SettledAmong(start, run, events, RETRIES, digest)|
    ensures CountWhere(results, Unsuccessful) == |SettledAmong(start, run, events, FAILURES, digest)|
    ensures CountWhere(results, Successful) + CountWhere(results, Retried) + CountWhere(results, Unsuccessful) == |results|
  {
    hide Inv, Legal, After, Ended, SettledAmong;
    CountsPartition(results);
    CountIsSettled(start, run, events, results, SUCCESSES, Successful, digest);
    CountIsSettled(start, run, events, results, RETRIES, Retried, digest);
    CountIsSettled(start, run, events, results, FAILURES, Unsuccessful, digest);
  }

  lemma TaskNamesEvent(s: Sys, t: Token, digest: Digest)
    requires Inv(s, digest) && t in s.tasks && s.tasks[t].mapped.Some?
    ensures s.tasks[t].mapped.value.facts.entryId == s.tasks[t].event
  {
    assert TaskOk(s, t, digest);
  }

  /** A worker about to complete a duplicate has seen the ledger row read back as its entry. */
  lemma DuplicateIsBacked(s: Sys, t: Token, u: Sys, digest: Digest)
    requires Inv(s, digest) && AtPc(s, t, AtComplete(true)) && Grows(s, u)
    ensures s.tasks[t].mapped.Some? && Backed(u.db.ledger, s.tasks[t].mapped.value, true, digest)
  {
    hide Backed;
    assert TaskOk(s, t, digest);
    BackedGrows(s.db.ledger, u.db.ledger, s.tasks[t].mapped.value, true, digest);
  }

  class DecisionTraceOutboxProcessor {
    const backend: Backend
    const maxAttempts: int
    const backoffSeconds: int

    constructor (backend: Backend, maxAttempts: int, backoffSeconds: int)
      ensures this.backend == backend && this.maxAttempts == maxAttempts && this.backoffSeconds == backoffSeconds
    {
      this.backend := backend;
      this.maxAttempts := maxAttempts;
      this.backoffSeconds := backoffSeconds;
    }

    /** `process_event`: whatever everybody else does meanwhile and whichever messages are lost, this
        is a run of the protocol in which the claim goes from start to finish, and the result names
        the mapped entry exactly when the worker got as far as completing with it. No result, but an
        exception, comes of it only when the completion of a verified duplicate raised one. */
    method ProcessEvent(event: ClaimedEvent, mine: set<Token>, ghost start: Sys) returns (result: Option<ProcessingResult>)
      requires backend.Valid() && Reaches(start, backend.Abstract(), backend.digest)
      requires event.token in mine && Claimed(backend.Abstract(), event, backend.digest)
      modifies backend`db, backend`tasks
      ensures backend.Valid() && Reaches(start, backend.Abstract(), backend.digest)
      ensures Spares(old(backend.Abstract()), backend.Abstract(), mine - {event.token})
      ensures result.Some? ==> Ended(backend.Abstract(), event, result.value, backend.digest)
      ensures Reaches(old(backend.Abstract()), backend.Abstract(), backend.digest)
      ensures result.Some? ==>
                EndsAs(old(backend.Abstract()), backend.Abstract(), event.token, result.value.status, backoffSeconds, maxAttempts, backend.digest)
      ensures result.None? ==> Escapes(old(backend.Abstract()), backend.Abstract(), event, backend.digest)
    {
      hide Inv, Reaches, Grows, HexDigest, M.Map, SameEntry, Load, Backed, EndsAs;
      ghost var s0, rest := backend.Abstract(), mine - {event.token};
      ReachesItself(s0, backend.digest);
      var t := event.token;
      var mapped := M.Map(event.projection, backend.digest);
      if mapped.None? {
        var integrity: bool := *;
        var rejection := if integrity then SourceIntegrityFailure else ContractFailure;
        backend.Resume(t, AtFail(rejection), MapStep(t, rejection), s0, mine, s0);
        ghost var s1 := backend.Abstract();
        result := Settle(event, mapped, mine, s0);
        SparesTransitive(s0, s1, backend.Abstract(), rest);
        ReachesTransitive(start, s0, backend.Abstract(), backend.digest);
        return;
      }
      var entry := mapped.value;
      backend.Resume(t, AtAppend, MapStep(t, ContractFailure), s0, mine, s0);
      ghost var s1 := backend.Abstract();
      var reply := backend.Append(t, entry, mine, s0);
      // The check that the appended identity is the event's never fires.
      assert reply.Appended? ==> reply.id == event.eventId by { TaskNamesEvent(backend.Abstract(), t, backend.digest); }
      ghost var s2 := backend.Abstract();
      SparesTransitive(s0, s1, s2, rest);
      if reply == Conflict {
        ghost var answered;
        var existing;
        existing, answered := backend.LoadStudentEntry(t, entry, mine, s0);
        ghost var s3 := backend.Abstract();
        SparesTransitive(s0, s2, s3, rest);
        var verified := existing.Some? && SameEntry(existing.value, entry);
        backend.Resume(t, if verified then AtComplete(true) else AtFail(DuplicateMismatch), LoadStep(t, answered), s3, mine, s0);
        SparesTransitive(s0, s3, backend.Abstract(), rest);
      }
      ghost var s4 := backend.Abstract();
      result := Settle(event, mapped, mine, s0);
      SparesTransitive(s0, s4, backend.Abstract(), rest);
      ReachesTransitive(start, s0, backend.Abstract(), backend.digest);
    }

    /** The last call about an event, and the result it leads to. */
    method Settle(event: ClaimedEvent, mapped: Option<Entry>, mine: set<Token>, ghost start: Sys)
      returns (result: Option<ProcessingResult>)
      requires backend.Valid() && Reaches(start, backend.Abstract(), backend.digest)
      requires mapped == M.Map(event.projection, backend.digest)
      requires event.token in mine && event.token in backend.tasks
      requires backend.tasks[event.token].event == event.eventId && backend.tasks[event.token].mapped == mapped
      requires Settling(backend.tasks[event.token].pc) && (backend.tasks[event.token].pc.AtComplete? ==> mapped.Some?)
      modifies backend`db, backend`tasks
      ensures backend.Valid() && Reaches(start, backend.Abstract(), backend.digest)
      ensures Spares(old(backend.Abstract()), backend.Abstract(), mine - {event.token})
      ensures result.Some? ==> Ended(backend.Abstract(), event, result.value, backend.digest)
      ensures result.Some? ==>
                EndsAs(start, backend.Abstract(), event.token, result.value.status, backoffSeconds, maxAttempts, backend.digest)
      ensures result.None? ==> Escapes(start, backend.Abstract(), event, backend.digest)
    {
      hide Inv, Reaches, Grows, HexDigest, Backed, M.Map, Enabled, Effect, Reports;
      ghost var before := backend.Abstract();
      var pc := backend.tasks[event.token].pc;
      ReachesItself(before, backend.digest);
      ghost var m, call;
      var reply;
      reply, m, call := backend.SettleEvent(event.token, backoffSeconds, maxAttempts, mine, before);
      ReachesTransitive(start, before, backend.Abstract(), backend.digest);
      if ResumeSettle(pc, reply) == Crashed {
        DuplicateIsBacked(before, event.token, backend.Abstract(), backend.digest);
        return None;
      }
      var status := StatusOf(pc, reply);
      SettleReports(m, call, event.token, status, backend.digest);
      ReachesTransitive(start, before, m, backend.digest);
      ReachesItself(backend.Abstract(), backend.digest);
      assert SettledBy(start, m, call, backend.Abstract(), event.token, status, backend.digest);
      result := Some(if pc.AtComplete? then ProcessingResult(event.eventId, status, Some(event.eventId), Some(mapped.value.integrityHash))
                     else ProcessingResult(event.eventId, status, None, None));
    }

    /** `process_batch`: the events granted to it, one after the other. Every claim gets exactly one
        result, the three counters partition the results, and when the batch is over every event
        reported as completed is completed, with the hash of the entry it maps to, and that entry is in
        the ledger. An exception that escapes ends the batch: what was `done` stands, the claim at hand
        crashed, and the claims after it are as they were. So they all are when the claim call is not
        answered. */
    method ProcessBatch(batchSize: int, leaseSeconds: int)
      returns (summary: Option<BatchSummary>, ghost events: seq<ClaimedEvent>, ghost done: seq<ProcessingResult>, ghost run: seq<Act>)
      requires backend.Valid()
      modifies backend
      ensures backend.Valid()
      ensures Legal(old(backend.Abstract()), run, backend.digest) && After(old(backend.Abstract()), run, backend.digest) == backend.Abstract()
      ensures !(1 <= batchSize <= 100 && 10 <= leaseSeconds <= 600) ==>
                summary == None && events == [] && backend.Abstract() == old(backend.Abstract())
      ensures backend.grants.events == old(backend.grants.events) + events
      ensures |done| <= |events| <= if batchSize > 0 then batchSize else 0
      ensures forall i :: 0 <= i < |done| ==> Ended(backend.Abstract(), events[i], done[i], backend.digest)
      ensures forall i :: 0 <= i < |done| && Successful(done[i].status) ==>
                && M.Map(events[i].projection, backend.digest).Some?
                && Vouched(backend.db, done[i], M.Map(events[i].projection, backend.digest).value, backend.digest)
      ensures forall i :: |done| < i < |events| ==> Claimed(backend.Abstract(), events[i], backend.digest)
      ensures !backend.grants.answered ==>
                summary.None? && done == [] && forall i :: 0 <= i < |events| ==> Claimed(backend.Abstract(), events[i], backend.digest)
      ensures backend.grants.answered && summary.None? ==>
                |done| < |events| && Escapes(old(backend.Abstract()), backend.Abstract(), events[|done|], backend.digest)
      ensures forall i :: 0 <= i < |done| ==> SettledAs(old(backend.Abstract()), run, events[i].token, done[i].status, backend.digest)
      ensures forall i :: 0 <= i < |done| ==>
                EndsAs(old(backend.Abstract()), backend.Abstract(), events[i].token, done[i].status, backoffSeconds, maxAttempts, backend.digest)
      ensures summary.Some? ==>
                && summary.value.results == done && summary.value.claimed == |done| == |events|
                && summary.value.completed == |SettledAmong(old(backend.Abstract()), run, events, SUCCESSES, backend.digest)|
                && summary.value.retried == |SettledAmong(old(backend.Abstract()), run, events, RETRIES, backend.digest)|
                && summary.value.failed == |SettledAmong(old(backend.Abstract()), run, events, FAILURES, backend.digest)|
                && summary.value.completed + summary.value.retried + summary.value.failed == summary.value.claimed
    {
      hide Inv, Reaches, Grows, HexDigest, M.Map, Ended, Claimed, Escapes, Vouched, Legal, After, SettledAs, EndsAs;
      ghost var start, before := backend.Abstract(), backend.grants.events;
      ReachesItself(start, backend.digest);
      var claimed := backend.ClaimEvents(batchSize, leaseSeconds, start);
      events, done := backend.grants.events[|before|..], [];
      assert backend.grants.events == before + events;
      summary := None;
      if claimed.Some? { summary, done := ProcessAll(claimed.value, start); }
      run := RunBetween(start, backend.Abstract(), backend.digest);
      AllSettled(start, run, events, done, backend.digest);
      if summary.Some? { CountersAreSettled(start, run, events, done, backend.digest); }
    }

    /** The loop over the claimed events. */
    method ProcessAll(batch: seq<ClaimedEvent>, ghost start: Sys) returns (summary: Option<BatchSummary>, ghost done: seq<ProcessingResult>)
      requires backend.Valid() && Reaches(start, backend.Abstract(), backend.digest) && BatchClaimed(backend.Abstract(), batch, backend.digest)
      modifies backend`db, backend`tasks
      ensures backend.Valid() && Reaches(start, backend.Abstract(), backend.digest) && |done| <= |batch|
      ensures forall i :: 0 <= i < |done| ==> Ended(backend.Abstract(), batch[i], done[i], backend.digest)
      ensures forall i :: 0 <= i < |done| && Successful(done[i].status) ==>
                && M.Map(batch[i].projection, backend.digest).Some?
                && Vouched(backend.db, done[i], M.Map(batch[i].projection, backend.digest).value, backend.digest)
      ensures forall i :: |done| < i < |batch| ==> Claimed(backend.Abstract(), batch[i], backend.digest)
      ensures AllEnd(start, backend.Abstract(), batch, done, backoffSeconds, maxAttempts, backend.digest)
      ensures summary.None? ==> |done| < |batch| && Escapes(start, backend.Abstract(), batch[|done|], backend.digest)
      ensures summary.Some? ==>
                && summary.value.results == done && summary.value.claimed == |done| == |batch|
                && summary.value.completed == CountWhere(done, Successful)
                && summary.value.retried == CountWhere(done, Retried)
                && summary.value.failed == CountWhere(done, Unsuccessful)
    {
      hide Inv, Reaches, Grows, HexDigest, M.Map, Ended, Claimed, Escapes, Vouched, Spares, EndsAs, AllEnd;
      NoneEnd(start, backend.Abstract(), batch, backoffSeconds, maxAttempts, backend.digest);
      var mine := TokensOf(batch);
      var results, completed, retried, failed := [], 0, 0, 0;
      done := [];
      while |results| < |batch|
        invariant backend.Valid() && Reaches(start, backend.Abstract(), backend.digest)
        invariant |results| <= |batch| && done == results
        invariant completed == CountWhere(results, Successful) && retried == CountWhere(results, Retried)
        invariant failed == CountWhere(results, Unsuccessful)
        invariant forall i :: 0 <= i < |results| ==> Ended(backend.Abstract(), batch[i], results[i], backend.digest)
        invariant AllEnd(start, backend.Abstract(), batch, results, backoffSeconds, maxAttempts, backend.digest)
        invariant forall i :: |results| <= i < |batch| ==> Claimed(backend.Abstract(), batch[i], backend.digest)
      {
        var event := batch[|results|];
        ghost var before := backend.Abstract();
        var result := ProcessEvent(event, mine, start);
        OthersStand(before, backend.Abstract(), batch, results, mine, backend.digest);
        EndingsStand(start, before, backend.Abstract(), batch, results, backoffSeconds, maxAttempts, backend.digest);
        if result.None? {
          EscapesFrom(start, before, backend.Abstract(), event, backend.digest);
          AllVouched(backend.Abstract(), batch, results, backend.digest);
          return None, results;
        }
        OneMoreEnds(start, before, backend.Abstract(), batch, results, result.value, backoffSeconds, maxAttempts, backend.digest);
        results := results + [result.value];
        done := results;
        assert results[..|results| - 1] + [result.value] == results;
        if Successful(result.value.status) { completed := completed + 1; }
        else if Retried(result.value.status) { retried := retried + 1; }
        else { failed := failed + 1; }
      }
      AllVouched(backend.Abstract(), batch, results, backend.digest);
      summary := Some(BatchSummary(|batch|, completed, retried, failed, results));
    }
  }
}
