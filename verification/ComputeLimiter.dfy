/** Admission of CPU-heavy calculations (apps/api/app/core/academic_compute.py).

    A call takes a permit, is counted, and hands its slot to a worker that runs on when the caller
    times out or is cancelled. Every lock-guarded section of `run`, of its `finally` clause and of
    the worker's done-callback is one step here; between any two of them every other call, worker
    and callback may take steps.
  */
module ComputeLimiter {

  datatype WorkerEnd = Result | Failure | BudgetExpired

  /** How the awaiting caller got out of `await asyncio.shield(worker)`. */
  datatype Exit = Delivered | TimedOut | Cancelled

  /** Where the coroutine of one call stands. `Refused` and `Refunding` are the `finally` clause
      of a call whose budget ran out before it had a worker. */
  datatype Caller = Rejected | Admitted | Counted | Refused | Refunding | Refunded | Awaiting | Left(exit: Exit)

  /** `Ended` waits for its done-callback, `Uncounted` is halfway through it. */
  datatype Worker = NoWorker | Running | Ended(end: WorkerEnd) | Uncounted(end: WorkerEnd) | Gone(end: WorkerEnd)

  datatype Call = Call(caller: Caller, worker: Worker, cutoff: real, cancelled: bool)

  type Id = nat

  datatype State = State(capacity: nat, now: real, permits: int, inUse: int, calls: map<Id, Call>)

  datatype Label =
    | Arrive(id: Id, cutoff: real)
    | CountIn(id: Id)
    | Start(id: Id)
    | RefundCount(id: Id)
    | RefundSlot(id: Id)
    | WorkerEnds(id: Id, end: WorkerEnd)
    | FinishCount(id: Id)
    | FinishSlot(id: Id)
    | Leave(id: Id, exit: Exit)
    | SetCancelEvent(id: Id)
    | Tick(elapsed: real)

  function Initial(capacity: nat, now: real): State {
    State(capacity, now, capacity, 0, map[])
  }

  /** `check_budget` raises. */
  predicate BudgetGone(s: State, c: Call) {
    c.cancelled || s.now >= c.cutoff
  }

  predicate Stopped(w: Worker) { w.Ended? || w.Uncounted? || w.Gone? }

  predicate Enabled(s: State, l: Label) {
    match l
    case Arrive(id, _) => id !in s.calls
    case CountIn(id) => id in s.calls && s.calls[id].caller == Admitted
    case Start(id) => id in s.calls && s.calls[id].caller == Counted
    case RefundCount(id) => id in s.calls && s.calls[id].caller == Refused
    case RefundSlot(id) => id in s.calls && s.calls[id].caller == Refunding
    case WorkerEnds(id, end) =>
      id in s.calls && s.calls[id].worker == Running && (end == BudgetExpired ==> BudgetGone(s, s.calls[id]))
    case FinishCount(id) => id in s.calls && s.calls[id].worker.Ended?
    case FinishSlot(id) => id in s.calls && s.calls[id].worker.Uncounted?
    case Leave(id, exit) =>
      && id in s.calls && s.calls[id].caller == Awaiting
      && (exit == Delivered ==> Stopped(s.calls[id].worker))
      && (exit == TimedOut ==> s.now >= s.calls[id].cutoff)
    case SetCancelEvent(id) => id in s.calls
    case Tick(elapsed) => elapsed >= 0.0
  }

  function With(s: State, id: Id, c: Call): State {
    s.(calls := s.calls[id := c])
  }

  function Effect(s: State, l: Label): State
    requires Enabled(s, l)
  {
    match l
    case Arrive(id, cutoff) =>
      if s.permits > 0
      then With(s, id, Call(Admitted, NoWorker, cutoff, false)).(permits := s.permits - 1)
      else With(s, id, Call(Rejected, NoWorker, cutoff, false))
    case CountIn(id) => With(s, id, s.calls[id].(caller := Counted)).(inUse := s.inUse + 1)
    case Start(id) =>
      if BudgetGone(s, s.calls[id]) then With(s, id, s.calls[id].(caller := Refused))
      else With(s, id, s.calls[id].(caller := Awaiting, worker := Running))
    case RefundCount(id) => With(s, id, s.calls[id].(caller := Refunding)).(inUse := s.inUse - 1)
    case RefundSlot(id) => With(s, id, s.calls[id].(caller := Refunded)).(permits := s.permits + 1)
    case WorkerEnds(id, end) => With(s, id, s.calls[id].(worker := Ended(end)))
    case FinishCount(id) => With(s, id, s.calls[id].(worker := Uncounted(s.calls[id].worker.end))).(inUse := s.inUse - 1)
    case FinishSlot(id) => With(s, id, s.calls[id].(worker := Gone(s.calls[id].worker.end))).(permits := s.permits + 1)
    case Leave(id, exit) =>
      With(s, id, s.calls[id].(caller := Left(exit), cancelled := s.calls[id].cancelled || exit != Delivered))
    case SetCancelEvent(id) => With(s, id, s.calls[id].(cancelled := true))
    case Tick(elapsed) => s.(now := s.now + elapsed)
  }

  // ---- What is held and what is counted -----------------------------------------------

  predicate Holds(c: Call) {
    || c.caller == Admitted || c.caller == Counted || c.caller == Refused || c.caller == Refunding
    || c.worker == Running || c.worker.Ended? || c.worker.Uncounted?
  }

  predicate Counts(c: Call) {
    c.caller == Counted || c.caller == Refused || c.worker == Running || c.worker.Ended?
  }

  function Held(s: State): set<Id> { set id | id in s.calls && Holds(s.calls[id]) }

  function CountedIn(s: State): set<Id> { set id | id in s.calls && Counts(s.calls[id]) }

  function Computing(s: State): set<Id> { set id | id in s.calls && s.calls[id].worker == Running }

  ghost predicate WellFormed(c: Call) {
    && (c.worker == NoWorker <==> !c.caller.Awaiting? && !c.caller.Left?)
    && (c.caller.Left? && c.caller.exit == Delivered ==> Stopped(c.worker))
    && (c.caller.Left? && c.caller.exit != Delivered ==> c.cancelled)
  }

  ghost predicate Inv(s: State) {
    && s.permits >= 0
    && s.permits + |Held(s)| == s.capacity
    && s.inUse == |CountedIn(s)|
    && forall id :: id in s.calls ==> WellFormed(s.calls[id])
  }

  /** Two sets that agree apart from `id` differ in size by what they say about `id`. */
  lemma SizeApartFrom(a: set<Id>, b: set<Id>, id: Id)
    requires a - {id} == b - {id}
    ensures |b| - |a| == (if id in b then 1 else 0) - (if id in a then 1 else 0)
  {
    assert a == (a - {id}) + (if id in a then {id} else {});
    assert b == (b - {id}) + (if id in b then {id} else {});
  }

  /** Changing one call moves at most that call in or out of the two sets. */
  lemma SetSizes(s: State, t: State, id: Id)
    requires id in t.calls && t.calls == s.calls[id := t.calls[id]]
    ensures |Held(t)| - |Held(s)| == (if id in Held(t) then 1 else 0) - (if id in Held(s) then 1 else 0)
    ensures |CountedIn(t)| - |CountedIn(s)| == (if id in CountedIn(t) then 1 else 0) - (if id in CountedIn(s) then 1 else 0)
  {
    hide Holds, Counts;
    SizeApartFrom(Held(s), Held(t), id);
    SizeApartFrom(CountedIn(s), CountedIn(t), id);
  }

  lemma InitialInv(capacity: nat, now: real)
    ensures Inv(Initial(capacity, now))
  {
    assert Held(Initial(capacity, now)) == {} && CountedIn(Initial(capacity, now)) == {};
  }

  /** Every step of every call, worker and callback keeps the books. */
  lemma StepKeepsInv(s: State, l: Label)
    requires Inv(s) && Enabled(s, l)
    ensures Inv(Effect(s, l)) && Effect(s, l).capacity == s.capacity
  {
    var t := Effect(s, l);
    if l.Tick? {
      assert Held(t) == Held(s) && CountedIn(t) == CountedIn(s);
    } else {
      BooksBalance(s, l);
      hide Enabled, Effect, Holds, Counts, WellFormed;
      SetSizes(s, t, l.id);
    }
  }

  /** The one call a step moves: what it releases or takes is what the counters record. */
  lemma BooksBalance(s: State, l: Label)
    requires Inv(s) && Enabled(s, l) && !l.Tick?
    ensures var t, was := Effect(s, l), l.id in s.calls && Holds(s.calls[l.id]);
            && t.permits - s.permits == (if was then 1 else 0) - (if Holds(t.calls[l.id]) then 1 else 0)
            && t.permits >= 0
    ensures var t, was := Effect(s, l), l.id in s.calls && Counts(s.calls[l.id]);
            t.inUse - s.inUse == (if Counts(t.calls[l.id]) then 1 else 0) - (if was then 1 else 0)
    ensures WellFormed(Effect(s, l).calls[l.id])
    ensures Effect(s, l).calls == s.calls[l.id := Effect(s, l).calls[l.id]] && Effect(s, l).capacity == s.capacity
  {
    if l.id in s.calls { assert WellFormed(s.calls[l.id]); }
  }

  // ---- Runs ---------------------------------------------------------------------------

  function After(s: State, trace: seq<Label>): State
    requires Legal(s, trace)
    decreases |trace|, 1
  {
    if trace == [] then s
    else Effect(After(s, trace[..|trace| - 1]), trace[|trace| - 1])
  }

  predicate Legal(s: State, trace: seq<Label>)
    decreases |trace|, 0
  {
    trace == [] ||
    (Legal(s, trace[..|trace| - 1]) && Enabled(After(s, trace[..|trace| - 1]), trace[|trace| - 1]))
  }

  lemma {:induction false} RunKeepsInv(s: State, trace: seq<Label>)
    requires Inv(s) && Legal(s, trace)
    ensures Inv(After(s, trace)) && After(s, trace).capacity == s.capacity
  {
    if trace != [] {
      RunKeepsInv(s, trace[..|trace| - 1]);
      StepKeepsInv(After(s, trace[..|trace| - 1]), trace[|trace| - 1]);
    }
  }

  /** Over every interleaving: permits and held slots add up to the capacity, nobody is counted
      who does not hold a slot, and no more workers compute than the capacity allows. */
  lemma CapacityNeverExceeded(capacity: nat, now: real, trace: seq<Label>)
    requires Legal(Initial(capacity, now), trace)
    ensures var s := After(Initial(capacity, now), trace);
            && s.permits + |Held(s)| == capacity
            && 0 <= s.inUse <= |Held(s)| <= capacity
            && |Computing(s)| <= s.inUse
  {
    InitialInv(capacity, now);
    RunKeepsInv(Initial(capacity, now), trace);
    var s := After(Initial(capacity, now), trace);
    SubsetSize(CountedIn(s), Held(s));
    SubsetSize(Computing(s), CountedIn(s));
  }

  lemma {:induction false} SubsetSize<T>(a: set<T>, b: set<T>)
    requires a <= b
    ensures |a| <= |b|
  {
    assert b == a + (b - a);
  }

  /** A call is turned away exactly when every slot is held, by callers or by workers their
      callers have left behind; and then nothing else changes. */
  lemma RejectedExactlyWhenFull(s: State, id: Id, cutoff: real)
    requires Inv(s) && id !in s.calls
    ensures Effect(s, Arrive(id, cutoff)).calls[id].caller == Rejected <==> |Held(s)| == s.capacity
    ensures Effect(s, Arrive(id, cutoff)).calls[id].caller == Rejected ==>
              Held(Effect(s, Arrive(id, cutoff))) == Held(s) && Effect(s, Arrive(id, cutoff)).permits == s.permits
  {
    var t := Effect(s, Arrive(id, cutoff));
    if t.calls[id].caller == Rejected { assert Held(t) == Held(s); }
  }

  function Releases(trace: seq<Label>, id: Id): nat {
    if trace == [] then 0
    else
      var l := trace[|trace| - 1];
      Releases(trace[..|trace| - 1], id) + (if l == RefundSlot(id) || l == FinishSlot(id) then 1 else 0)
  }

  function Acquisitions(capacity: nat, now: real, trace: seq<Label>, id: Id): nat
    requires Legal(Initial(capacity, now), trace)
  {
    if trace == [] then 0
    else
      var front, l := trace[..|trace| - 1], trace[|trace| - 1];
      Acquisitions(capacity, now, front, id)
      + (if l.Arrive? && l.id == id && After(Initial(capacity, now), front).permits > 0 then 1 else 0)
  }

  /** A slot is acquired at most once per call, released at most once, released only if acquired,
      and still unreleased exactly while the call holds it; so never before its worker has ended. */
  lemma {:induction false} SlotReleasedExactlyOnce(capacity: nat, now: real, trace: seq<Label>, id: Id)
    requires Legal(Initial(capacity, now), trace)
    ensures var s := After(Initial(capacity, now), trace);
            && Releases(trace, id) <= Acquisitions(capacity, now, trace, id) <= 1
            && Acquisitions(capacity, now, trace, id) - Releases(trace, id) == (if id in Held(s) then 1 else 0)
            && (Acquisitions(capacity, now, trace, id) == 1 <==> id in s.calls && s.calls[id].caller != Rejected)
            && (id in Computing(s) ==> Releases(trace, id) == 0)
  {
    if trace != [] {
      var front, l := trace[..|trace| - 1], trace[|trace| - 1];
      SlotReleasedExactlyOnce(capacity, now, front, id);
      InitialInv(capacity, now);
      RunKeepsInv(Initial(capacity, now), front);
      SlotStep(After(Initial(capacity, now), front), l, id);
    }
  }

  lemma SlotStep(s: State, l: Label, id: Id)
    requires Inv(s) && Enabled(s, l)
    ensures var t := Effect(s, l);
            var acquired := l.Arrive? && l.id == id && s.permits > 0;
            var released := l == RefundSlot(id) || l == FinishSlot(id);
            && (released ==> id in Held(s) && id !in Held(t))
            && (acquired ==> id !in s.calls && id in Held(t))
            && (!released && !acquired ==> (id in Held(s) <==> id in Held(t)))
            && (id in t.calls && t.calls[id].caller != Rejected <==>
                acquired || (id in s.calls && s.calls[id].caller != Rejected))
            && (id in Computing(t) ==> id in Held(t))
  {
    if id in s.calls { assert WellFormed(s.calls[id]); }
  }

  // ---- Abandoned workers --------------------------------------------------------------

  /** Once set, the cancellation event stays set; a departed caller stays departed. */
  lemma {:induction false} CancellationIsPermanent(s: State, trace: seq<Label>, id: Id)
    requires Legal(s, trace) && id in s.calls
    ensures var t := After(s, trace);
            && id in t.calls
            && (s.calls[id].cancelled ==> t.calls[id].cancelled)
            && (s.calls[id].caller.Left? ==> t.calls[id].caller == s.calls[id].caller)
            && t.calls[id].cutoff == s.calls[id].cutoff && t.now >= s.now
  {
    if trace != [] {
      CancellationIsPermanent(s, trace[..|trace| - 1], id);
    }
  }

  /** Whatever happens after a caller timed out or was cancelled, its worker keeps the slot for as
      long as it computes, and every budget check it makes raises. */
  lemma AbandonedWorker(capacity: nat, now: real, before: seq<Label>, after: seq<Label>, id: Id)
    requires Legal(Initial(capacity, now), before)
    requires var s := After(Initial(capacity, now), before);
             && id in s.calls && s.calls[id].caller.Left? && s.calls[id].caller.exit != Delivered
             && Legal(s, after)
    ensures var t := After(After(Initial(capacity, now), before), after);
            && id in t.calls && BudgetGone(t, t.calls[id])
            && (id in Computing(t) ==> id in Held(t) && Enabled(t, WorkerEnds(id, BudgetExpired)))
  {
    var s := After(Initial(capacity, now), before);
    InitialInv(capacity, now);
    RunKeepsInv(Initial(capacity, now), before);
    assert WellFormed(s.calls[id]);
    CancellationIsPermanent(s, after, id);
  }

  /** When a budget check raises and how an awaiting caller can leave: at once when cancelled, with the
      result once its worker has ended, and by a timeout from the cutoff on; leaving without the result
      sets the cancellation for the worker. */
  lemma BudgetDecides(s: State, id: Id, exit: Exit)
    requires id in s.calls
    ensures Enabled(s, WorkerEnds(id, BudgetExpired)) <==>
            s.calls[id].worker == Running && (s.calls[id].cancelled || s.now >= s.calls[id].cutoff)
    ensures Enabled(s, Leave(id, exit)) <==>
            && s.calls[id].caller == Awaiting
            && match exit
               case Delivered => s.calls[id].worker != NoWorker && s.calls[id].worker != Running
               case TimedOut => s.now >= s.calls[id].cutoff
               case Cancelled => true
    ensures Enabled(s, Leave(id, exit)) ==>
              var c := Effect(s, Leave(id, exit)).calls[id];
              && c.caller == Left(exit) && c.worker == s.calls[id].worker
              && (c.cancelled <==> s.calls[id].cancelled || exit == TimedOut || exit == Cancelled)
  {
  }

  // ---- Nothing leaks ------------------------------------------------------------------

  /** Steps a call still needs to give its slot back. */
  function Remaining(c: Call): nat {
    if c.caller == Admitted then 6
    else if c.caller == Counted then 5
    else if c.caller == Refused then 2
    else if c.caller == Refunding then 1
    else if c.worker == Running then 3
    else if c.worker.Ended? then 2
    else if c.worker.Uncounted? then 1
    else 0
  }

  function NextOwnStep(id: Id, c: Call): Label
    requires Holds(c)
  {
    if c.caller == Admitted then CountIn(id)
    else if c.caller == Counted then Start(id)
    else if c.caller == Refused then RefundCount(id)
    else if c.caller == Refunding then RefundSlot(id)
    else if c.worker == Running then WorkerEnds(id, Result)
    else if c.worker.Ended? then FinishCount(id)
    else FinishSlot(id)
  }

  lemma OwnStepProgresses(s: State, id: Id)
    requires Inv(s) && id in Held(s)
    ensures var l := NextOwnStep(id, s.calls[id]);
            && Enabled(s, l)
            && Remaining(Effect(s, l).calls[id]) < Remaining(s.calls[id])
            && Held(Effect(s, l)) - {id} == Held(s) - {id}
            && Effect(s, l).calls.Keys == s.calls.Keys
  {
    assert WellFormed(s.calls[id]);
  }

  lemma LegalCons(s: State, l: Label, rest: seq<Label>)
    requires Enabled(s, l) && Legal(Effect(s, l), rest)
    ensures Legal(s, [l] + rest) && After(s, [l] + rest) == After(Effect(s, l), rest)
  {
    if rest == [] {
      assert ([l] + rest)[..0] == [];
      assert Legal(s, []);
    } else {
      var front := rest[..|rest| - 1];
      LegalCons(s, l, front);
      assert ([l] + rest)[..|rest|] == [l] + front;
    }
  }

  lemma {:induction false} LegalAppend(s: State, a: seq<Label>, b: seq<Label>)
    requires Legal(s, a) && Legal(After(s, a), b)
    ensures Legal(s, a + b) && After(s, a + b) == After(After(s, a), b)
  {
    hide Enabled, Effect;
    if b == [] {
      assert a + b == a;
    } else {
      LegalAppend(s, a, b[..|b| - 1]);
      assert (a + b)[..|a + b| - 1] == a + b[..|b| - 1];
    }
  }

  /** A call that holds a slot can give it back by its own steps, at once. */
  lemma {:induction false} DriveOne(s: State, id: Id) returns (trace: seq<Label>)
    requires Inv(s) && id in Held(s)
    ensures Legal(s, trace) && Held(After(s, trace)) == Held(s) - {id}
    ensures After(s, trace).calls.Keys == s.calls.Keys
    decreases Remaining(s.calls[id])
  {
    hide Holds, Counts, Remaining, NextOwnStep, Effect, Enabled, Inv;
    var l := NextOwnStep(id, s.calls[id]);
    OwnStepProgresses(s, id);
    StepKeepsInv(s, l);
    var t := Effect(s, l);
    var rest := [];
    if id in Held(t) {
      rest := DriveOne(t, id);
    } else {
      assert Held(t) == Held(s) - {id};
    }
    LegalCons(s, l, rest);
    trace := [l] + rest;
  }

  /** From every reachable state the calls already in flight can bring every permit back: no
      interleaving of timeouts, cancellations and early failures leaks a slot. */
  lemma {:induction false} EverySlotComesBack(s: State) returns (trace: seq<Label>)
    requires Inv(s)
    ensures Legal(s, trace) && After(s, trace).calls.Keys == s.calls.Keys
    ensures After(s, trace).permits == s.capacity && After(s, trace).inUse == 0
    decreases |Held(s)|
  {
    hide Holds, Counts, Effect, Enabled;
    if Held(s) == {} {
      trace := [];
      assert CountedIn(s) == {} by { NobodyCounted(s); }
    } else {
      var id :| id in Held(s);
      var first := DriveOne(s, id);
      RunKeepsInv(s, first);
      var rest := EverySlotComesBack(After(s, first));
      LegalAppend(s, first, rest);
      trace := first + rest;
    }
  }

  lemma NobodyCounted(s: State)
    requires Held(s) == {}
    ensures CountedIn(s) == {}
  {
    forall id | id in s.calls ensures !Counts(s.calls[id]) { assert id !in Held(s); }
  }

  // ---- The limiter object -------------------------------------------------------------

  ghost predicate Reaches(s: State, t: State) {
    exists trace :: Legal(s, trace) && After(s, trace) == t
  }

  lemma ReachesByStep(s: State, m: State, l: Label)
    requires Reaches(s, m) && Enabled(m, l)
    ensures Reaches(s, Effect(m, l))
  {
    hide Enabled, Effect;
    var trace :| Legal(s, trace) && After(s, trace) == m;
    assert (trace + [l])[..|trace|] == trace;
    assert Legal(s, trace + [l]) && After(s, trace + [l]) == Effect(m, l);
  }

  /** Steps that only the coroutine of call `me` takes. */
  predicate CallerStep(l: Label, me: Id) {
    !l.Tick? && l.id == me && !l.WorkerEnds? && !l.FinishCount? && !l.FinishSlot? && !l.SetCancelEvent?
  }

  datatype Outcome = CapacityError | ComputationTimeout | CancelledError | Value | WorkerError | StillAwaiting

  /** The worker has ended that way, whatever its callback has got to since. */
  predicate WorkerDone(w: Worker, end: WorkerEnd) { (w.Ended? || w.Uncounted? || w.Gone?) && w.end == end }

  /** What `run` returns or raises, as the state of its call shows it. */
  function OutcomeOf(c: Call): Outcome {
    match c.caller
    case Rejected => CapacityError
    case Refunded => ComputationTimeout
    case Left(TimedOut) => ComputationTimeout
    case Left(Cancelled) => CancelledError
    case Left(Delivered) =>
      if c.worker.NoWorker? || c.worker.Running? then StillAwaiting
      else if c.worker.end == Result then Value
      else if c.worker.end == Failure then WorkerError
      else ComputationTimeout
    case _ => StillAwaiting
  }

  /** `calls` stands for the coroutines and workers in flight, `now` for the monotonic clock. */
  class AcademicComputeLimiter {
    const capacity: nat
    var permits: int
    var inUse: int
    var now: real
    var calls: map<Id, Call>

    ghost function Abstract(): State
      reads this
    {
      State(capacity, now, permits, inUse, calls)
    }

    ghost predicate Valid()
      reads this
    {
      Inv(Abstract())
    }

    constructor (capacity: nat, now: real)
      ensures Abstract() == Initial(capacity, now) && Valid()
    {
      this.capacity := capacity;
      this.now := now;
      permits := capacity;
      inUse := 0;
      calls := map[];
      new;
      InitialInv(capacity, now);
    }

    /** The constructor's ValueError. */
    static method Create(capacity: int, now: real) returns (limiter: AcademicComputeLimiter?)
      ensures limiter == null <==> capacity < 1
      ensures limiter != null ==> fresh(limiter) && limiter.Valid() && limiter.Abstract() == Initial(capacity, now)
    {
      if capacity < 1 { return null; }
      limiter := new AcademicComputeLimiter(capacity, now);
    }

    /** `acquire(blocking=False)`. */
    method Acquire(id: Id, cutoff: real) returns (acquired: bool)
      requires Valid() && id !in calls
      modifies this
      ensures Abstract() == Effect(old(Abstract()), Arrive(id, cutoff)) && Valid()
      ensures acquired <==> old(|Held(Abstract())|) < capacity
      ensures calls[id].caller == if acquired then Admitted else Rejected
    {
      StepKeepsInv(Abstract(), Arrive(id, cutoff));
      acquired := permits > 0;
      if acquired { permits := permits - 1; }
      calls := calls[id := Call(if acquired then Admitted else Rejected, NoWorker, cutoff, false)];
    }

    method CountIn(id: Id)
      requires Valid() && Enabled(Abstract(), Label.CountIn(id))
      modifies this
      ensures Abstract() == Effect(old(Abstract()), Label.CountIn(id)) && Valid()
    {
      StepKeepsInv(Abstract(), Label.CountIn(id));
      inUse := inUse + 1;
      calls := calls[id := calls[id].(caller := Counted)];
    }

    /** `check_budget`, then the worker with its callback. */
    method Start(id: Id) returns (launched: bool)
      requires Valid() && Enabled(Abstract(), Label.Start(id))
      modifies this
      ensures Abstract() == Effect(old(Abstract()), Label.Start(id)) && Valid()
      ensures launched <==> !old(calls[id].cancelled) && old(now) < old(calls[id].cutoff)
      ensures launched <==> calls[id].caller == Awaiting
    {
      StepKeepsInv(Abstract(), Label.Start(id));
      var c := calls[id];
      launched := !(c.cancelled || now >= c.cutoff);
      calls := calls[id := if launched then c.(caller := Awaiting, worker := Running) else c.(caller := Refused)];
    }

    /** The two halves of the `finally` clause of a call without a worker. */
    method RefundCount(id: Id)
      requires Valid() && Enabled(Abstract(), Label.RefundCount(id))
      modifies this
      ensures Abstract() == Effect(old(Abstract()), Label.RefundCount(id)) && Valid()
    {
      StepKeepsInv(Abstract(), Label.RefundCount(id));
      inUse := inUse - 1;
      calls := calls[id := calls[id].(caller := Refunding)];
    }

    method RefundSlot(id: Id)
      requires Valid() && Enabled(Abstract(), Label.RefundSlot(id))
      modifies this
      ensures Abstract() == Effect(old(Abstract()), Label.RefundSlot(id)) && Valid()
    {
      StepKeepsInv(Abstract(), Label.RefundSlot(id));
      permits := permits + 1;
      calls := calls[id := calls[id].(caller := Refunded)];
    }

    /** The two halves of the done-callback `finish`. */
    method FinishCount(id: Id)
      requires Valid() && Enabled(Abstract(), Label.FinishCount(id))
      modifies this
      ensures Abstract() == Effect(old(Abstract()), Label.FinishCount(id)) && Valid()
    {
      StepKeepsInv(Abstract(), Label.FinishCount(id));
      inUse := inUse - 1;
      calls := calls[id := calls[id].(worker := Uncounted(calls[id].worker.end))];
    }

    method FinishSlot(id: Id)
      requires Valid() && Enabled(Abstract(), Label.FinishSlot(id))
      modifies this
      ensures Abstract() == Effect(old(Abstract()), Label.FinishSlot(id)) && Valid()
    {
      StepKeepsInv(Abstract(), Label.FinishSlot(id));
      permits := permits + 1;
      calls := calls[id := calls[id].(worker := Gone(calls[id].worker.end))];
    }

    /** The steps that touch no counter: a worker ends, a caller leaves, time passes, an event is set. */
    method Move(l: Label)
      requires Valid() && Enabled(Abstract(), l)
      requires l.WorkerEnds? || l.Leave? || l.Tick? || l.SetCancelEvent?
      modifies this
      ensures Abstract() == Effect(old(Abstract()), l) && Valid()
    {
      StepKeepsInv(Abstract(), l);
      match l
      case WorkerEnds(id, end) => calls := calls[id := calls[id].(worker := Ended(end))];
      case Leave(id, exit) =>
        var cancelled := calls[id].cancelled || exit != Delivered;
        calls := calls[id := calls[id].(caller := Left(exit), cancelled := cancelled)];
      case SetCancelEvent(id) => calls := calls[id := calls[id].(cancelled := true)];
      case Tick(elapsed) => now := now + elapsed;
    }

    method Perform(l: Label)
      requires Valid() && Enabled(Abstract(), l)
      modifies this
      ensures Abstract() == Effect(old(Abstract()), l) && Valid()
    {
      match l
      case Arrive(id, cutoff) => var _ := Acquire(id, cutoff);
      case CountIn(id) => CountIn(id);
      case Start(id) => var _ := Start(id);
      case RefundCount(id) => RefundCount(id);
      case RefundSlot(id) => RefundSlot(id);
      case FinishCount(id) => FinishCount(id);
      case FinishSlot(id) => FinishSlot(id);
      case _ => Move(l);
    }

    /** Everything else that happens while the coroutine of `me` is not running: those entries of
        an arbitrary schedule that are possible when their turn comes. */
    method Others(me: Id, schedule: seq<Label>, ghost start: State)
      requires Valid() && me in calls && Reaches(start, Abstract())
      modifies this
      ensures Valid() && Reaches(start, Abstract())
      ensures me in calls && calls[me].caller == old(calls[me].caller) && calls[me].cutoff == old(calls[me].cutoff)
    {
      var i := 0;
      while i < |schedule|
        invariant Valid() && Reaches(start, Abstract())
        invariant me in calls && calls[me].caller == old(calls[me].caller) && calls[me].cutoff == old(calls[me].cutoff)
      {
        hide Inv, Reaches, Effect;
        var l := schedule[i];
        if !CallerStep(l, me) && Enabled(State(capacity, now, permits, inUse, calls), l) {
          StepSparesCaller(Abstract(), l, me);
          ReachesByStep(start, Abstract(), l);
          Perform(l);
        }
        i := i + 1;
      }
    }

    /** `run`, suspended for an arbitrary schedule between any two of its sections, and leaving its
        `await` by `wish` if the runtime can deliver that. It is turned away exactly when all slots
        were held. Otherwise it has been refunded, is still waiting, or has left as wished; it no
        longer holds a slot when it was turned away or refunded, and still does when its worker
        computes, however the caller left. */
    method Run(me: Id, cutoff: real, between: seq<seq<Label>>, wish: Exit) returns (outcome: Outcome)
      requires Valid() && me !in calls && |between| == 4
      modifies this
      ensures Valid() && Reaches(old(Abstract()), Abstract()) && me in calls
      ensures outcome == CapacityError <==> old(|Held(Abstract())|) == capacity
      ensures outcome == OutcomeOf(calls[me])
      ensures outcome == CapacityError <==> calls[me].caller == Rejected
      ensures outcome == CancelledError <==> calls[me].caller == Left(Cancelled)
      ensures outcome == Value <==> calls[me].caller == Left(Delivered) && WorkerDone(calls[me].worker, Result)
      ensures outcome == WorkerError <==> calls[me].caller == Left(Delivered) && WorkerDone(calls[me].worker, Failure)
      ensures outcome == ComputationTimeout <==>
              || calls[me].caller == Refunded || calls[me].caller == Left(TimedOut)
              || (calls[me].caller == Left(Delivered) && WorkerDone(calls[me].worker, BudgetExpired))
      ensures outcome == StillAwaiting <==> calls[me].caller == Awaiting
      ensures calls[me].caller in {Rejected, Refunded, Awaiting, Left(wish)} && calls[me].cutoff == cutoff
      ensures calls[me].caller == Rejected || calls[me].caller == Refunded ==> me !in Held(Abstract())
      ensures calls[me].worker == Running ==> me in Held(Abstract())
    {
      ghost var s0 := Abstract();
      assert Reaches(s0, s0) by { assert Legal(s0, []) && After(s0, []) == s0; }
      ReachesByStep(s0, s0, Arrive(me, cutoff));
      var acquired := Acquire(me, cutoff);
      if acquired { RunAdmitted(me, between, wish, s0); }
      assert WellFormed(calls[me]);
      outcome := OutcomeOf(calls[me]);
    }

    /** `run` from the moment the permit is taken. */
    method RunAdmitted(me: Id, between: seq<seq<Label>>, wish: Exit, ghost start: State)
      requires Valid() && Reaches(start, Abstract()) && |between| == 4
      requires me in calls && calls[me].caller == Admitted
      modifies this
      ensures Valid() && Reaches(start, Abstract())
      ensures me in calls && calls[me].caller in {Refunded, Awaiting, Left(wish)} && calls[me].cutoff == old(calls[me].cutoff)
    {
      hide Inv, Reaches;
      Others(me, between[0], start);
      ReachesByStep(start, Abstract(), Label.CountIn(me));
      CountIn(me);
      Others(me, between[1], start);
      ReachesByStep(start, Abstract(), Label.Start(me));
      var launched := Start(me);
      Others(me, between[2], start);
      if launched {
        if Enabled(State(capacity, now, permits, inUse, calls), Leave(me, wish)) {
          ReachesByStep(start, Abstract(), Leave(me, wish));
          Move(Leave(me, wish));
        }
      } else {
        ReachesByStep(start, Abstract(), Label.RefundCount(me));
        RefundCount(me);
        Others(me, between[3], start);
        ReachesByStep(start, Abstract(), Label.RefundSlot(me));
        RefundSlot(me);
      }
    }
  }

  lemma StepSparesCaller(s: State, l: Label, me: Id)
    requires Enabled(s, l) && me in s.calls && !CallerStep(l, me)
    ensures me in Effect(s, l).calls && Effect(s, l).calls[me].caller == s.calls[me].caller
    ensures Effect(s, l).calls[me].cutoff == s.calls[me].cutoff
  {
  }
}
