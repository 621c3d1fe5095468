/** Greedy term-by-term credit projection (apps/api/app/degree_path/credit_timeline.py).
    Decimal amounts are modelled as reals. */
module CreditTimeline {
  import opened Wrappers

  datatype AcademicTerm = FirstSemester | SecondSemester | Summer

  datatype CreditTerm = CreditTerm(year: int, term: AcademicTerm, planned: real, remainingAfter: real)

  datatype Assumptions = Assumptions(required: real, earned: real, regularLoad: real,
                                     summerEnabled: bool, summerLoad: real,
                                     startYear: int, startTerm: AcademicTerm)

  datatype Timeline = Timeline(plan: Assumptions, initialRemaining: real, terms: seq<CreditTerm>,
                               regularSemesters: nat, summers: nat,
                               completionYear: Option<int>, completionTerm: Option<AcademicTerm>)

  datatype Outcome = InvalidAssumption | HorizonExceeded | Projected(timeline: Timeline)

  const HORIZON := 200

  predicate Valid(p: Assumptions) {
    && p.required >= 0.0 && p.earned >= 0.0
    && 3.0 <= p.regularLoad <= 30.0
    && (if p.summerEnabled then 3.0 <= p.summerLoad <= 9.0 else p.summerLoad == 0.0)
    && 2000 <= p.startYear <= 2200
  }

  function InitialRemaining(p: Assumptions): (r: real)
    ensures r >= 0.0
  {
    if p.required - p.earned > 0.0 then p.required - p.earned else 0.0
  }

  // ---- The calendar -------------------------------------------------------------------

  function Next(term: AcademicTerm): AcademicTerm {
    match term
    case FirstSemester => SecondSemester
    case SecondSemester => Summer
    case Summer => FirstSemester
  }

  function YearAfter(year: int, term: AcademicTerm): int {
    if term == Summer then year + 1 else year
  }

  function TermIndex(term: AcademicTerm): int {
    match term
    case FirstSemester => 0
    case SecondSemester => 1
    case Summer => 2
  }

  // ---- One calendar slot --------------------------------------------------------------

  predicate Studies(p: Assumptions, term: AcademicTerm, remaining: real) {
    term != Summer || (p.summerEnabled && remaining >= 3.0)
  }

  function Cap(p: Assumptions, term: AcademicTerm): real {
    if term == Summer then p.summerLoad else p.regularLoad
  }

  function Take(p: Assumptions, term: AcademicTerm, remaining: real): real {
    if !Studies(p, term, remaining) then 0.0
    else if remaining <= Cap(p, term) then remaining
    else Cap(p, term)
  }

  /** A termination measure: whole credits still to plan, rounded up past zero. */
  function Units(remaining: real): nat
    requires remaining >= 0.0
  {
    if remaining == 0.0 then 0 else remaining.Floor + 1
  }

  lemma SlotMakesProgress(p: Assumptions, term: AcademicTerm, remaining: real)
    requires Valid(p) && remaining > 0.0
    ensures var after := remaining - Take(p, term, remaining);
            && after >= 0.0
            && (Studies(p, term, remaining) ==> Units(after) < Units(remaining))
            && (!Studies(p, term, remaining) ==> after == remaining && term == Summer)
  {
  }

  // ---- The unbounded greedy schedule --------------------------------------------------

  /** The entries the loop appends when nothing stops it. */
  function Schedule(p: Assumptions, term: AcademicTerm, year: int, remaining: real): seq<CreditTerm>
    requires Valid(p) && remaining >= 0.0
    decreases Units(remaining), TermIndex(term)
  {
    if remaining == 0.0 then []
    else
      SlotMakesProgress(p, term, remaining);
      var take := Take(p, term, remaining);
      (if Studies(p, term, remaining) then [CreditTerm(year, term, take, remaining - take)] else [])
      + Schedule(p, Next(term), YearAfter(year, term), remaining - take)
  }

  /** Calendar slots visited up to and including the one that finishes. */
  function SlotsUsed(p: Assumptions, term: AcademicTerm, remaining: real): nat
    requires Valid(p) && remaining >= 0.0
    decreases Units(remaining), TermIndex(term)
  {
    if remaining == 0.0 then 0
    else
      SlotMakesProgress(p, term, remaining);
      1 + SlotsUsed(p, Next(term), remaining - Take(p, term, remaining))
  }

  /** The term in which the projection finishes. */
  function FinalTerm(p: Assumptions, term: AcademicTerm, remaining: real): AcademicTerm
    requires Valid(p) && remaining > 0.0
    decreases Units(remaining), TermIndex(term)
  {
    SlotMakesProgress(p, term, remaining);
    var after := remaining - Take(p, term, remaining);
    if after == 0.0 then term else FinalTerm(p, Next(term), after)
  }

  function PlanSchedule(p: Assumptions): seq<CreditTerm>
    requires Valid(p)
  {
    Schedule(p, p.startTerm, p.startYear, InitialRemaining(p))
  }

  function PlanSlots(p: Assumptions): nat
    requires Valid(p)
  {
    SlotsUsed(p, p.startTerm, InitialRemaining(p))
  }

  function SummerCount(terms: seq<CreditTerm>): nat {
    if terms == [] then 0 else (if terms[0].term == Summer then 1 else 0) + SummerCount(terms[1..])
  }

  lemma {:induction false} SummerCountBound(terms: seq<CreditTerm>)
    ensures SummerCount(terms) <= |terms|
  {
    if terms != [] { SummerCountBound(terms[1..]); }
  }

  lemma {:induction false} SummerCountSnoc(terms: seq<CreditTerm>, e: CreditTerm)
    ensures SummerCount(terms + [e]) == SummerCount(terms) + (if e.term == Summer then 1 else 0)
  {
    if terms == [] {
      assert terms + [e] == [e];
    } else {
      assert (terms + [e])[1..] == terms[1..] + [e];
      SummerCountSnoc(terms[1..], e);
    }
  }

  function TimelineOf(p: Assumptions, terms: seq<CreditTerm>): Timeline {
    SummerCountBound(terms);
    Timeline(p, InitialRemaining(p), terms, |terms| - SummerCount(terms), SummerCount(terms),
             if terms == [] then None else Some(terms[|terms| - 1].year),
             if terms == [] then None else Some(terms[|terms| - 1].term))
  }

  /** What the simulation promises: the whole greedy schedule, or a refusal past the horizon. */
  function Simulate(p: Assumptions): Outcome {
    if !Valid(p) then InvalidAssumption
    else if |PlanSchedule(p)| > HORIZON then HorizonExceeded
    else Projected(TimelineOf(p, PlanSchedule(p)))
  }

  /** What the loop appends in one slot, moved from the front of the rest of the schedule. */
  lemma SlotMoves(p: Assumptions, term: AcademicTerm, year: int, remaining: real, entries: seq<CreditTerm>)
    requires Valid(p) && remaining > 0.0
    ensures var take := Take(p, term, remaining);
            && take <= remaining
            && entries + Schedule(p, term, year, remaining)
               == (if Studies(p, term, remaining) then entries + [CreditTerm(year, term, take, remaining - take)] else entries)
                  + Schedule(p, Next(term), YearAfter(year, term), remaining - take)
  {
    SlotMakesProgress(p, term, remaining);
  }

  lemma NoSummersYet()
    ensures SummerCount([]) == 0
  {
  }

  /** The two ways through the loop body, in the loop's own terms. */
  lemma StudySlot(p: Assumptions, term: AcademicTerm, year: int, remaining: real, entries: seq<CreditTerm>)
    requires Valid(p) && remaining > 0.0 && (term != Summer || (p.summerEnabled && remaining >= 3.0))
    ensures var cap := if term == Summer then p.summerLoad else p.regularLoad;
            var take := if remaining <= cap then remaining else cap;
            && take <= remaining && Units(remaining - take) < Units(remaining)
            && (entries + [CreditTerm(year, term, take, remaining - take)])
               + Schedule(p, Next(term), YearAfter(year, term), remaining - take)
               == entries + Schedule(p, term, year, remaining)
  {
    hide Schedule;
    SlotMakesProgress(p, term, remaining);
    SlotMoves(p, term, year, remaining, entries);
  }

  lemma SkipSlot(p: Assumptions, term: AcademicTerm, year: int, remaining: real, entries: seq<CreditTerm>)
    requires Valid(p) && remaining > 0.0 && !(term != Summer || (p.summerEnabled && remaining >= 3.0))
    ensures TermIndex(Next(term)) < TermIndex(term)
    ensures entries + Schedule(p, Next(term), YearAfter(year, term), remaining) == entries + Schedule(p, term, year, remaining)
  {
    hide Schedule;
    SlotMakesProgress(p, term, remaining);
    SlotMoves(p, term, year, remaining, entries);
  }

  lemma ScheduleDone(p: Assumptions, term: AcademicTerm, year: int)
    requires Valid(p)
    ensures Schedule(p, term, year, 0.0) == []
  {
  }

  /** The places of the summer entries, or of the others. */
  ghost function Places(terms: seq<CreditTerm>, summer: bool): set<int> {
    set i | 0 <= i < |terms| && (terms[i].term == Summer) == summer
  }

  lemma PlacesSnoc(front: seq<CreditTerm>, e: CreditTerm, summer: bool)
    ensures |Places(front + [e], summer)| == |Places(front, summer)| + (if (e.term == Summer) == summer then 1 else 0)
  {
    var terms := front + [e];
    assert forall i :: 0 <= i < |front| ==> terms[i] == front[i];
    assert Places(terms, summer) == Places(front, summer) + (if (e.term == Summer) == summer then {|front|} else {});
    assert |front| !in Places(front, summer);
  }

  lemma {:induction false} CountsAreSizes(terms: seq<CreditTerm>)
    ensures SummerCount(terms) == |Places(terms, true)| && |terms| - SummerCount(terms) == |Places(terms, false)|
  {
    if terms == [] {
      assert Places(terms, true) == {} && Places(terms, false) == {};
    } else {
      var front, last := terms[..|terms| - 1], terms[|terms| - 1];
      CountsAreSizes(front);
      assert terms == front + [last];
      hide Places, SummerCount;
      SummerCountSnoc(front, last);
      PlacesSnoc(front, last, true);
      PlacesSnoc(front, last, false);
    }
  }

  /** What a timeline says of its entries: how many of each kind, and where the last one lies. */
  ghost predicate Summarises(t: Timeline) {
    && t.summers == |Places(t.terms, true)| && t.regularSemesters == |Places(t.terms, false)|
    && (t.terms == [] <==> t.completionYear == None) && (t.terms == [] <==> t.completionTerm == None)
    && (t.terms != [] ==> var last := t.terms[|t.terms| - 1]; t.completionYear == Some(last.year) && t.completionTerm == Some(last.term))
  }

  lemma TimelineSummarises(p: Assumptions, terms: seq<CreditTerm>)
    ensures Summarises(TimelineOf(p, terms))
  {
    CountsAreSizes(terms);
  }

  /** The loop itself. It returns exactly when the greedy schedule fits the horizon, with the number of
      entries of each kind and the place of the last one. */
  method SimulateCreditTimeline(p: Assumptions) returns (outcome: Outcome)
    ensures outcome == Simulate(p)
    ensures outcome == InvalidAssumption <==>
            || p.required < 0.0 || p.earned < 0.0 || p.regularLoad < 3.0 || p.regularLoad > 30.0
            || (p.summerEnabled && (p.summerLoad < 3.0 || p.summerLoad > 9.0)) || (!p.summerEnabled && p.summerLoad != 0.0)
            || p.startYear < 2000 || p.startYear > 2200
    ensures outcome == HorizonExceeded <==> outcome != InvalidAssumption && |PlanSchedule(p)| > 200
    ensures outcome.Projected? ==> Summarises(outcome.timeline)
    ensures outcome.Projected? ==> outcome.timeline.plan == p && outcome.timeline.initialRemaining == (if p.earned < p.required then p.required - p.earned else 0.0)
  {
    hide Schedule, Units, SummerCount, Summarises, Places;
    if !Valid(p) { return InvalidAssumption; }
    var remaining := InitialRemaining(p);
    var initial := remaining;
    var year, term := p.startYear, p.startTerm;
    var entries: seq<CreditTerm> := [];
    var summers, regulars := 0, 0;
    NoSummersYet();
    while remaining != 0.0
      invariant remaining >= 0.0
      invariant entries + Schedule(p, term, year, remaining) == PlanSchedule(p)
      invariant |entries| <= HORIZON
      invariant summers == SummerCount(entries) && regulars == |entries| - summers
      decreases Units(remaining), TermIndex(term)
    {
      if term != Summer || (p.summerEnabled && remaining >= 3.0) {
        StudySlot(p, term, year, remaining, entries);
        var cap := if term == Summer then p.summerLoad else p.regularLoad;
        var take := if remaining <= cap then remaining else cap;
        remaining := remaining - take;
        SummerCountSnoc(entries, CreditTerm(year, term, take, remaining));
        if term == Summer { summers := summers + 1; } else { regulars := regulars + 1; }
        entries := entries + [CreditTerm(year, term, take, remaining)];
      } else {
        SkipSlot(p, term, year, remaining, entries);
      }
      term, year := Next(term), YearAfter(year, term);
      if |entries| > HORIZON {
        assert |PlanSchedule(p)| > HORIZON;
        return HorizonExceeded;
      }
    }
    ScheduleDone(p, term, year);
    assert entries == PlanSchedule(p);
    TimelineSummarises(p, entries);
    var last := |entries| - 1;
    outcome := Projected(Timeline(p, initial, entries, regulars, summers,
                                  if entries == [] then None else Some(entries[last].year),
                                  if entries == [] then None else Some(entries[last].term)));
  }

  // ---- What a schedule is worth -------------------------------------------------------

  function Total(terms: seq<CreditTerm>): real {
    if terms == [] then 0.0 else terms[0].planned + Total(terms[1..])
  }

  /** Slots counted from the start of the plan, by the closed form the comparison uses. */
  function SlotIndex(p: Assumptions, e: CreditTerm): int {
    (e.year - p.startYear) * 3 + TermIndex(e.term) - TermIndex(p.startTerm)
  }

  ghost predicate EntryLegal(p: Assumptions, e: CreditTerm) {
    && 0.0 < e.planned <= Cap(p, e.term)
    && (e.term == Summer ==> p.summerEnabled && e.planned >= 3.0)
  }

  /** Everything but the last entry is full, and the calendar only ever skips a summer. */
  ghost predicate WellPlanned(p: Assumptions, terms: seq<CreditTerm>) {
    && (forall i :: 0 <= i < |terms| ==> EntryLegal(p, terms[i]))
    && (forall i :: 0 <= i < |terms| - 1 ==> terms[i].planned == Cap(p, terms[i].term))
    && (forall i :: 0 <= i < |terms| - 1 ==>
          || SlotIndex(p, terms[i + 1]) == SlotIndex(p, terms[i]) + 1
          || (&& SlotIndex(p, terms[i + 1]) == SlotIndex(p, terms[i]) + 2
              && terms[i].term == SecondSemester && terms[i + 1].term == FirstSemester))
    && (forall i :: 0 <= i < |terms| ==> (terms[i].remainingAfter == 0.0 <==> i == |terms| - 1))
  }

  lemma ScheduleStart(p: Assumptions, term: AcademicTerm, year: int, remaining: real)
    requires Valid(p) && remaining > 0.0
    ensures var s := Schedule(p, term, year, remaining);
            && s != []
            && (if Studies(p, term, remaining) then s[0].term == term && s[0].year == year
                else s[0].term == FirstSemester && s[0].year == year + 1)
  {
  }

  /** Putting a full entry before a well planned rest keeps it well planned. */
  lemma WellPlannedCons(p: Assumptions, e: CreditTerm, rest: seq<CreditTerm>)
    requires WellPlanned(p, rest) && EntryLegal(p, e)
    requires e.remainingAfter == 0.0 <==> rest == []
    requires rest != [] ==>
               && e.planned == Cap(p, e.term)
               && (|| SlotIndex(p, rest[0]) == SlotIndex(p, e) + 1
                   || (SlotIndex(p, rest[0]) == SlotIndex(p, e) + 2
                       && e.term == SecondSemester && rest[0].term == FirstSemester))
    ensures WellPlanned(p, [e] + rest)
  {
    hide SlotIndex, EntryLegal, Cap;
    var s := [e] + rest;
    assert forall i :: 1 <= i < |s| ==> s[i] == rest[i - 1];
  }

  lemma {:induction false} ScheduleWellPlanned(p: Assumptions, term: AcademicTerm, year: int, remaining: real)
    requires Valid(p) && remaining >= 0.0
    ensures WellPlanned(p, Schedule(p, term, year, remaining))
    ensures Total(Schedule(p, term, year, remaining)) == remaining
    decreases Units(remaining), TermIndex(term)
  {
    hide WellPlanned;
    if remaining == 0.0 {
      EmptyWellPlanned(p);
    } else {
      SlotMakesProgress(p, term, remaining);
      var take := Take(p, term, remaining);
      var rest := Schedule(p, Next(term), YearAfter(year, term), remaining - take);
      ScheduleWellPlanned(p, Next(term), YearAfter(year, term), remaining - take);
      if Studies(p, term, remaining) {
        var e := CreditTerm(year, term, take, remaining - take);
        assert Schedule(p, term, year, remaining) == [e] + rest;
        assert ([e] + rest)[1..] == rest;
        if remaining > take { ScheduleStart(p, Next(term), YearAfter(year, term), remaining - take); }
        WellPlannedCons(p, e, rest);
      } else {
        assert Schedule(p, term, year, remaining) == rest;
      }
    }
  }

  lemma EmptyWellPlanned(p: Assumptions)
    ensures WellPlanned(p, [])
  {
  }

  /** The planned credits cover exactly what was missing, term by term as promised. */
  lemma PlanIsWellPlanned(p: Assumptions)
    requires Valid(p)
    ensures WellPlanned(p, PlanSchedule(p))
    ensures Total(PlanSchedule(p)) == InitialRemaining(p)
  {
    ScheduleWellPlanned(p, p.startTerm, p.startYear, InitialRemaining(p));
  }

  // ---- The closed form for calendar slots ---------------------------------------------

  /** `modeled_terms` in the comparison. */
  function ModeledTerms(t: Timeline): int {
    if t.terms == [] then 0 else SlotIndex(t.plan, t.terms[|t.terms| - 1]) + 1
  }

  lemma OneSlot(p: Assumptions, term: AcademicTerm, remaining: real)
    requires Valid(p) && remaining > 0.0
    ensures var after := remaining - Take(p, term, remaining);
            && after >= 0.0
            && SlotsUsed(p, term, remaining) == 1 + SlotsUsed(p, Next(term), after)
            && FinalTerm(p, term, remaining) == (if after == 0.0 then term else FinalTerm(p, Next(term), after))
  {
    SlotMakesProgress(p, term, remaining);
  }

  lemma NoSlots(p: Assumptions, term: AcademicTerm)
    requires Valid(p)
    ensures SlotsUsed(p, term, 0.0) == 0
  {
  }

  lemma {:induction false} LastSlot(p: Assumptions, term: AcademicTerm, year: int, remaining: real)
    requires Valid(p) && remaining > 0.0
    ensures var s := Schedule(p, term, year, remaining);
            && s != []
            && s[|s| - 1].term == FinalTerm(p, term, remaining)
            && s[|s| - 1].year * 3 + TermIndex(s[|s| - 1].term)
               == year * 3 + TermIndex(term) + SlotsUsed(p, term, remaining) - 1
    decreases Units(remaining), TermIndex(term)
  {
    hide Schedule, SlotsUsed, FinalTerm;
    SlotMakesProgress(p, term, remaining);
    OneSlot(p, term, remaining);
    SlotMoves(p, term, year, remaining, []);
    assert [] + Schedule(p, term, year, remaining) == Schedule(p, term, year, remaining);
    var after := remaining - Take(p, term, remaining);
    if after > 0.0 {
      LastSlot(p, Next(term), YearAfter(year, term), after);
    } else {
      NoSlots(p, Next(term));
      ScheduleDone(p, Next(term), YearAfter(year, term));
    }
  }

  /** The closed form counts exactly the calendar slots the loop went through. */
  lemma ModeledTermsCountsSlots(p: Assumptions)
    requires Simulate(p).Projected?
    ensures ModeledTerms(Simulate(p).timeline) == PlanSlots(p)
    ensures InitialRemaining(p) > 0.0 ==>
              Simulate(p).timeline.completionTerm == Some(FinalTerm(p, p.startTerm, InitialRemaining(p)))
  {
    if InitialRemaining(p) > 0.0 { LastSlot(p, p.startTerm, p.startYear, InitialRemaining(p)); }
  }

  // ---- The horizon --------------------------------------------------------------------

  function Times(n: nat, load: real): real {
    if n == 0 then 0.0 else load + Times(n - 1, load)
  }

  lemma {:induction false} TimesIsProduct(n: nat, load: real)
    ensures Times(n, load) == load * n as real
  {
    if n > 0 {
      TimesIsProduct(n - 1, load);
      var k := (n - 1) as real;
      assert load * (k + 1.0) == load * k + load;
    }
  }

  lemma {:induction false} TimesMonotone(m: nat, n: nat, load: real)
    requires m <= n && load >= 0.0
    ensures Times(m, load) <= Times(n, load)
  {
    if m < n { TimesMonotone(m, n - 1, load); }
  }

  /** Every entry but the last takes at least `floor`, so entries are few. */
  lemma {:induction false} EntriesTakeAtLeast(p: Assumptions, term: AcademicTerm, year: int, remaining: real, floor: real)
    requires Valid(p) && remaining > 0.0
    requires floor <= p.regularLoad && (p.summerEnabled ==> floor <= p.summerLoad)
    ensures Schedule(p, term, year, remaining) != []
    ensures Times(|Schedule(p, term, year, remaining)| - 1, floor) < remaining
    decreases Units(remaining), TermIndex(term)
  {
    SlotMakesProgress(p, term, remaining);
    SlotMoves(p, term, year, remaining, []);
    var after := remaining - Take(p, term, remaining);
    if after > 0.0 {
      EntriesTakeAtLeast(p, Next(term), YearAfter(year, term), after, floor);
      assert Studies(p, term, remaining) ==> Take(p, term, remaining) >= floor;
    }
  }

  lemma {:induction false} EntriesTakeAtMost(p: Assumptions, term: AcademicTerm, year: int, remaining: real)
    requires Valid(p) && !p.summerEnabled && remaining >= 0.0
    ensures remaining <= Times(|Schedule(p, term, year, remaining)|, p.regularLoad)
    decreases Units(remaining), TermIndex(term)
  {
    if remaining > 0.0 {
      SlotMakesProgress(p, term, remaining);
      SlotMoves(p, term, year, remaining, []);
      EntriesTakeAtMost(p, Next(term), YearAfter(year, term), remaining - Take(p, term, remaining));
    }
  }

  /** At least three credits go by per entry, so 600 credits always fit: the number of entries
      is below initial/3 + 1, that is, at most its ceiling. */
  lemma SmallPlansAlwaysReturn(p: Assumptions)
    requires Valid(p)
    ensures InitialRemaining(p) > 0.0 ==> 3.0 * (|PlanSchedule(p)| - 1) as real < InitialRemaining(p)
    ensures InitialRemaining(p) <= 600.0 ==> Simulate(p).Projected?
  {
    if InitialRemaining(p) > 0.0 {
      EntriesTakeAtLeast(p, p.startTerm, p.startYear, InitialRemaining(p), 3.0);
      TimesIsProduct(|PlanSchedule(p)| - 1, 3.0);
    }
  }

  lemma CountVersusHorizon(n: nat, load: real, amount: real)
    requires n > 0 && load > 0.0
    requires Times(n - 1, load) < amount <= Times(n, load)
    ensures n > HORIZON <==> amount > Times(HORIZON, load)
  {
    if n <= HORIZON { TimesMonotone(n, HORIZON, load); } else { TimesMonotone(HORIZON, n - 1, load); }
  }

  /** Without summers the number of entries is exactly ceil(initial / load), and the horizon
      is exceeded exactly when 200 full regular loads are not enough. */
  lemma RegularOnlyHorizon(p: Assumptions)
    requires Valid(p) && !p.summerEnabled
    ensures InitialRemaining(p) > 0.0 ==>
              && PlanSchedule(p) != []
              && Times(|PlanSchedule(p)| - 1, p.regularLoad) < InitialRemaining(p)
              && InitialRemaining(p) <= Times(|PlanSchedule(p)|, p.regularLoad)
    ensures Simulate(p).HorizonExceeded? <==> InitialRemaining(p) > Times(HORIZON, p.regularLoad)
  {
    var n := |PlanSchedule(p)|;
    EntriesTakeAtMost(p, p.startTerm, p.startYear, InitialRemaining(p));
    if InitialRemaining(p) > 0.0 {
      EntriesTakeAtLeast(p, p.startTerm, p.startYear, InitialRemaining(p), p.regularLoad);
      CountVersusHorizon(n, p.regularLoad, InitialRemaining(p));
    } else {
      TimesMonotone(0, HORIZON, p.regularLoad);
    }
  }

  // ---- Comparing two runs -------------------------------------------------------------

  function SummerLoad(p: Assumptions): real {
    if p.summerEnabled then p.summerLoad else 0.0
  }

  /** `fast` carries no smaller loads than `slow` from the same start. */
  predicate NoSmallerLoads(slow: Assumptions, fast: Assumptions) {
    && slow.startTerm == fast.startTerm
    && slow.regularLoad <= fast.regularLoad
    && SummerLoad(slow) <= SummerLoad(fast)
  }

  /** The heavier run is never behind, except for a leftover too small for a summer term, which
      the next first semester absorbs. */
  predicate NotBehind(term: AcademicTerm, remSlow: real, remFast: real) {
    remFast <= remSlow || (term == FirstSemester && remFast < 3.0)
  }

  lemma NotBehindKept(slow: Assumptions, fast: Assumptions, term: AcademicTerm, remSlow: real, remFast: real)
    requires Valid(slow) && Valid(fast) && NoSmallerLoads(slow, fast)
    requires remSlow > 0.0 && remFast >= 0.0 && NotBehind(term, remSlow, remFast)
    ensures NotBehind(Next(term), remSlow - Take(slow, term, remSlow), remFast - Take(fast, term, remFast))
  {
  }

  lemma {:induction false} TwoRuns(slow: Assumptions, fast: Assumptions, term: AcademicTerm, remSlow: real, remFast: real)
    requires Valid(slow) && Valid(fast) && NoSmallerLoads(slow, fast)
    requires remSlow > 0.0 && remFast >= 0.0 && NotBehind(term, remSlow, remFast)
    ensures SlotsUsed(fast, term, remFast) <= SlotsUsed(slow, term, remSlow) + 1
    ensures SlotsUsed(fast, term, remFast) == SlotsUsed(slow, term, remSlow) + 1
            ==> FinalTerm(slow, term, remSlow) == Summer
    decreases Units(remSlow), TermIndex(term)
  {
    hide SlotsUsed, FinalTerm;
    OneSlot(slow, term, remSlow);
    if remFast == 0.0 {
      NoSlots(fast, term);
    } else {
      OneSlot(fast, term, remFast);
      NotBehindKept(slow, fast, term, remSlow, remFast);
      SlotMakesProgress(slow, term, remSlow);
      var afterSlow := remSlow - Take(slow, term, remSlow);
      var afterFast := remFast - Take(fast, term, remFast);
      if afterSlow > 0.0 {
        TwoRuns(slow, fast, Next(term), afterSlow, afterFast);
      } else {
        NoSlots(slow, Next(term));
        if afterFast == 0.0 {
          NoSlots(fast, Next(term));
        } else {
          // Only a summer leaves less than three credits behind a finished plan.
          OneSlot(fast, Next(term), afterFast);
          NoSlots(fast, SecondSemester);
        }
      }
    }
  }

  /** Heavier loads cost at most one extra calendar slot, and only when the lighter plan
      finished in a summer that the heavier plan had to skip with fewer than three credits left. */
  lemma HeavierLoadsAtMostOneSlotLater(slow: Assumptions, fast: Assumptions)
    requires NoSmallerLoads(slow, fast) && InitialRemaining(fast) <= InitialRemaining(slow)
    requires Simulate(slow).Projected? && Simulate(fast).Projected?
    ensures var s, f := Simulate(slow).timeline, Simulate(fast).timeline;
            && ModeledTerms(f) <= ModeledTerms(s) + 1
            && (ModeledTerms(f) > ModeledTerms(s) ==> s.completionTerm == Some(Summer))
  {
    ModeledTermsCountsSlots(slow);
    ModeledTermsCountsSlots(fast);
    if InitialRemaining(slow) > 0.0 {
      TwoRuns(slow, fast, slow.startTerm, InitialRemaining(slow), InitialRemaining(fast));
    }
  }

  /** Credits left after `n` calendar slots. */
  function LeftAfter(p: Assumptions, term: AcademicTerm, remaining: real, n: nat): (r: real)
    requires Valid(p) && remaining >= 0.0
    ensures 0.0 <= r <= remaining
    decreases n
  {
    if n == 0 then remaining
    else LeftAfter(p, Next(term), remaining - Take(p, term, remaining), n - 1)
  }

  lemma {:induction false} TwoRunsExactly(slow: Assumptions, fast: Assumptions, term: AcademicTerm, remSlow: real, remFast: real)
    requires Valid(slow) && Valid(fast) && NoSmallerLoads(slow, fast)
    requires remSlow > 0.0 && remFast >= 0.0 && NotBehind(term, remSlow, remFast)
    ensures SlotsUsed(slow, term, remSlow) > 0
    ensures SlotsUsed(fast, term, remFast) > SlotsUsed(slow, term, remSlow) <==>
            FinalTerm(slow, term, remSlow) == Summer && 0.0 < LeftAfter(fast, term, remFast, SlotsUsed(slow, term, remSlow) - 1) < 3.0
    decreases Units(remSlow), TermIndex(term)
  {
    hide SlotsUsed, FinalTerm;
    OneSlot(slow, term, remSlow);
    NotBehindKept(slow, fast, term, remSlow, remFast);
    SlotMakesProgress(slow, term, remSlow);
    var afterSlow := remSlow - Take(slow, term, remSlow);
    var afterFast := remFast - Take(fast, term, remFast);
    if remFast == 0.0 { NoSlots(fast, term); NoSlots(fast, Next(term)); } else { OneSlot(fast, term, remFast); }
    if afterSlow > 0.0 {
      TwoRunsExactly(slow, fast, Next(term), afterSlow, afterFast);
    } else {
      NoSlots(slow, Next(term));
      if afterFast == 0.0 { NoSlots(fast, Next(term)); } else { OneSlot(fast, Next(term), afterFast); }
    }
  }

  /** Exactly when heavier loads end later: the lighter plan ends in a summer, and the heavier one
      comes into that summer with something left, but less than the three credits a summer takes. */
  lemma HeavierLoadsEndLaterExactly(slow: Assumptions, fast: Assumptions)
    requires NoSmallerLoads(slow, fast) && InitialRemaining(fast) <= InitialRemaining(slow)
    requires Simulate(slow).Projected? && Simulate(fast).Projected?
    ensures var s, f := Simulate(slow).timeline, Simulate(fast).timeline;
            ModeledTerms(f) > ModeledTerms(s) <==>
            && s.completionTerm == Some(Summer) && ModeledTerms(s) > 0
            && 0.0 < LeftAfter(fast, fast.startTerm, InitialRemaining(fast), ModeledTerms(s) - 1) < 3.0
  {
    hide Schedule, SlotsUsed, FinalTerm;
    ModeledTermsCountsSlots(slow);
    ModeledTermsCountsSlots(fast);
    if InitialRemaining(slow) > 0.0 {
      TwoRunsExactly(slow, fast, slow.startTerm, InitialRemaining(slow), InitialRemaining(fast));
    } else {
      NoSlots(slow, slow.startTerm);
      NoSlots(fast, fast.startTerm);
    }
  }

  /** The extra slot is real: with 32 credits left and nine-credit summers, twelve credits a
      semester finish in slot 3 while fifteen need slot 4. */
  lemma HeavierLoadCanFinishLater(year: int)
    requires 2000 <= year <= 2200
    ensures var light := Assumptions(32.0, 0.0, 12.0, true, 9.0, year, FirstSemester);
            var heavy := light.(regularLoad := 15.0);
            PlanSlots(light) == 3 && PlanSlots(heavy) == 4
  {
    var light := Assumptions(32.0, 0.0, 12.0, true, 9.0, year, FirstSemester);
    var heavy := light.(regularLoad := 15.0);
    assert SlotsUsed(light, Summer, 8.0) == 1;
    assert SlotsUsed(light, SecondSemester, 20.0) == 2;
    assert SlotsUsed(heavy, FirstSemester, 2.0) == 1;
    assert SlotsUsed(heavy, Summer, 2.0) == 2;
    assert SlotsUsed(heavy, SecondSemester, 17.0) == 3;
  }
}
