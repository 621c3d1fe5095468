/** Choosing among credit projections (`compare_credit_timelines`). */
module CreditComparison {
  import opened Wrappers
  import opened Ordering
  import opened CreditTimeline

  datatype Mode = Fastest | Balanced | LowerLoad

  datatype Request = Request(required: real, earned: real, startYear: int, startTerm: AcademicTerm,
                             regularLoad: Option<real>, summerLoad: Option<real>,
                             summerEnabled: Option<bool>, pace: Option<Mode>, risk: Option<int>)

  datatype Scenario = Scenario(mode: Mode, timeline: Timeline, preferenceMatch: bool,
                               scheduledTerms: nat, calendarSlots: int)

  datatype Comparison =
    | InvalidRequest
    | Refused(cause: Outcome)
    | Compared(fastest: Scenario, balanced: Scenario, lowerLoad: Scenario, evaluated: nat)

  predicate ValidRequest(q: Request) {
    && (q.regularLoad.Some? ==> 3.0 <= q.regularLoad.value <= 30.0)
    && (q.summerLoad.Some? ==> 3.0 <= q.summerLoad.value <= 9.0)
    && (q.risk.Some? ==> 0 <= q.risk.value <= 100)
  }

  // ---- Candidates ---------------------------------------------------------------------

  predicate RealLe(x: real, y: real) { x <= y }

  function WithPreference(presets: seq<real>, preferred: Option<real>): seq<real> {
    if preferred.Some? && preferred.value !in presets then Insert(RealLe, preferred.value, presets)
    else presets
  }

  function RegularLoads(q: Request): seq<real> { WithPreference([12.0, 15.0, 18.0], q.regularLoad) }

  function SummerLoads(q: Request): seq<real> { WithPreference([0.0, 3.0, 6.0, 9.0], q.summerLoad) }

  function PlanFor(q: Request, regular: real, summer: real): Assumptions {
    Assumptions(q.required, q.earned, regular, summer > 0.0, summer, q.startYear, q.startTerm)
  }

  function Row(q: Request, regular: real, summers: seq<real>): seq<Assumptions> {
    seq(|summers|, i requires 0 <= i < |summers| => PlanFor(q, regular, summers[i]))
  }

  function Grid(q: Request, regulars: seq<real>, summers: seq<real>): seq<Assumptions> {
    if regulars == [] then [] else Row(q, regulars[0], summers) + Grid(q, regulars[1..], summers)
  }

  function Plans(q: Request): seq<Assumptions> { Grid(q, RegularLoads(q), SummerLoads(q)) }

  lemma {:induction false} GridSize(q: Request, regulars: seq<real>, summers: seq<real>)
    ensures |Grid(q, regulars, summers)| == |regulars| * |summers|
  {
    if regulars != [] {
      GridSize(q, regulars[1..], summers);
      var n := |regulars| - 1;
      assert (n + 1) * |summers| == n * |summers| + |summers|;
    }
  }

  lemma RowMembers(q: Request, regular: real, summers: seq<real>, p: Assumptions)
    ensures p in Row(q, regular, summers) <==> exists s :: s in summers && p == PlanFor(q, regular, s)
  {
    var row := Row(q, regular, summers);
    forall s | s in summers && p == PlanFor(q, regular, s) ensures p in row {
      var i :| 0 <= i < |summers| && summers[i] == s;
      assert row[i] == p;
    }
  }

  lemma {:induction false} GridMembers(q: Request, regulars: seq<real>, summers: seq<real>, p: Assumptions)
    ensures p in Grid(q, regulars, summers) <==>
            exists r, s :: r in regulars && s in summers && p == PlanFor(q, r, s)
  {
    if regulars != [] {
      var first, rest := regulars[0], regulars[1..];
      GridMembers(q, rest, summers, p);
      RowMembers(q, first, summers, p);
      assert forall r :: r in regulars <==> r == first || r in rest;
      assert p in Grid(q, regulars, summers) <==> p in Row(q, first, summers) || p in Grid(q, rest, summers);
    }
  }

  lemma WithPreferenceDistinct(presets: seq<real>, preferred: Option<real>)
    requires Sorted(RealLe, presets) && Distinct(presets)
    ensures Distinct(WithPreference(presets, preferred))
  {
    if preferred.Some? && preferred.value !in presets { InsertDistinct(RealLe, preferred.value, presets); }
  }

  lemma {:induction false} GridDistinct(q: Request, regulars: seq<real>, summers: seq<real>)
    requires Distinct(regulars) && Distinct(summers)
    ensures Distinct(Grid(q, regulars, summers))
  {
    if regulars != [] {
      var row, rest := Row(q, regulars[0], summers), Grid(q, regulars[1..], summers);
      GridDistinct(q, regulars[1..], summers);
      forall i, j | 0 <= i < |row| && 0 <= j < |rest| ensures row[i] != rest[j] {
        assert rest[j] in rest;
        GridMembers(q, regulars[1..], summers, rest[j]);
      }
    }
  }

  lemma {:induction false} WithPreferenceMembers(presets: seq<real>, preferred: Option<real>)
    requires Sorted(RealLe, presets)
    ensures forall x :: x in WithPreference(presets, preferred) <==> x in presets || preferred == Some(x)
    ensures |WithPreference(presets, preferred)| <= |presets| + 1
    ensures |WithPreference(presets, preferred)| >= |presets|
  {
    if preferred.Some? && preferred.value !in presets {
      InsertCorrect(RealLe, preferred.value, presets);
      var r := Insert(RealLe, preferred.value, presets);
      forall x ensures x in r <==> x in presets || x == preferred.value {
        InMultiset(r, x);
        InMultiset(presets, x);
      }
    }
  }

  lemma LoadMembers(q: Request)
    ensures forall x :: x in RegularLoads(q) <==> x == 12.0 || x == 15.0 || x == 18.0 || q.regularLoad == Some(x)
    ensures forall x :: x in SummerLoads(q) <==> x == 0.0 || x == 3.0 || x == 6.0 || x == 9.0 || q.summerLoad == Some(x)
    ensures 3 <= |RegularLoads(q)| <= 4 && 4 <= |SummerLoads(q)| <= 5
  {
    WithPreferenceMembers([12.0, 15.0, 18.0], q.regularLoad);
    WithPreferenceMembers([0.0, 3.0, 6.0, 9.0], q.summerLoad);
  }

  // ---- min(candidates, key=...) -------------------------------------------------------

  type Key = Timeline -> seq<real>

  function MinBy(cands: seq<Timeline>, key: Key): Timeline
    requires cands != []
  {
    if |cands| == 1 then cands[0]
    else
      var best := MinBy(cands[..|cands| - 1], key);
      var last := cands[|cands| - 1];
      if LexLe(RealLe, key(best), key(last)) then best else last
  }

  lemma {:induction false} MinByIsLeast(cands: seq<Timeline>, key: Key)
    requires cands != []
    ensures MinBy(cands, key) in cands
    ensures forall c :: c in cands ==> LexLe(RealLe, key(MinBy(cands, key)), key(c))
  {
    if |cands| == 1 {
      LexTotal(RealLe, key(cands[0]), key(cands[0]));
    } else {
      var front, last := cands[..|cands| - 1], cands[|cands| - 1];
      MinByIsLeast(front, key);
      assert cands == front + [last];
      var best, least := MinBy(front, key), MinBy(cands, key);
      LexTotal(RealLe, key(best), key(last));
      LexTotal(RealLe, key(last), key(last));
      assert LexLe(RealLe, key(least), key(best)) && LexLe(RealLe, key(least), key(last));
      forall c | c in cands ensures LexLe(RealLe, key(least), key(c)) {
        if c in front { LexTransitive(RealLe, key(least), key(best), key(c)); }
      }
    }
  }

  // ---- The three criteria -------------------------------------------------------------

  function Slots(t: Timeline): real { ModeledTerms(t) as real }

  function Abs(x: real): real { if x < 0.0 then -x else x }

  function Workload(regular: real, summer: real): real {
    var excess := if regular > 12.0 then regular - 12.0 else 0.0;
    excess * excess / 3.0 + summer * summer / 12.0
  }

  /** Current workload evidence scales the workload term between one and two times. */
  function Caution(q: Request): real {
    1.0 + (if q.risk.Some? then q.risk.value as real else 0.0) / 100.0
  }

  function BalanceCost(q: Request, t: Timeline): real {
    Slots(t) * 4.0 + Caution(q) * Workload(t.plan.regularLoad, t.plan.summerLoad)
  }

  function PreferenceDistance(q: Request, t: Timeline): real {
    (if q.regularLoad.Some? then Abs(t.plan.regularLoad - q.regularLoad.value) else 0.0)
    + (if q.summerEnabled.Some? && t.plan.summerEnabled != q.summerEnabled.value then 10.0 else 0.0)
    + (if q.summerLoad.Some? && q.summerEnabled != Some(false) then Abs(t.plan.summerLoad - q.summerLoad.value) else 0.0)
  }

  function FastestKey(t: Timeline): seq<real> { [Slots(t), t.plan.regularLoad, t.plan.summerLoad] }

  function LowerLoadKey(t: Timeline): seq<real> { [t.plan.regularLoad, t.plan.summerLoad, Slots(t)] }

  function BalancedKey(q: Request): Key {
    t => [PreferenceDistance(q, t), BalanceCost(q, t), Slots(t), t.plan.regularLoad, t.plan.summerLoad]
  }

  function View(q: Request, mode: Mode, t: Timeline): Scenario {
    var stated := q.regularLoad.Some? || q.summerEnabled.Some? || q.summerLoad.Some? || q.pace.Some?;
    Scenario(mode, t,
             && stated
             && (q.pace.None? || q.pace.value == mode)
             && (q.regularLoad.None? || t.plan.regularLoad == q.regularLoad.value)
             && (q.summerEnabled.None? || t.plan.summerEnabled == q.summerEnabled.value)
             && (q.summerLoad.None? || !t.plan.summerEnabled || t.plan.summerLoad == q.summerLoad.value),
             |t.terms|, ModeledTerms(t))
  }

  function Candidates(plans: seq<Assumptions>): seq<Timeline>
    requires forall p :: p in plans ==> Simulate(p).Projected?
  {
    seq(|plans|, i requires 0 <= i < |plans| => Simulate(plans[i]).timeline)
  }

  /** The first candidate the simulation refuses, if any: its error ends the comparison. */
  function FirstRefusal(plans: seq<Assumptions>): (r: Option<Outcome>)
    ensures r.None? <==> forall p :: p in plans ==> Simulate(p).Projected?
  {
    if plans == [] then None
    else if !Simulate(plans[0]).Projected? then Some(Simulate(plans[0]))
    else
      assert forall p :: p in plans <==> p == plans[0] || p in plans[1..];
      FirstRefusal(plans[1..])
  }

  lemma PlansNonempty(q: Request)
    ensures Plans(q) != []
  {
    LoadMembers(q);
    GridMembers(q, RegularLoads(q), SummerLoads(q), PlanFor(q, 12.0, 0.0));
    assert 12.0 in RegularLoads(q) && 0.0 in SummerLoads(q);
  }

  function Compare(q: Request): Comparison {
    if !ValidRequest(q) then InvalidRequest
    else
      var refusal := FirstRefusal(Plans(q));
      if refusal.Some? then Refused(refusal.value)
      else
        PlansNonempty(q);
        var cands := Candidates(Plans(q));
        Compared(View(q, Fastest, MinBy(cands, FastestKey)),
                 View(q, Balanced, MinBy(cands, BalancedKey(q))),
                 View(q, LowerLoad, MinBy(cands, LowerLoadKey)), |cands|)
  }

  // ---- What the choice guarantees -----------------------------------------------------

  /** No slower and no heavier in any respect, and better in one. */
  predicate Dominates(a: Timeline, b: Timeline) {
    && Slots(a) <= Slots(b) && a.plan.regularLoad <= b.plan.regularLoad && a.plan.summerLoad <= b.plan.summerLoad
    && (Slots(a) < Slots(b) || a.plan.regularLoad < b.plan.regularLoad || a.plan.summerLoad < b.plan.summerLoad)
  }

  lemma SquareMonotone(x: real, y: real)
    requires 0.0 <= x <= y
    ensures x * x <= y * y
  {
    assert x * x <= x * y;
    assert x * y <= y * y;
  }

  lemma WeightedMonotone(s1: real, s2: real, caution: real, x: real, y: real)
    requires s1 <= s2 && caution >= 0.0 && x <= y
    ensures s1 * 4.0 + caution * x <= s2 * 4.0 + caution * y
  {
    assert caution * (y - x) >= 0.0;
  }

  lemma WorkloadMonotone(r1: real, r2: real, s1: real, s2: real)
    requires r1 <= r2 && 0.0 <= s1 <= s2
    ensures Workload(r1, s1) <= Workload(r2, s2)
  {
    SquareMonotone(if r1 > 12.0 then r1 - 12.0 else 0.0, if r2 > 12.0 then r2 - 12.0 else 0.0);
    SquareMonotone(s1, s2);
  }

  /** The quadratic workload cost never prefers the dominated candidate. */
  lemma CostMonotone(q: Request, a: Timeline, b: Timeline)
    requires ValidRequest(q) && Dominates(a, b) && a.plan.summerLoad >= 0.0
    ensures BalanceCost(q, a) <= BalanceCost(q, b)
  {
    hide Workload, Slots;
    var wa := Workload(a.plan.regularLoad, a.plan.summerLoad);
    var wb := Workload(b.plan.regularLoad, b.plan.summerLoad);
    assert wa <= wb by { WorkloadMonotone(a.plan.regularLoad, b.plan.regularLoad, a.plan.summerLoad, b.plan.summerLoad); }
    var c := Caution(q);
    assert c >= 1.0;
    WeightedMonotone(Slots(a), Slots(b), c, wa, wb);
  }

  lemma CandidateFacts(q: Request, t: Timeline)
    requires ValidRequest(q) && FirstRefusal(Plans(q)).None?
    requires t in Candidates(Plans(q))
    ensures exists r, s :: r in RegularLoads(q) && s in SummerLoads(q) && Simulate(PlanFor(q, r, s)) == Projected(t)
    ensures Valid(t.plan) && t.plan.summerLoad >= 0.0
  {
    var plans := Plans(q);
    var i :| 0 <= i < |plans| && t == Simulate(plans[i]).timeline;
    GridMembers(q, RegularLoads(q), SummerLoads(q), plans[i]);
    assert plans[i] in plans;
  }

  lemma CandidateExists(q: Request, r: real, s: real)
    requires ValidRequest(q) && FirstRefusal(Plans(q)).None?
    requires r in RegularLoads(q) && s in SummerLoads(q)
    ensures PlanFor(q, r, s) in Plans(q)
    ensures Simulate(PlanFor(q, r, s)).Projected? && Simulate(PlanFor(q, r, s)).timeline in Candidates(Plans(q))
  {
    var plans := Plans(q);
    GridMembers(q, RegularLoads(q), SummerLoads(q), PlanFor(q, r, s));
    var i :| 0 <= i < |plans| && plans[i] == PlanFor(q, r, s);
    assert Candidates(plans)[i] == Simulate(PlanFor(q, r, s)).timeline;
  }

  lemma ChosenAreLeast(q: Request)
    requires Compare(q).Compared?
    ensures var r, cands := Compare(q), Candidates(Plans(q));
            && r.fastest.timeline in cands && r.balanced.timeline in cands && r.lowerLoad.timeline in cands
            && (forall c :: c in cands ==>
                  && LexLe(RealLe, FastestKey(r.fastest.timeline), FastestKey(c))
                  && LexLe(RealLe, BalancedKey(q)(r.balanced.timeline), BalancedKey(q)(c))
                  && LexLe(RealLe, LowerLoadKey(r.lowerLoad.timeline), LowerLoadKey(c)))
  {
    PlansNonempty(q);
    var cands := Candidates(Plans(q));
    MinByIsLeast(cands, FastestKey);
    MinByIsLeast(cands, BalancedKey(q));
    MinByIsLeast(cands, LowerLoadKey);
  }

  lemma LexStep(a: seq<real>, b: seq<real>)
    requires a != [] && b != []
    ensures LexLe(RealLe, a, b) <==> a[0] < b[0] || (a[0] == b[0] && LexLe(RealLe, a[1..], b[1..]))
  {
  }

  lemma Lex3(a: seq<real>, b: seq<real>)
    requires |a| == 3 && |b| == 3
    ensures LexLe(RealLe, a, b) <==>
            a[0] < b[0] || (a[0] == b[0] && (a[1] < b[1] || (a[1] == b[1] && a[2] <= b[2])))
  {
    LexStep(a, b);
    LexStep(a[1..], b[1..]);
    LexStep(a[1..][1..], b[1..][1..]);
  }

  lemma Lex5(a: seq<real>, b: seq<real>)
    requires |a| == 5 && |b| == 5
    ensures LexLe(RealLe, a, b) <==>
            || a[0] < b[0]
            || (a[0] == b[0] && (a[1] < b[1] || (a[1] == b[1] && LexLe(RealLe, a[2..], b[2..]))))
  {
    LexStep(a, b);
    LexStep(a[1..], b[1..]);
    assert a[1..][1..] == a[2..] && b[1..][1..] == b[2..];
  }

  /** FASTEST and LOWER_LOAD are never dominated. BALANCED is never dominated by a candidate
      that honours the stated preferences as well as it does, so without load preferences it is
      never dominated at all. */
  lemma ParetoSound(q: Request, c: Timeline)
    requires Compare(q).Compared? && c in Candidates(Plans(q))
    ensures !Dominates(c, Compare(q).fastest.timeline)
    ensures !Dominates(c, Compare(q).lowerLoad.timeline)
    ensures PreferenceDistance(q, c) <= PreferenceDistance(q, Compare(q).balanced.timeline)
            ==> !Dominates(c, Compare(q).balanced.timeline)
  {
    ChosenAreLeast(q);
    CandidateFacts(q, c);
    var f, b, l := Compare(q).fastest.timeline, Compare(q).balanced.timeline, Compare(q).lowerLoad.timeline;
    Lex3(FastestKey(f), FastestKey(c));
    Lex3(LowerLoadKey(l), LowerLoadKey(c));
    Lex5(BalancedKey(q)(b), BalancedKey(q)(c));
    Lex3(BalancedKey(q)(b)[2..], BalancedKey(q)(c)[2..]);
    if Dominates(c, b) { CostMonotone(q, c, b); }
  }

  // ---- The choices in terms of the plans ----------------------------------------------

  /** A comparison is refused as invalid exactly when a stated load or risk is out of bounds, and with the
      error of a projection exactly when some candidate is refused. */
  lemma RefusesExactly(q: Request)
    ensures Compare(q) == InvalidRequest <==>
            || (q.regularLoad.Some? && (q.regularLoad.value < 3.0 || q.regularLoad.value > 30.0))
            || (q.summerLoad.Some? && (q.summerLoad.value < 3.0 || q.summerLoad.value > 9.0))
            || (q.risk.Some? && (q.risk.value < 0 || q.risk.value > 100))
    ensures Compare(q).Refused? <==> Compare(q) != InvalidRequest && exists p :: p in Plans(q) && !Simulate(p).Projected?
    ensures Compare(q).Refused? ==> exists p :: p in Plans(q) && !Simulate(p).Projected? && Compare(q).cause == Simulate(p)
  {
    hide Simulate, Plans, View, MinBy;
    RefusalIsOne(Plans(q));
  }

  lemma {:induction false} RefusalIsOne(plans: seq<Assumptions>)
    ensures FirstRefusal(plans).Some? ==> exists p :: p in plans && !Simulate(p).Projected? && FirstRefusal(plans).value == Simulate(p)
  {
    hide Simulate;
    if plans != [] && Simulate(plans[0]).Projected? {
      RefusalIsOne(plans[1..]);
      assert forall p :: p in plans[1..] ==> p in plans;
    } else if plans != [] {
      assert plans[0] in plans;
    }
  }

  /** The candidates are the projections of the request for every pair of a compared or stated regular
      load with no summers or a compared or stated summer load. */
  lemma CandidatesExactly(q: Request, c: Timeline)
    requires Compare(q).Compared?
    ensures c in Candidates(Plans(q)) <==>
            && Simulate(c.plan) == Projected(c)
            && c.plan.required == q.required && c.plan.earned == q.earned
            && c.plan.startYear == q.startYear && c.plan.startTerm == q.startTerm
            && (c.plan.regularLoad == 12.0 || c.plan.regularLoad == 15.0 || c.plan.regularLoad == 18.0 || Some(c.plan.regularLoad) == q.regularLoad)
            && (c.plan.summerEnabled <==> c.plan.summerLoad > 0.0)
            && (c.plan.summerLoad == 0.0 || c.plan.summerLoad == 3.0 || c.plan.summerLoad == 6.0 || c.plan.summerLoad == 9.0
                || Some(c.plan.summerLoad) == q.summerLoad)
  {
    hide Simulate;
    LoadMembers(q);
    if c in Candidates(Plans(q)) {
      CandidateFacts(q, c);
      var r, s :| r in RegularLoads(q) && s in SummerLoads(q) && Simulate(PlanFor(q, r, s)) == Projected(c);
      SimulatesItsPlan(PlanFor(q, r, s));
    }
    if c.plan.regularLoad in RegularLoads(q) && c.plan.summerLoad in SummerLoads(q) {
      CandidateExists(q, c.plan.regularLoad, c.plan.summerLoad);
    }
  }

  /** FASTEST: no candidate takes fewer calendar slots, none as many with a smaller regular load, and none
      with both alike a smaller summer load. */
  lemma FastestIsEarliest(q: Request, c: Timeline)
    requires Compare(q).Compared? && c in Candidates(Plans(q))
    ensures var f := Compare(q).fastest.timeline;
            && f in Candidates(Plans(q))
            && ModeledTerms(f) <= ModeledTerms(c)
            && (ModeledTerms(f) == ModeledTerms(c) ==> f.plan.regularLoad <= c.plan.regularLoad)
            && (ModeledTerms(f) == ModeledTerms(c) && f.plan.regularLoad == c.plan.regularLoad ==> f.plan.summerLoad <= c.plan.summerLoad)
  {
    hide Simulate, ModeledTerms, Candidates, Plans, BalancedKey;
    ChosenAreLeast(q);
    Lex3(FastestKey(Compare(q).fastest.timeline), FastestKey(c));
  }

  /** LOWER_LOAD: no candidate has a smaller regular load, none with that load a smaller summer load, and
      none with both takes fewer calendar slots. */
  lemma LowerLoadIsLightest(q: Request, c: Timeline)
    requires Compare(q).Compared? && c in Candidates(Plans(q))
    ensures var l := Compare(q).lowerLoad.timeline;
            && l in Candidates(Plans(q))
            && l.plan.regularLoad <= c.plan.regularLoad
            && (l.plan.regularLoad == c.plan.regularLoad ==> l.plan.summerLoad <= c.plan.summerLoad)
            && (l.plan.regularLoad == c.plan.regularLoad && l.plan.summerLoad == c.plan.summerLoad ==> ModeledTerms(l) <= ModeledTerms(c))
  {
    hide Simulate, ModeledTerms, Candidates, Plans, BalancedKey;
    ChosenAreLeast(q);
    Lex3(LowerLoadKey(Compare(q).lowerLoad.timeline), LowerLoadKey(c));
  }

  /** The plan has every stated load; a stated summer load does not count when summers are declined. */
  predicate MeetsPreferences(q: Request, p: Assumptions) {
    && (q.regularLoad.Some? ==> p.regularLoad == q.regularLoad.value)
    && (q.summerEnabled.Some? ==> p.summerEnabled == q.summerEnabled.value)
    && (q.summerLoad.Some? && q.summerEnabled != Some(false) ==> p.summerLoad == q.summerLoad.value)
  }

  /** Four per slot, and the squared excess over 12 credits by three and squared summer load by twelve,
      both raised by the stated risk in per cent. */
  function TradeOff(q: Request, t: Timeline): real {
    var excess := if t.plan.regularLoad <= 12.0 then 0.0 else t.plan.regularLoad - 12.0;
    var risk := if q.risk.Some? then q.risk.value as real else 0.0;
    4.0 * ModeledTerms(t) as real
    + (1.0 + risk / 100.0) * (excess * excess / 3.0 + t.plan.summerLoad * t.plan.summerLoad / 12.0)
  }

  /** BALANCED: of the candidates with every stated load it has the least trade-off between slots and
      workload, then the fewest slots, then the smaller loads. */
  lemma BalancedIsCheapest(q: Request, c: Timeline)
    requires Compare(q).Compared? && c in Candidates(Plans(q)) && MeetsPreferences(q, c.plan)
    ensures var b := Compare(q).balanced.timeline;
            && b in Candidates(Plans(q)) && MeetsPreferences(q, b.plan)
            && TradeOff(q, b) <= TradeOff(q, c)
            && (TradeOff(q, b) == TradeOff(q, c) ==> ModeledTerms(b) <= ModeledTerms(c))
            && (TradeOff(q, b) == TradeOff(q, c) && ModeledTerms(b) == ModeledTerms(c) ==>
                  b.plan.regularLoad <= c.plan.regularLoad
                  && (b.plan.regularLoad == c.plan.regularLoad ==> b.plan.summerLoad <= c.plan.summerLoad))
  {
    ChosenAreLeast(q);
    BalancedHonoursPreferences(q);
    var b := Compare(q).balanced.timeline;
    var kb, kc := BalancedKey(q)(b), BalancedKey(q)(c);
    DistanceNonnegative(q, b);
    CostIsTradeOff(q, b);
    CostIsTradeOff(q, c);
    hide Compare, Simulate, ModeledTerms, Candidates, Plans, TradeOff, BalanceCost;
    Lex5(kb, kc);
    Lex3(kb[2..], kc[2..]);
  }

  lemma CostIsTradeOff(q: Request, t: Timeline)
    ensures BalanceCost(q, t) == TradeOff(q, t)
  {
    hide ModeledTerms;
  }

  /** What a view says of its plan: its study terms, its calendar slots, and a match exactly when something
      was stated and its mode and its plan agree with all of it. */
  lemma ViewsAreOfTheirPlans(q: Request)
    requires Compare(q).Compared?
    ensures forall s :: s in {Compare(q).fastest, Compare(q).balanced, Compare(q).lowerLoad} ==>
              && s.scheduledTerms == |s.timeline.terms| && s.calendarSlots == ModeledTerms(s.timeline)
              && (s.preferenceMatch <==>
                    && (q.regularLoad.Some? || q.summerEnabled.Some? || q.summerLoad.Some? || q.pace.Some?)
                    && (q.pace.Some? ==> q.pace.value == s.mode)
                    && (q.regularLoad.Some? ==> s.timeline.plan.regularLoad == q.regularLoad.value)
                    && (q.summerEnabled.Some? ==> s.timeline.plan.summerEnabled == q.summerEnabled.value)
                    && (q.summerLoad.Some? && s.timeline.plan.summerEnabled ==> s.timeline.plan.summerLoad == q.summerLoad.value))
    ensures Compare(q).fastest.mode == Fastest && Compare(q).balanced.mode == Balanced && Compare(q).lowerLoad.mode == LowerLoad
  {
    hide Simulate, ModeledTerms, MinBy, BalancedKey;
  }

  lemma PlansDistinct(q: Request)
    ensures Distinct(Plans(q))
  {
    WithPreferenceDistinct([12.0, 15.0, 18.0], q.regularLoad);
    WithPreferenceDistinct([0.0, 3.0, 6.0, 9.0], q.summerLoad);
    GridDistinct(q, RegularLoads(q), SummerLoads(q));
  }

  /** Plans of one request that differ, differ in a load. */
  lemma PlansDifferInLoads(q: Request, a: Assumptions, b: Assumptions)
    requires a in Plans(q) && b in Plans(q) && a != b
    ensures a.regularLoad != b.regularLoad || a.summerLoad != b.summerLoad
  {
    GridMembers(q, RegularLoads(q), SummerLoads(q), a);
    GridMembers(q, RegularLoads(q), SummerLoads(q), b);
  }

  /** The candidates are pairwise different pairs of loads, and there are between 12 and 20. */
  lemma EvaluatedCount(q: Request)
    requires Compare(q).Compared?
    ensures |Candidates(Plans(q))| == Compare(q).evaluated
    ensures forall i, j :: 0 <= i < j < |Candidates(Plans(q))| ==>
              var a, b := Candidates(Plans(q))[i].plan, Candidates(Plans(q))[j].plan;
              a.regularLoad != b.regularLoad || a.summerLoad != b.summerLoad
    ensures Compare(q).evaluated == |RegularLoads(q)| * |SummerLoads(q)|
    ensures 12 <= Compare(q).evaluated <= 20
  {
    LoadMembers(q);
    GridSize(q, RegularLoads(q), SummerLoads(q));
    ProductBounds(|RegularLoads(q)|, |SummerLoads(q)|);
    PlansDistinct(q);
    var plans, cands := Plans(q), Candidates(Plans(q));
    hide Simulate, Plans, View, MinBy;
    forall i, j | 0 <= i < j < |cands|
      ensures cands[i].plan.regularLoad != cands[j].plan.regularLoad || cands[i].plan.summerLoad != cands[j].plan.summerLoad
    {
      assert plans[i] in plans && plans[j] in plans;
      PlansDifferInLoads(q, plans[i], plans[j]);
      SimulatesItsPlan(plans[i]);
      SimulatesItsPlan(plans[j]);
    }
  }

  lemma SimulatesItsPlan(p: Assumptions)
    requires Simulate(p).Projected?
    ensures Simulate(p).timeline.plan == p
  {
  }

  lemma ProductBounds(m: int, n: int)
    requires 3 <= m <= 4 && 4 <= n <= 5
    ensures 12 <= m * n <= 20
  {
  }

  /** The loads a student asked for are themselves candidates. */
  lemma PreferredCandidateExists(q: Request)
    requires Compare(q).Compared?
    ensures exists c :: c in Candidates(Plans(q)) && PreferenceDistance(q, c) == 0.0
  {
    LoadMembers(q);
    var r := if q.regularLoad.Some? then q.regularLoad.value else 12.0;
    var s := if q.summerEnabled == Some(false) then 0.0
             else if q.summerLoad.Some? then q.summerLoad.value
             else if q.summerEnabled == Some(true) then 3.0 else 0.0;
    assert r in RegularLoads(q) && s in SummerLoads(q);
    CandidateExists(q, r, s);
    var honest := Simulate(PlanFor(q, r, s)).timeline;
    assert honest.plan == PlanFor(q, r, s);
    assert PreferenceDistance(q, honest) == 0.0;
  }

  lemma DistanceNonnegative(q: Request, t: Timeline)
    ensures PreferenceDistance(q, t) >= 0.0
    ensures PreferenceDistance(q, t) == 0.0 ==>
              && (q.regularLoad.Some? ==> t.plan.regularLoad == q.regularLoad.value)
              && (q.summerEnabled.Some? ==> t.plan.summerEnabled == q.summerEnabled.value)
              && (q.summerLoad.Some? && q.summerEnabled != Some(false) ==> t.plan.summerLoad == q.summerLoad.value)
  {
  }

  /** BALANCED always meets every stated load preference exactly: the preferred values are
      themselves candidates, and a summer load is ignored when summers are declined. Whether its
      view is flagged as a match therefore depends only on the stated pace. */
  lemma BalancedHonoursPreferences(q: Request)
    requires Compare(q).Compared?
    ensures PreferenceDistance(q, Compare(q).balanced.timeline) == 0.0
    ensures Compare(q).balanced.preferenceMatch <==>
            && (q.regularLoad.Some? || q.summerEnabled.Some? || q.summerLoad.Some? || q.pace.Some?)
            && (q.pace.None? || q.pace.value == Balanced)
  {
    ChosenAreLeast(q);
    PreferredCandidateExists(q);
    var honest :| honest in Candidates(Plans(q)) && PreferenceDistance(q, honest) == 0.0;
    var b := Compare(q).balanced.timeline;
    Lex5(BalancedKey(q)(b), BalancedKey(q)(honest));
    DistanceNonnegative(q, b);
  }

  /** The heaviest regular load among the candidates; the heaviest summer load is always 9. */
  function HeaviestRegular(q: Request): real {
    if q.regularLoad.Some? && q.regularLoad.value > 18.0 then q.regularLoad.value else 18.0
  }

  /** FASTEST beats the heaviest candidate by at most the one slot a skipped summer costs. */
  lemma HeaviestWithinOneSlotOfFastest(q: Request)
    requires Compare(q).Compared?
    ensures Simulate(PlanFor(q, HeaviestRegular(q), 9.0)).Projected?
    ensures var fastest, heaviest := Compare(q).fastest.timeline, Simulate(PlanFor(q, HeaviestRegular(q), 9.0)).timeline;
            && heaviest in Candidates(Plans(q))
            && (forall c :: c in Candidates(Plans(q)) ==>
                  c.plan.regularLoad <= heaviest.plan.regularLoad && c.plan.summerLoad <= heaviest.plan.summerLoad)
            && ModeledTerms(fastest) <= ModeledTerms(heaviest) <= ModeledTerms(fastest) + 1
            && (ModeledTerms(heaviest) > ModeledTerms(fastest) ==> fastest.completionTerm == Some(Summer))
  {
    hide Simulate, ModeledTerms, Candidates, Plans, BalancedKey;
    ChosenAreLeast(q);
    LoadMembers(q);
    var most := HeaviestRegular(q);
    CandidateExists(q, most, 9.0);
    SimulatesItsPlan(PlanFor(q, most, 9.0));
    var fastest, heaviest := Compare(q).fastest.timeline, Simulate(PlanFor(q, most, 9.0)).timeline;
    forall c | c in Candidates(Plans(q))
      ensures c.plan.regularLoad <= heaviest.plan.regularLoad && c.plan.summerLoad <= heaviest.plan.summerLoad
    {
      CandidateFacts(q, c);
      var r, s :| r in RegularLoads(q) && s in SummerLoads(q) && Simulate(PlanFor(q, r, s)) == Projected(c);
      SimulatesItsPlan(PlanFor(q, r, s));
    }
    CandidateFacts(q, fastest);
    var r, s :| r in RegularLoads(q) && s in SummerLoads(q) && Simulate(PlanFor(q, r, s)) == Projected(fastest);
    SimulatesItsPlan(PlanFor(q, r, s));
    Lex3(FastestKey(fastest), FastestKey(heaviest));
    HeavierLoadsAtMostOneSlotLater(PlanFor(q, r, s), PlanFor(q, most, 9.0));
  }
}
