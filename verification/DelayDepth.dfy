/** How deep the delay analysis reports a course (apps/api/app/decision_intelligence/delay.py):
    between graph distance and AND/OR rank, and when it is the rank. */
module DelayDepth {
  import opened Wrappers
  import opened Ordering
  import opened AcademicRules
  import opened PrerequisiteGraph
  import opened DelayConsequence
  import opened DelaySafety

  // ---- AND/OR rank --------------------------------------------------------------------

  /** What `n` rounds of propagation reach from the base, every group looked at in every round. */
  ghost function Layer(rules: map<Code, Rule>, passed: set<Code>, target: Code, base: set<Code>, n: nat): set<Code> {
    if n == 0 then base
    else
      var inner := Layer(rules, passed, target, base, n - 1);
      inner + set c | c in rules && Propagates(rules, passed, target, inner, c)
  }

  /** The minimum dependency depth over all AND/OR derivations; direct courses have rank one. */
  ghost predicate HasRank(rules: map<Code, Rule>, passed: set<Code>, target: Code, base: set<Code>, c: Code, n: int) {
    n >= 1 && c in Layer(rules, passed, target, base, n - 1) && (n >= 2 ==> c !in Layer(rules, passed, target, base, n - 2))
  }

  lemma {:induction false} LayerMonotone(rules: map<Code, Rule>, passed: set<Code>, target: Code, base: set<Code>, m: nat, n: nat)
    requires m <= n
    ensures Layer(rules, passed, target, base, m) <= Layer(rules, passed, target, base, n)
  {
    if m < n { LayerMonotone(rules, passed, target, base, m, n - 1); }
  }

  lemma {:induction false} LayersInside(rules: map<Code, Rule>, passed: set<Code>, target: Code, base: set<Code>, u: set<Code>, n: nat)
    requires IsClosure(rules, passed, target, base, u)
    ensures Layer(rules, passed, target, base, n) <= u
  {
    if n > 0 {
      LayersInside(rules, passed, target, base, u, n - 1);
      var inner := Layer(rules, passed, target, base, n - 1);
      forall c | c in rules && Propagates(rules, passed, target, inner, c) ensures c in u {
        PropagatesMonotone(rules, passed, target, inner, u, c);
      }
    }
  }

  lemma JustifyingGroup(rules: map<Code, Rule>, passed: set<Code>, target: Code, inner: set<Code>, u: set<Code>, c: Code) returns (g: Group)
    requires c in rules && Propagates(rules, passed, target, inner, c) && inner <= u
    ensures g in rules[c].groups && Ready(g, passed, inner) && Ready(g, passed, u) && HasOther(g, target)
  {
    g :| g in rules[c].groups && Ready(g, passed, inner) && HasOther(g, target);
  }

  lemma LatestOption(rule: Rule, passed: set<Code>, target: Code, u: set<Code>, depths: Depths, d: int, g: Group) returns (o: Code)
    requires Placed(rule, passed, target, u, depths, d) && g in rule.groups && Ready(g, passed, u) && HasOther(g, target)
    ensures o in g.options && o != target && o in depths && d <= depths[o] + 1
  {
    hide Springs;
    assert Latest(g, target, depths, d);
    o :| o in g.options && o != target && o in depths && d <= depths[o] + 1;
  }

  lemma NewInLayer(rules: map<Code, Rule>, passed: set<Code>, target: Code, base: set<Code>, c: Code, n: nat)
    requires n > 0 && c in Layer(rules, passed, target, base, n) && c !in Layer(rules, passed, target, base, n - 1)
    ensures c in rules && Propagates(rules, passed, target, Layer(rules, passed, target, base, n - 1), c)
  {
    hide Propagates;
  }

  lemma FittedAt(rules: map<Code, Rule>, passed: set<Code>, target: Code, base: set<Code>, u: set<Code>, depths: Depths, c: Code)
    requires Fitted(rules, passed, target, base, u, depths) && c in u && c != target
    ensures c in depths && depths[c] >= 1
    ensures if c in base then depths[c] == 1 else c in rules && Placed(rules[c], passed, target, u, depths, depths[c])
  {
    hide Placed;
  }

  /** A course is never reported deeper than its rank. */
  lemma {:induction false} DepthAtMostRank(rules: map<Code, Rule>, passed: set<Code>, target: Code, base: set<Code>, u: set<Code>,
                                           depths: Depths, c: Code, n: nat)
    requires IsClosure(rules, passed, target, base, u) && Fitted(rules, passed, target, base, u, depths)
    requires c in Layer(rules, passed, target, base, n) && c != target
    ensures c in depths && depths[c] <= n + 1
    decreases n
  {
    hide IsClosure, Fitted, Placed, Propagates, HasOther;
    LayersInside(rules, passed, target, base, u, n);
    FittedAt(rules, passed, target, base, u, depths, c);
    if n > 0 && c !in base {
      var inner := Layer(rules, passed, target, base, n - 1);
      if c in inner {
        DepthAtMostRank(rules, passed, target, base, u, depths, c, n - 1);
      } else {
        NewInLayer(rules, passed, target, base, c, n);
        LayersInside(rules, passed, target, base, u, n - 1);
        var g := JustifyingGroup(rules, passed, target, inner, u, c);
        var o := LatestOption(rules[c], passed, target, u, depths, depths[c], g);
        assert o in inner;
        DepthAtMostRank(rules, passed, target, base, u, depths, o, n - 1);
      }
    }
  }

  // ---- When depth is rank -------------------------------------------------------------

  /** Some ready group of the course has all its options besides the target above depth `d`. */
  ghost predicate Timely(rule: Rule, passed: set<Code>, target: Code, u: set<Code>, depths: Depths, d: int) {
    exists g :: && g in rule.groups && Ready(g, passed, u) && HasOther(g, target)
                && forall o :: o in g.options && o != target ==> o in depths && depths[o] < d
  }

  ghost predicate AllTimely(rules: map<Code, Rule>, passed: set<Code>, target: Code, base: set<Code>, u: set<Code>, depths: Depths) {
    forall c :: c in u && c !in base ==> c in rules && c in depths && Timely(rules[c], passed, target, u, depths, depths[c])
  }

  lemma {:induction false} TimelyReachesLayer(rules: map<Code, Rule>, passed: set<Code>, target: Code, base: set<Code>, u: set<Code>,
                                              depths: Depths, c: Code)
    requires target in base && IsClosure(rules, passed, target, base, u) && Fitted(rules, passed, target, base, u, depths)
    requires AllTimely(rules, passed, target, base, u, depths) && c in depths
    ensures depths[c] >= 1 && c in Layer(rules, passed, target, base, depths[c] - 1)
    decreases depths[c]
  {
    hide IsClosure, Placed, Propagates, Layer;
    if c in base {
      BaseLayer(rules, passed, target, base);
      LayerMonotone(rules, passed, target, base, 0, depths[c] - 1);
    } else {
      ClosureIsJustified(rules, passed, target, base, u, c);
      VerifiedBy(rules, passed, target, u, c);
      var g :| && g in rules[c].groups && Ready(g, passed, u) && HasOther(g, target)
               && forall o :: o in g.options && o != target ==> o in depths && depths[o] < depths[c];
      var other :| other in g.options && other != target;
      assert depths[other] >= 1;
      var inner := Layer(rules, passed, target, base, depths[c] - 2);
      BaseLayer(rules, passed, target, base);
      LayerMonotone(rules, passed, target, base, 0, depths[c] - 2);
      forall o | o in g.options ensures o !in passed && o in inner {
        if o != target {
          TimelyReachesLayer(rules, passed, target, base, u, depths, o);
          LayerMonotone(rules, passed, target, base, depths[o] - 1, depths[c] - 2);
        }
      }
      PropagatesBy(rules, passed, target, inner, c, g);
      NextLayer(rules, passed, target, base, c, depths[c] - 1);
    }
  }

  lemma BaseLayer(rules: map<Code, Rule>, passed: set<Code>, target: Code, base: set<Code>)
    ensures Layer(rules, passed, target, base, 0) == base
  {
  }

  lemma NextLayer(rules: map<Code, Rule>, passed: set<Code>, target: Code, base: set<Code>, c: Code, n: nat)
    requires n > 0 && c in rules && Propagates(rules, passed, target, Layer(rules, passed, target, base, n - 1), c)
    ensures c in Layer(rules, passed, target, base, n)
  {
    hide Propagates;
  }

  lemma VerifiedBy(rules: map<Code, Rule>, passed: set<Code>, target: Code, u: set<Code>, c: Code)
    requires c in rules && Propagates(rules, passed, target, u, c)
    ensures rules[c].status == Verified
  {
  }

  lemma PropagatesBy(rules: map<Code, Rule>, passed: set<Code>, target: Code, u: set<Code>, c: Code, g: Group)
    requires c in rules && rules[c].status == Verified && g in rules[c].groups && Ready(g, passed, u) && HasOther(g, target)
    ensures Propagates(rules, passed, target, u, c)
  {
  }

  lemma DeeperThanOne(rules: map<Code, Rule>, passed: set<Code>, target: Code, base: set<Code>, c: Code, n: int)
    requires HasRank(rules, passed, target, base, c, n) && c !in base
    ensures n >= 2
  {
  }

  lemma RankedIsTimely(rules: map<Code, Rule>, passed: set<Code>, target: Code, base: set<Code>, u: set<Code>, depths: Depths, c: Code)
    requires target in base && IsClosure(rules, passed, target, base, u) && Fitted(rules, passed, target, base, u, depths)
    requires c in u && c !in base && c in depths && HasRank(rules, passed, target, base, c, depths[c])
    ensures c in rules && Timely(rules[c], passed, target, u, depths, depths[c])
  {
    hide IsClosure, Fitted, Placed, Propagates, HasOther;
    DeeperThanOne(rules, passed, target, base, c, depths[c]);
    var n := depths[c] - 2;
    var inner := Layer(rules, passed, target, base, n);
    NewInLayer(rules, passed, target, base, c, n + 1);
    LayersInside(rules, passed, target, base, u, n);
    var g := JustifyingGroup(rules, passed, target, inner, u, c);
    forall o | o in g.options && o != target ensures o in depths && depths[o] < depths[c] {
      DepthAtMostRank(rules, passed, target, base, u, depths, o, n);
    }
  }

  lemma TimelyIsRanked(rules: map<Code, Rule>, passed: set<Code>, target: Code, base: set<Code>, u: set<Code>, depths: Depths, c: Code)
    requires target in base && IsClosure(rules, passed, target, base, u) && Fitted(rules, passed, target, base, u, depths)
    requires AllTimely(rules, passed, target, base, u, depths) && c in depths
    ensures HasRank(rules, passed, target, base, c, depths[c])
  {
    hide IsClosure, Placed, Layer;
    TimelyReachesLayer(rules, passed, target, base, u, depths, c);
    assert c != target;
    if depths[c] >= 2 && c in Layer(rules, passed, target, base, depths[c] - 2) {
      DepthAtMostRank(rules, passed, target, base, u, depths, c, depths[c] - 2);
    }
  }

  /** The reported depths are the AND/OR ranks exactly when every reported course has a ready group
      whose other options were all reached at a smaller depth. A course that owes its place to an
      option found in the same pass is reported too shallow. */
  lemma DepthIsRankExactly(rules: map<Code, Rule>, passed: set<Code>, target: Code, base: set<Code>, u: set<Code>, depths: Depths)
    requires target in base && IsClosure(rules, passed, target, base, u) && Fitted(rules, passed, target, base, u, depths)
    ensures (forall c :: c in u && c !in base ==> c in depths && HasRank(rules, passed, target, base, c, depths[c]))
            <==> AllTimely(rules, passed, target, base, u, depths)
  {
    hide IsClosure, Placed, HasRank, Timely;
    if AllTimely(rules, passed, target, base, u, depths) {
      forall c | c in u && c !in base ensures HasRank(rules, passed, target, base, c, depths[c]) {
        TimelyIsRanked(rules, passed, target, base, u, depths, c);
      }
    }
    if forall c :: c in u && c !in base ==> c in depths && HasRank(rules, passed, target, base, c, depths[c]) {
      forall c | c in u && c !in base ensures c in rules && c in depths && Timely(rules[c], passed, target, u, depths, depths[c]) {
        RankedIsTimely(rules, passed, target, base, u, depths, c);
      }
    }
  }

  /** No group offers two alternatives to the target. */
  predicate SingleAlternatives(rules: map<Code, Rule>, target: Code) {
    forall c, g, o, p :: c in rules && g in rules[c].groups && o in g.options && p in g.options && o != target && p != target ==> o == p
  }

  /** Something to read off the catalog beforehand: where groups offer no alternatives besides the
      target, every reported depth is the rank. */
  lemma SingleAlternativesGiveRanks(rules: map<Code, Rule>, passed: set<Code>, target: Code, base: set<Code>, u: set<Code>,
                                    depths: Depths, c: Code)
    requires target in base && IsClosure(rules, passed, target, base, u) && Fitted(rules, passed, target, base, u, depths)
    requires SingleAlternatives(rules, target) && c in u && c !in base
    ensures c in depths && HasRank(rules, passed, target, base, c, depths[c])
  {
    hide IsClosure, HasRank, Layer, Latest;
    forall d | d in u && d !in base ensures Timely(rules[d], passed, target, u, depths, depths[d]) {
      assert Springs(rules[d], passed, target, u, depths, depths[d]);
      var g, o :| && g in rules[d].groups && Ready(g, passed, u)
                  && o in g.options && o != target && o in depths && depths[d] == depths[o] + 1;
      assert HasOther(g, target);
    }
    TimelyIsRanked(rules, passed, target, base, u, depths, c);
  }

  // ---- A depth below the rank ---------------------------------------------------------

  function Needs(code: Code, options: seq<Code>): Rule { Rule(code, Verified, [Group(1, Prerequisite, options)], None) }

  const SHALLOW_PLAN := [Rule("T", NotApplicable, [], None), Needs("D", ["T"]), Needs("A", ["D"]), Needs("C", ["A", "D"])]
  const SHALLOW_RULES := map["T" := Rule("T", NotApplicable, [], None), "D" := Needs("D", ["T"]), "A" := Needs("A", ["D"]),
                             "C" := Needs("C", ["A", "D"])]
  const DIRECT_D := [Affected("D", 1, ["T", "D"])]
  const AT_FIRST := Work({"T", "D"}, map["D" := ["T", "D"]], [], [])
  const WITH_A := Work({"T", "D", "A"}, map["D" := ["T", "D"], "A" := ["T", "D", "A"]], ["A"], [Affected("A", 2, ["T", "D", "A"])])
  const WITH_C := Work({"T", "D", "A", "C"}, map["D" := ["T", "D"], "A" := ["T", "D", "A"], "C" := ["T", "D", "C"]], ["A", "C"],
                       [Affected("A", 2, ["T", "D", "A"]), Affected("C", 2, ["T", "D", "C"])])

  lemma ShallowRules()
    ensures RulesOf(SHALLOW_PLAN) == SHALLOW_RULES
  {
    hide RulesOf;
    var t, d, a, c := SHALLOW_PLAN[0], SHALLOW_PLAN[1], SHALLOW_PLAN[2], SHALLOW_PLAN[3];
    assert SHALLOW_PLAN == ((([] + [t]) + [d]) + [a]) + [c];
    RulesOfNone();
    RulesOfSnoc([], t);
    RulesOfSnoc([] + [t], d);
    RulesOfSnoc(([] + [t]) + [d], a);
    RulesOfSnoc((([] + [t]) + [d]) + [a], c);
  }

  lemma RulesOfNone()
    ensures RulesOf([]) == map[]
  {
  }

  lemma NeedsOne(code: Code, x: Code, parent: Code, passed: set<Code>, u: set<Code>)
    ensures AffectedGroup(Needs(code, [x]), parent, passed, u) <==> parent == x && x !in passed && x in u
  {
    var g := Group(1, Prerequisite, [x]);
    assert Needs(code, [x]).groups[0] == g && g.options[0] == x;
    assert Ready(g, passed, u) <==> x !in passed && x in u;
  }

  lemma NeedsTwo(code: Code, x: Code, y: Code, parent: Code, passed: set<Code>, u: set<Code>)
    ensures AffectedGroup(Needs(code, [x, y]), parent, passed, u) <==>
            (parent == x || parent == y) && x !in passed && x in u && y !in passed && y in u
  {
    var g := Group(1, Prerequisite, [x, y]);
    assert Needs(code, [x, y]).groups[0] == g && g.options[0] == x && g.options[1] == y;
    assert Ready(g, passed, u) <==> x !in passed && x in u && y !in passed && y in u;
  }

  lemma {:induction false} NothingLeftToScan(rules: map<Code, Rule>, passed: set<Code>, parent: Code, order: seq<Code>, w: Work)
    requires parent in w.paths && rules.Keys <= w.unavailable
    ensures ScanAll(rules, passed, parent, order, w) == w
  {
    hide AffectedGroup;
    if order != [] { NothingLeftToScan(rules, passed, parent, order[..|order| - 1], w); }
  }

  lemma {:induction false} NothingLeftToFind(rules: map<Code, Rule>, passed: set<Code>, order: seq<Code>, w: Work)
    requires QueueKnown(w) && rules.Keys <= w.unavailable
    ensures Drain(rules, passed, order, w).found == w.found
    decreases |w.queue|
  {
    hide Drain, ScanAll;
    if w.queue == [] {
      DrainEnd(rules, passed, order, w);
    } else {
      DrainStep(rules, passed, order, w);
      NothingLeftToScan(rules, passed, w.queue[0], order, w.(queue := w.queue[1..]));
      NothingLeftToFind(rules, passed, order, w.(queue := w.queue[1..]));
    }
  }

  lemma ShallowListing()
    ensures Listing(SHALLOW_RULES.Keys) == ["A", "C", "D", "T"] && Listing(Codes(DIRECT_D)) == ["D"]
  {
    hide Listing;
    var order := ["A", "C", "D", "T"];
    assert "A"[0] == 'A' && "C"[0] == 'C' && "D"[0] == 'D' && "T"[0] == 'T';
    assert Sorted(StrLe, order) && Distinct(order);
    assert Elements(order) == SHALLOW_RULES.Keys;
    ListingUnique(Listing(SHALLOW_RULES.Keys), order);
    assert DIRECT_D[0].code == "D" && Codes(DIRECT_D) == {"D"} == Elements(["D"]);
    ListingUnique(Listing(Codes(DIRECT_D)), ["D"]);
  }

  lemma FourScans(rules: map<Code, Rule>, passed: set<Code>, parent: Code, a: Code, b: Code, c: Code, d: Code, w: Work)
    requires parent in w.paths
    ensures ScanAll(rules, passed, parent, [a, b, c, d], w)
            == ScanOne(rules, passed, parent, d, ScanOne(rules, passed, parent, c,
                 ScanOne(rules, passed, parent, b, ScanOne(rules, passed, parent, a, w))))
  {
    hide AffectedGroup, ScanOne;
    var s := [a, b, c, d];
    assert s[..3] == [a, b, c] && [a, b, c][..2] == [a, b] && [a, b][..1] == [a] && [a][..0] == [];
    assert ScanAll(rules, passed, parent, [], w) == w;
    assert ScanAll(rules, passed, parent, [a], w) == ScanOne(rules, passed, parent, a, w);
    assert ScanAll(rules, passed, parent, [a, b], w) == ScanOne(rules, passed, parent, b, ScanAll(rules, passed, parent, [a], w));
    assert ScanAll(rules, passed, parent, [a, b, c], w) == ScanOne(rules, passed, parent, c, ScanAll(rules, passed, parent, [a, b], w));
  }

  lemma ShallowScan()
    ensures ScanAll(SHALLOW_RULES, {}, "D", ["A", "C", "D", "T"], AT_FIRST) == WITH_C
  {
    FourScans(SHALLOW_RULES, {}, "D", "A", "C", "D", "T", AT_FIRST);
    hide AffectedGroup, ScanAll;
    assert "A"[0] == 'A' && "C"[0] == 'C' && "D"[0] == 'D' && "T"[0] == 'T';
    NeedsOne("A", "D", "D", {}, AT_FIRST.unavailable);
    assert AffectedGroup(SHALLOW_RULES["A"], "D", {}, AT_FIRST.unavailable);
    assert SHALLOW_RULES["A"].status == Verified && "A" !in AT_FIRST.unavailable;
    assert ["T", "D"] + ["A"] == ["T", "D", "A"] && ["T", "D"] + ["C"] == ["T", "D", "C"];
    assert AddTo(AT_FIRST, "D", "A").paths == AT_FIRST.paths["A" := ["T", "D", "A"]] == WITH_A.paths;
    assert ScanOne(SHALLOW_RULES, {}, "D", "A", AT_FIRST) == WITH_A;
    NeedsTwo("C", "A", "D", "D", {}, WITH_A.unavailable);
    assert AddTo(WITH_A, "D", "C").paths == WITH_A.paths["C" := ["T", "D", "C"]] == WITH_C.paths;
    assert ScanOne(SHALLOW_RULES, {}, "D", "C", WITH_A) == WITH_C;
  }

  lemma ShallowLayers()
    ensures Layer(SHALLOW_RULES, {}, "T", {"T", "D"}, 0) == {"T", "D"}
    ensures Layer(SHALLOW_RULES, {}, "T", {"T", "D"}, 1) == {"T", "D", "A"}
    ensures "C" in Layer(SHALLOW_RULES, {}, "T", {"T", "D"}, 2)
  {
    hide Needs;
    assert "A"[0] == 'A' && "C"[0] == 'C' && "D"[0] == 'D' && "T"[0] == 'T';
    var base := {"T", "D"};
    PropagatesOne("A", "D", base);
    PropagatesOne("D", "T", base);
    PropagatesTwo("C", "A", "D", base);
    PropagatesTwo("C", "A", "D", {"T", "D", "A"});
    assert !Propagates(SHALLOW_RULES, {}, "T", base, "T");
  }

  lemma PropagatesOne(code: Code, x: Code, u: set<Code>)
    requires code in SHALLOW_RULES && SHALLOW_RULES[code] == Needs(code, [x])
    ensures Propagates(SHALLOW_RULES, {}, "T", u, code) <==> x in u && x != "T"
  {
    var g := Group(1, Prerequisite, [x]);
    assert Needs(code, [x]).groups[0] == g && g.options[0] == x;
    assert Ready(g, {}, u) <==> x in u;
    assert HasOther(g, "T") <==> x != "T";
  }

  lemma PropagatesTwo(code: Code, x: Code, y: Code, u: set<Code>)
    requires code in SHALLOW_RULES && SHALLOW_RULES[code] == Needs(code, [x, y]) && x != "T"
    ensures Propagates(SHALLOW_RULES, {}, "T", u, code) <==> x in u && y in u
  {
    var g := Group(1, Prerequisite, [x, y]);
    assert Needs(code, [x, y]).groups[0] == g && g.options[0] == x && g.options[1] == y;
    assert x in g.options && y in g.options;
    assert Ready(g, {}, u) <==> x in u && y in u;
    assert HasOther(g, "T");
    assert SHALLOW_RULES[code].groups == [g];
    assert forall h :: h in SHALLOW_RULES[code].groups <==> h == g;
  }

  const SHALLOW_CATALOG := Catalog("P", SHALLOW_PLAN, {"T", "D", "A", "C"}, false, {})

  lemma NeedsAre(code: Code, x: Code)
    ensures Needs(code, [x]).code == code && Needs(code, [x]).status == Verified && Needs(code, [x]).groups == [Group(1, Prerequisite, [x])]
  {
  }

  lemma ShallowUses(code: Code)
    requires code in SHALLOW_RULES
    ensures UsesOption(SHALLOW_RULES[code], "T") <==> code == "D"
  {
    assert "A"[0] == 'A' && "C"[0] == 'C' && "D"[0] == 'D' && "T"[0] == 'T';
    assert Needs("D", ["T"]).groups[0].options[0] == "T";
  }

  /** The delay of T has exactly the direct impact D, for a student who has passed nothing. */
  lemma ShallowDirect(code: Code)
    ensures DirectlyAffected(SHALLOW_CATALOG, "T", [], code) <==> code == "D"
  {
    hide RulesOf, PassedCodes, PrerequisiteDecision, EvaluateCanTake;
    ShallowRules();
    assert "A"[0] == 'A' && "C"[0] == 'C' && "D"[0] == 'D' && "T"[0] == 'T';
    hide UsesOption, Needs;
    if DirectlyAffected(SHALLOW_CATALOG, "T", [], code) {
      OnlyAmongRules(SHALLOW_CATALOG, "T", [], code);
      ShallowUses(code);
    }
    ShallowUses("D");
    NeedsAre("D", "T");
    var with := [] + [Attempt("T", Passed)];
    assert with == [Attempt("T", Passed)];
    assert forall a :: a in with ==> a == Attempt("T", Passed);
    SilentRules();
    UngatedDecision(SHALLOW_CATALOG, "D", []);
    UngatedDecision(SHALLOW_CATALOG, "D", with);
    OneCourseDecides(Needs("D", ["T"]), "T", {});
    OneCourseDecides(Needs("D", ["T"]), "T", {"T"});
  }

  /** Course A needs D, and C one of A and D. When T is delayed D is direct, one pass finds A and then
      C, and C is reported at depth two; but it is blocked only once both A and D are, so its rank is
      three. */
  lemma ReportedBelowRank()
    ensures RulesOf(SHALLOW_PLAN) == SHALLOW_RULES
    ensures Affected("C", 2, ["T", "D", "C"]) in Worklist(RulesOf(SHALLOW_PLAN), {}, "T", DIRECT_D).found
    ensures HasRank(RulesOf(SHALLOW_PLAN), {}, "T", {"T", "D"}, "C", 3)
  {
    ShallowRules();
    ShallowListing();
    ShallowLayers();
    ShallowScan();
    hide ScanAll, Listing, Layer, Drain, RulesOf;
    assert "A"[0] == 'A' && "C"[0] == 'C' && "D"[0] == 'D' && "T"[0] == 'T';
    var w := StartWork("T", DIRECT_D, ["D"]);
    WorklistStart(SHALLOW_RULES, {}, "T", DIRECT_D, ["D"]);
    assert DIRECT_D[0].code == "D" && Codes(DIRECT_D) == {"D"};
    assert w.(queue := w.queue[1..]) == AT_FIRST;
    DrainStep(SHALLOW_RULES, {}, ["A", "C", "D", "T"], w);
    NothingLeftToFind(SHALLOW_RULES, {}, ["A", "C", "D", "T"], WITH_C);
    assert WITH_C.found[1] == Affected("C", 2, ["T", "D", "C"]);
  }
}
