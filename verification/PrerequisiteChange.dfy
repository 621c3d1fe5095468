/** The proposed catalog and the report on it (`_prerequisite` in apps/api/app/change_impact/engine.py). */
module PrerequisiteChange {
  import opened Wrappers
  import opened Ordering
  import opened AcademicRules
  import opened PrerequisiteGraph
  import opened ChangeImpact

  datatype Delta = Delta(planId: string, target: Code, number: int, kind: DependencyType,
                         oldOptions: seq<Code>, newOptions: seq<Code>)

  datatype Status = Unknown | Review | Unchanged | Changed

  datatype Limitation = RecomputationInputUnavailable | BaselineMismatch
                      | SourceConflictOrUnresolved | FanoutLimitExceeded | SourceVersionUnverified

  datatype Comparison = Comparison(reference: Code, before: Decision, after: Decision)

  /** The group the report is about, with its options before and after when they were compared. */
  datatype Fact = Fact(target: Code, number: int, change: Option<(seq<Code>, seq<Code>)>)

  datatype DecisionClass = Eligibility | Recommendations | SemesterPlanner | DegreePath

  datatype Report = Report(status: Status, facts: seq<Fact>, decisions: set<DecisionClass>, courses: seq<Code>,
                           comparisons: seq<Comparison>, limitations: set<Limitation>, review: bool)

  // ---- The edit -----------------------------------------------------------------------

  function FindGroup(groups: seq<Group>, number: int): (r: Option<Group>)
    ensures r.Some? ==> r.value in groups && r.value.number == number
    ensures r.None? ==> forall g :: g in groups ==> g.number != number
  {
    if groups == [] then None
    else if groups[0].number == number then Some(groups[0])
    else FindGroup(groups[1..], number)
  }

  function ReplaceGroup(groups: seq<Group>, number: int, proposed: Group): seq<Group> {
    seq(|groups|, i requires 0 <= i < |groups| => if groups[i].number == number then proposed else groups[i])
  }

  function ReplaceRule(plan: seq<Rule>, target: Code, proposed: Rule): seq<Rule> {
    seq(|plan|, i requires 0 <= i < |plan| => if plan[i].code == target then proposed else plan[i])
  }

  /** The recorded group matches what the delta claims to change. */
  predicate BaselineMatches(plan: seq<Rule>, d: Delta) {
    var rules := RulesOf(plan);
    && d.target in rules && rules[d.target].status == Verified
    && var found := FindGroup(rules[d.target].groups, d.number);
       found.Some? && found.value.kind == d.kind && found.value.options == d.oldOptions
  }

  /** `FindGroup` finds the first group of that number. */
  lemma {:induction false} FindsFirst(groups: seq<Group>, number: int, k: nat)
    requires k < |groups| && groups[k].number == number && forall i :: 0 <= i < k ==> groups[i].number != number
    ensures FindGroup(groups, number) == Some(groups[k])
  {
    if k > 0 { FindsFirst(groups[1..], number, k - 1); }
  }

  /** The baseline matches exactly when the course has a VERIFIED rule in which the first group of the
      given number is of the given kind and lists the old options in their order. */
  lemma BaselineMatchesExactly(plan: seq<Rule>, d: Delta)
    ensures BaselineMatches(plan, d) <==>
            && d.target in RulesOf(plan) && RulesOf(plan)[d.target].status == Verified
            && var groups := RulesOf(plan)[d.target].groups;
               exists k :: 0 <= k < |groups| && groups[k] == Group(d.number, d.kind, d.oldOptions)
                           && forall i :: 0 <= i < k ==> groups[i].number != d.number
  {
    hide RulesOf;
    if d.target in RulesOf(plan) {
      var groups := RulesOf(plan)[d.target].groups;
      if exists k :: 0 <= k < |groups| && groups[k].number == d.number {
        var k := FirstOf(groups, d.number);
        FindsFirst(groups, d.number, k);
      }
    }
  }

  lemma FirstOf(groups: seq<Group>, number: int) returns (k: nat)
    requires exists i :: 0 <= i < |groups| && groups[i].number == number
    ensures k < |groups| && groups[k].number == number && forall i :: 0 <= i < k ==> groups[i].number != number
  {
    var last :| 0 <= last < |groups| && groups[last].number == number;
    k := 0;
    while groups[k].number != number
      invariant k <= last && forall i :: 0 <= i < k ==> groups[i].number != number
      decreases last - k
    {
      k := k + 1;
    }
  }

  function ProposedRule(rule: Rule, d: Delta): Rule
    requires FindGroup(rule.groups, d.number).Some?
  {
    var group := FindGroup(rule.groups, d.number).value;
    rule.(groups := ReplaceGroup(rule.groups, d.number, group.(options := d.newOptions)))
  }

  function ProposedPlan(plan: seq<Rule>, d: Delta): seq<Rule>
    requires BaselineMatches(plan, d)
  {
    ReplaceRule(plan, d.target, ProposedRule(RulesOf(plan)[d.target], d))
  }

  function Swapped(d: Delta): Delta {
    d.(oldOptions := d.newOptions, newOptions := d.oldOptions)
  }

  predicate UniqueNumbers(groups: seq<Group>) {
    forall i, j :: 0 <= i < j < |groups| ==> groups[i].number != groups[j].number
  }

  lemma ReplaceRuleSnoc(front: seq<Rule>, last: Rule, target: Code, proposed: Rule)
    ensures ReplaceRule(front + [last], target, proposed)
            == ReplaceRule(front, target, proposed) + [if last.code == target then proposed else last]
  {
  }

  function Replaced(rules: map<Code, Rule>, target: Code, proposed: Rule): map<Code, Rule> {
    if target in rules then rules[target := proposed] else rules
  }

  lemma ReplacedUpdate(rules: map<Code, Rule>, last: Rule, target: Code, proposed: Rule)
    requires proposed.code == target
    ensures var last' := if last.code == target then proposed else last;
            Replaced(rules, target, proposed)[last'.code := last'] == Replaced(rules[last.code := last], target, proposed)
  {
  }

  lemma {:induction false} ReplaceRuleRules(plan: seq<Rule>, target: Code, proposed: Rule)
    requires proposed.code == target
    ensures RulesOf(ReplaceRule(plan, target, proposed)) == Replaced(RulesOf(plan), target, proposed)
  {
    if plan != [] {
      var front, last := plan[..|plan| - 1], plan[|plan| - 1];
      var last' := if last.code == target then proposed else last;
      hide RulesOf, ReplaceRule, Replaced;
      assert plan == front + [last];
      calc {
        RulesOf(ReplaceRule(plan, target, proposed));
        { ReplaceRuleSnoc(front, last, target, proposed); }
        RulesOf(ReplaceRule(front, target, proposed) + [last']);
        { RulesOfSnoc(ReplaceRule(front, target, proposed), last'); }
        RulesOf(ReplaceRule(front, target, proposed))[last'.code := last'];
        { ReplaceRuleRules(front, target, proposed); }
        Replaced(RulesOf(front), target, proposed)[last'.code := last'];
        { ReplacedUpdate(RulesOf(front), last, target, proposed); }
        Replaced(RulesOf(front)[last.code := last], target, proposed);
        { RulesOfSnoc(front, last); }
        Replaced(RulesOf(plan), target, proposed);
      }
    }
  }

  /** In rule terms the edit rewrites the target's rule and no other. */
  lemma ProposedRules(plan: seq<Rule>, d: Delta)
    requires BaselineMatches(plan, d)
    ensures RulesOf(ProposedPlan(plan, d))
            == RulesOf(plan)[d.target := ProposedRule(RulesOf(plan)[d.target], d)]
  {
    ReplaceRuleRules(plan, d.target, ProposedRule(RulesOf(plan)[d.target], d));
  }

  /** With unique numbers, the edit changes the options of the one named group, nothing else. */
  lemma EditTouchesOneGroup(plan: seq<Rule>, d: Delta)
    requires BaselineMatches(plan, d) && UniqueCodes(plan)
    requires UniqueNumbers(RulesOf(plan)[d.target].groups)
    ensures |ProposedPlan(plan, d)| == |plan|
    ensures forall i :: 0 <= i < |plan| && plan[i].code != d.target ==> ProposedPlan(plan, d)[i] == plan[i]
    ensures forall i :: 0 <= i < |plan| && plan[i].code == d.target ==>
              var before, after := plan[i], ProposedPlan(plan, d)[i];
              && after == before.(groups := after.groups) && |after.groups| == |before.groups|
              && forall k :: 0 <= k < |before.groups| ==>
                   after.groups[k] == if before.groups[k].number == d.number
                                      then before.groups[k].(options := d.newOptions) else before.groups[k]
  {
    forall i | 0 <= i < |plan| && plan[i].code == d.target ensures plan[i] == RulesOf(plan)[d.target] {
      RulesOfUnique(plan, plan[i]);
    }
  }

  lemma {:induction false} FindUnique(groups: seq<Group>, k: nat)
    requires k < |groups| && UniqueNumbers(groups)
    ensures FindGroup(groups, groups[k].number) == Some(groups[k])
  {
    if k > 0 { FindUnique(groups[1..], k - 1); }
  }

  lemma ProposedGroupFound(rule: Rule, d: Delta)
    requires UniqueNumbers(rule.groups) && FindGroup(rule.groups, d.number).Some?
    ensures var after := ProposedRule(rule, d).groups;
            && UniqueNumbers(after)
            && FindGroup(after, d.number) == Some(FindGroup(rule.groups, d.number).value.(options := d.newOptions))
  {
    var after := ProposedRule(rule, d).groups;
    var g := FindGroup(rule.groups, d.number).value;
    var k :| 0 <= k < |rule.groups| && rule.groups[k] == g;
    forall i | 0 <= i < |after| ensures after[i].number == rule.groups[i].number {}
    FindUnique(after, k);
  }

  /** Proposing the reverse change on the proposed catalog restores the original. */
  lemma SwappedDeltaRestores(plan: seq<Rule>, d: Delta)
    requires BaselineMatches(plan, d) && UniqueCodes(plan)
    requires UniqueNumbers(RulesOf(plan)[d.target].groups)
    ensures BaselineMatches(ProposedPlan(plan, d), Swapped(d))
    ensures ProposedPlan(ProposedPlan(plan, d), Swapped(d)) == plan
  {
    var rule := RulesOf(plan)[d.target];
    var once := ProposedPlan(plan, d);
    ProposedRules(plan, d);
    ProposedGroupFound(rule, d);
    var back := ProposedRule(ProposedRule(rule, d), Swapped(d));
    assert back.groups == rule.groups by {
      forall k | 0 <= k < |rule.groups| ensures back.groups[k] == rule.groups[k] {
        FindUnique(rule.groups, k);
      }
    }
    assert back == rule;
    var twice := ProposedPlan(once, Swapped(d));
    forall i | 0 <= i < |plan| ensures twice[i] == plan[i] {
      if plan[i].code == d.target { RulesOfUnique(plan, plan[i]); }
    }
  }

  // ---- What the edit leaves alone -----------------------------------------------------

  /** Rules that agree everywhere but on the target. */
  ghost predicate AgreeExcept(before: map<Code, Rule>, after: map<Code, Rule>, target: Code) {
    before.Keys == after.Keys && forall c :: c in before && c != target ==> before[c] == after[c]
  }

  lemma {:induction false} WithinUnaffected(before: map<Code, Rule>, after: map<Code, Rule>, target: Code, n: nat)
    requires AgreeExcept(before, after, target)
    ensures Within(before, target, n) == Within(after, target, n)
  {
    if n > 0 {
      WithinUnaffected(before, after, target, n - 1);
      WithinMonotone(before, target, 0, n - 1);
      var w := Within(before, target, n - 1);
      assert target in w;
      assert Within(before, target, n) == w + Step(before, w) && Within(after, target, n) == w + Step(after, w);
      DependentsAgree(before, after, target);
      StepAgrees(before, after, target, w);
      StepAgrees(after, before, target, w);
      hide *;
      SameWith(w, Step(before, w), Step(after, w), target);
    }
  }

  lemma SameWith(w: set<Code>, a: set<Code>, b: set<Code>, target: Code)
    requires target in w && a - {target} <= b && b - {target} <= a
    ensures w + a == w + b
  {
  }

  lemma DependentsAgree(before: map<Code, Rule>, after: map<Code, Rule>, target: Code)
    requires AgreeExcept(before, after, target)
    ensures forall x, c :: c != target ==> (c in Dependents(before, x) <==> c in Dependents(after, x))
  {
    hide UsesOption;
  }

  lemma StepAgrees(before: map<Code, Rule>, after: map<Code, Rule>, target: Code, w: set<Code>)
    requires forall x, c :: c != target ==> (c in Dependents(before, x) <==> c in Dependents(after, x))
    ensures Step(before, w) - {target} <= Step(after, w)
  {
    hide Dependents;
    forall c | c in Step(before, w) - {target} ensures c in Step(after, w) {
      var x :| x in w && c in Dependents(before, x);
    }
  }

  /** Changing a course's own prerequisites never changes what lies downstream of it. */
  lemma DownstreamUnaffected(plan: seq<Rule>, d: Delta, maxNodes: int)
    requires BaselineMatches(plan, d)
    ensures var before, after := RulesOf(plan), RulesOf(ProposedPlan(plan, d));
            && (forall x :: Reachable(before, d.target, x) <==> Reachable(after, d.target, x))
            && (TooWide(before, d.target, maxNodes) <==> TooWide(after, d.target, maxNodes))
  {
    ProposedAgrees(plan, d);
    hide *;
    ReachUnaffected(RulesOf(plan), RulesOf(ProposedPlan(plan, d)), d.target, maxNodes);
  }

  lemma ProposedAgrees(plan: seq<Rule>, d: Delta)
    requires BaselineMatches(plan, d)
    ensures AgreeExcept(RulesOf(plan), RulesOf(ProposedPlan(plan, d)), d.target)
  {
    ProposedRules(plan, d);
  }

  lemma ReachUnaffected(before: map<Code, Rule>, after: map<Code, Rule>, target: Code, maxNodes: int)
    requires AgreeExcept(before, after, target)
    ensures forall x :: Reachable(before, target, x) <==> Reachable(after, target, x)
    ensures TooWide(before, target, maxNodes) <==> TooWide(after, target, maxNodes)
  {
    hide AgreeExcept, Within;
    forall n: nat ensures Within(before, target, n) == Within(after, target, n) {
      WithinUnaffected(before, after, target, n);
    }
  }

  /** No course downstream of the target is one of the target's own options. */
  ghost predicate NoCycleThrough(rules: map<Code, Rule>, target: Code) {
    forall x :: Reachable(rules, target, x) ==> target !in Dependents(rules, x)
  }

  /** Unless the target sits on a cycle, the depth refusal agrees as well, so the search answers
      the same on the old and on the proposed rules. */
  lemma RefusalUnaffectedWithoutCycle(plan: seq<Rule>, d: Delta, maxDepth: nat)
    requires BaselineMatches(plan, d)
    requires NoCycleThrough(RulesOf(plan), d.target) && NoCycleThrough(RulesOf(ProposedPlan(plan, d)), d.target)
    ensures TooDeep(RulesOf(plan), d.target, maxDepth) <==> TooDeep(RulesOf(ProposedPlan(plan, d)), d.target, maxDepth)
  {
    ProposedRules(plan, d);
    var before, after := RulesOf(plan), RulesOf(ProposedPlan(plan, d));
    assert AgreeExcept(before, after, d.target);
    if TooDeep(before, d.target, maxDepth) { TooDeepTransfers(before, after, d.target, maxDepth); }
    if TooDeep(after, d.target, maxDepth) { TooDeepTransfers(after, before, d.target, maxDepth); }
  }

  lemma TooDeepTransfers(before: map<Code, Rule>, after: map<Code, Rule>, target: Code, maxDepth: nat)
    requires AgreeExcept(before, after, target) && NoCycleThrough(before, target)
    requires TooDeep(before, target, maxDepth)
    ensures TooDeep(after, target, maxDepth)
  {
    hide UsesOption, Within;
    var x :| AtDistance(before, target, x, maxDepth) && Dependents(before, x) != {};
    WithinUnaffected(before, after, target, maxDepth);
    if maxDepth > 0 { WithinUnaffected(before, after, target, maxDepth - 1); }
    assert AtDistance(after, target, x, maxDepth);
    assert Reachable(before, target, x);
    var c :| c in Dependents(before, x);
    assert c != target && c in Dependents(after, x);
  }

  /** Some course at the depth bound has a dependent other than the target. */
  ghost predicate FrontierGoesOn(rules: map<Code, Rule>, target: Code, maxDepth: nat) {
    exists x, c :: AtDistance(rules, target, x, maxDepth) && c in Dependents(rules, x) && c != target
  }

  /** The target lists some course at the depth bound as one of its own options. */
  ghost predicate TargetUsesFrontier(rules: map<Code, Rule>, target: Code, maxDepth: nat) {
    exists x :: AtDistance(rules, target, x, maxDepth) && target in Dependents(rules, x)
  }

  lemma FrontierTransfers(before: map<Code, Rule>, after: map<Code, Rule>, target: Code, maxDepth: nat)
    requires AgreeExcept(before, after, target) && FrontierGoesOn(before, target, maxDepth)
    ensures FrontierGoesOn(after, target, maxDepth)
  {
    hide UsesOption, Within;
    var x, c :| AtDistance(before, target, x, maxDepth) && c in Dependents(before, x) && c != target;
    WithinUnaffected(before, after, target, maxDepth);
    if maxDepth > 0 { WithinUnaffected(before, after, target, maxDepth - 1); }
    assert AtDistance(after, target, x, maxDepth) && c in Dependents(after, x);
  }

  /** The depth refusal differs between the old and the proposed rules exactly when nothing but the
      target itself lies beyond the bound and only one of the two lets the target close the cycle. */
  lemma RefusalChangesExactlyByCycle(plan: seq<Rule>, d: Delta, maxDepth: nat)
    requires BaselineMatches(plan, d)
    ensures var before, after := RulesOf(plan), RulesOf(ProposedPlan(plan, d));
            (TooDeep(before, d.target, maxDepth) <==> TooDeep(after, d.target, maxDepth)) <==>
            || FrontierGoesOn(before, d.target, maxDepth)
            || (TargetUsesFrontier(before, d.target, maxDepth) <==> TargetUsesFrontier(after, d.target, maxDepth))
  {
    ProposedRules(plan, d);
    var before, after := RulesOf(plan), RulesOf(ProposedPlan(plan, d));
    assert AgreeExcept(before, after, d.target);
    if FrontierGoesOn(before, d.target, maxDepth) { FrontierTransfers(before, after, d.target, maxDepth); }
    if FrontierGoesOn(after, d.target, maxDepth) { FrontierTransfers(after, before, d.target, maxDepth); }
    TooDeepSplits(before, d.target, maxDepth);
    TooDeepSplits(after, d.target, maxDepth);
  }

  /** The search answers the same on the old and on the proposed rules, the same courses or a
      refusal on both, exactly when it is too wide anyway or the depth refusal agrees. */
  lemma SearchesAgreeExactly(plan: seq<Rule>, d: Delta, maxNodes: int, maxDepth: nat,
                             before: Option<seq<Code>>, after: Option<seq<Code>>)
    requires BaselineMatches(plan, d)
    requires Answers(RulesOf(plan), d.target, maxNodes, maxDepth, before)
    requires Answers(RulesOf(ProposedPlan(plan, d)), d.target, maxNodes, maxDepth, after)
    ensures var oldRules, newRules := RulesOf(plan), RulesOf(ProposedPlan(plan, d));
            before == after <==>
            || TooWide(oldRules, d.target, maxNodes) || FrontierGoesOn(oldRules, d.target, maxDepth)
            || (TargetUsesFrontier(oldRules, d.target, maxDepth) <==> TargetUsesFrontier(newRules, d.target, maxDepth))
  {
    hide RulesOf, ProposedPlan, Sorted, Distinct, TooWide, TooDeep, FrontierGoesOn, TargetUsesFrontier, BaselineMatches, Reachable;
    DownstreamUnaffected(plan, d, maxNodes);
    RefusalChangesExactlyByCycle(plan, d, maxDepth);
    if before.Some? && after.Some? {
      assert forall x :: x in Elements(before.value) <==> x in Elements(after.value);
      ListingUnique(before.value, after.value);
    }
  }

  lemma TooDeepSplits(rules: map<Code, Rule>, target: Code, maxDepth: nat)
    ensures TooDeep(rules, target, maxDepth) <==> FrontierGoesOn(rules, target, maxDepth) || TargetUsesFrontier(rules, target, maxDepth)
  {
    hide UsesOption, Within;
    if TooDeep(rules, target, maxDepth) {
      var x :| AtDistance(rules, target, x, maxDepth) && Dependents(rules, x) != {};
      var c :| c in Dependents(rules, x);
      assert c == target ==> TargetUsesFrontier(rules, target, maxDepth);
    }
  }

  const CYCLE_DELTA := Delta("P", "T", 1, Prerequisite, ["A"], ["X"])

  function OneOption(code: Code, option: Code): Rule {
    Rule(code, Verified, [Group(1, Prerequisite, [option])], None)
  }

  lemma OneOptionUses(code: Code, option: Code, x: Code)
    ensures UsesOption(OneOption(code, option), x) <==> x == option
  {
    assert OneOption(code, option).groups[0].options[0] == option;
  }

  lemma CycleExampleRules()
    ensures var plan := [OneOption("T", "A"), OneOption("X", "T")];
            && BaselineMatches(plan, CYCLE_DELTA)
            && RulesOf(plan) == map["T" := OneOption("T", "A"), "X" := OneOption("X", "T")]
            && RulesOf(ProposedPlan(plan, CYCLE_DELTA)) == map["T" := OneOption("T", "X"), "X" := OneOption("X", "T")]
  {
    var plan := [OneOption("T", "A"), OneOption("X", "T")];
    assert [OneOption("T", "A")] == [] + [OneOption("T", "A")];
    assert plan == [OneOption("T", "A")] + [OneOption("X", "T")];
    RulesOfSnoc([], OneOption("T", "A"));
    RulesOfSnoc([OneOption("T", "A")], OneOption("X", "T"));
    ProposedRules(plan, CYCLE_DELTA);
    assert ProposedRule(OneOption("T", "A"), CYCLE_DELTA) == OneOption("T", "X");
  }

  /** The proviso is needed: making a downstream course an option of the target adds an edge back
      to it, and at a depth bound of one that edge alone turns an answer into a refusal. */
  lemma CycleChangesRefusal()
    ensures var plan := [OneOption("T", "A"), OneOption("X", "T")];
            && BaselineMatches(plan, CYCLE_DELTA)
            && !TooDeep(RulesOf(plan), "T", 1) && TooDeep(RulesOf(ProposedPlan(plan, CYCLE_DELTA)), "T", 1)
  {
    hide RulesOf, ProposedPlan, OneOption, UsesOption;
    CycleExampleRules();
    var plan := [OneOption("T", "A"), OneOption("X", "T")];
    var before, after := RulesOf(plan), RulesOf(ProposedPlan(plan, CYCLE_DELTA));
    OneOptionUses("T", "A", "T"); OneOptionUses("T", "A", "X"); OneOptionUses("T", "X", "X");
    OneOptionUses("X", "T", "T"); OneOptionUses("X", "T", "X");
    assert Dependents(before, "T") == {"X"} && Dependents(before, "X") == {};
    assert Step(before, {"T"}) == {"X"};
    assert Within(before, "T", 0) == {"T"} && Within(before, "T", 1) == {"T", "X"};
    WithinUnaffected(before, after, "T", 1);
    assert "T" in Dependents(after, "X");
    assert AtDistance(after, "T", "X", 1);
  }

  /** The edit cannot change the eligibility of any course but the target itself. */
  lemma OnlyTargetEligibilityChanges(catalog: Catalog, d: Delta, code: Code, attempts: seq<Attempt>)
    requires BaselineMatches(catalog.plan, d) && UniqueCodes(catalog.plan) && code != d.target
    ensures EvaluateCanTake(catalog.(plan := ProposedPlan(catalog.plan, d)), code, attempts)
            == EvaluateCanTake(catalog, code, attempts)
  {
    hide PrerequisiteDecision, EarnedFrom, RulesOf, ProposedPlan;
    ProposedRules(catalog.plan, d);
    CreditHoursUnaffected(catalog.plan, d);
  }

  lemma CreditHoursUnaffected(plan: seq<Rule>, d: Delta)
    requires BaselineMatches(plan, d) && UniqueCodes(plan)
    ensures CreditHours(ProposedPlan(plan, d)) == CreditHours(plan)
  {
    forall i | 0 <= i < |plan| ensures CreditHours(ProposedPlan(plan, d))[i] == CreditHours(plan)[i] {
      if plan[i].code == d.target { RulesOfUnique(plan, plan[i]); }
    }
  }

  // ---- The report ---------------------------------------------------------------------

  function Compared(catalog: Catalog, proposed: Catalog, codes: seq<Code>, attempts: seq<Attempt>): seq<Comparison> {
    if codes == [] then []
    else
      var last := codes[|codes| - 1];
      var before, after := EvaluateCanTake(catalog, last, attempts), EvaluateCanTake(proposed, last, attempts);
      Compared(catalog, proposed, codes[..|codes| - 1], attempts)
      + (if before.Decided? && after.Decided? then [Comparison(last, before.decision, after.decision)] else [])
  }

  /** A comparison sets the decision on the recorded rules before the one on the proposed rules, and there
      is one for exactly the courses that both can answer. */
  lemma {:induction false} ComparedExactly(catalog: Catalog, proposed: Catalog, codes: seq<Code>, attempts: seq<Attempt>)
    ensures forall c :: c in Compared(catalog, proposed, codes, attempts) <==>
              && c.reference in codes
              && EvaluateCanTake(catalog, c.reference, attempts) == Decided(c.before)
              && EvaluateCanTake(proposed, c.reference, attempts) == Decided(c.after)
  {
    hide EvaluateCanTake;
    if codes != [] {
      var front, last := codes[..|codes| - 1], codes[|codes| - 1];
      assert codes == front + [last];
      ComparedExactly(catalog, proposed, front, attempts);
    }
  }

  lemma {:induction false} OnlyTargetComparisonMoves(catalog: Catalog, d: Delta, codes: seq<Code>, attempts: seq<Attempt>)
    requires BaselineMatches(catalog.plan, d) && UniqueCodes(catalog.plan)
    ensures forall c :: c in Compared(catalog, catalog.(plan := ProposedPlan(catalog.plan, d)), codes, attempts)
                        ==> c.reference == d.target || c.before == c.after
  {
    if codes != [] {
      OnlyTargetComparisonMoves(catalog, d, codes[..|codes| - 1], attempts);
      var last := codes[|codes| - 1];
      if last != d.target { OnlyTargetEligibilityChanges(catalog, d, last, attempts); }
    }
  }

  /** Neither the recorded nor the proposed rules decide the course without a reviewer. */
  predicate Unresolved(catalog: Catalog, proposed: Catalog, code: Code, attempts: seq<Attempt>) {
    var before, after := EvaluateCanTake(catalog, code, attempts), EvaluateCanTake(proposed, code, attempts);
    || before.RequestError? || after.RequestError?
    || before.decision == ReviewRequired || after.decision == ReviewRequired
  }

  predicate AnyUnresolved(catalog: Catalog, proposed: Catalog, codes: seq<Code>, attempts: seq<Attempt>) {
    exists i :: 0 <= i < |codes| && Unresolved(catalog, proposed, codes[i], attempts)
  }

  /** That is so exactly when one of the two gives no eligibility: neither eligible nor not eligible. */
  lemma UnresolvedExactly(catalog: Catalog, proposed: Catalog, codes: seq<Code>, attempts: seq<Attempt>)
    ensures AnyUnresolved(catalog, proposed, codes, attempts) <==>
            exists c :: c in codes
                        && (|| EvaluateCanTake(catalog, c, attempts) !in {Decided(Eligible), Decided(NotEligible)}
                            || EvaluateCanTake(proposed, c, attempts) !in {Decided(Eligible), Decided(NotEligible)})
  {
    hide EvaluateCanTake;
    if c :| c in codes
            && (|| EvaluateCanTake(catalog, c, attempts) !in {Decided(Eligible), Decided(NotEligible)}
                || EvaluateCanTake(proposed, c, attempts) !in {Decided(Eligible), Decided(NotEligible)}) {
      var i :| 0 <= i < |codes| && codes[i] == c;
      assert Unresolved(catalog, proposed, codes[i], attempts);
    }
  }

  lemma AnyUnresolvedSnoc(catalog: Catalog, proposed: Catalog, front: seq<Code>, last: Code, attempts: seq<Attempt>)
    ensures AnyUnresolved(catalog, proposed, front + [last], attempts)
            <==> AnyUnresolved(catalog, proposed, front, attempts) || Unresolved(catalog, proposed, last, attempts)
  {
    var codes := front + [last];
    hide Unresolved;
    if AnyUnresolved(catalog, proposed, front, attempts) {
      var i :| 0 <= i < |front| && Unresolved(catalog, proposed, front[i], attempts);
      assert codes[i] == front[i];
    }
    assert codes[|front|] == last;
  }

  /** The report on a proposed group. It claims CHANGED only on a matching verified baseline with
      known new options and a complete fan-out, lists exactly the courses reachable from the target,
      and, although all of those are re-evaluated, only the target's own eligibility ever differs. */
  method PrerequisiteReport(d: Delta, catalog: Option<Catalog>, attempts: Option<seq<Attempt>>,
                      maxNodes: int, maxDepth: nat)
    returns (report: Report)
    requires 1 <= maxNodes <= 100 && 1 <= maxDepth <= 20
    ensures report.status == Unknown <==>
            catalog.None? || catalog.value.planId != d.planId || d.target !in RulesOf(catalog.value.plan)
    ensures report.status == Changed <==>
            && report.status != Unknown && BaselineMatches(catalog.value.plan, d)
            && (forall c :: c in d.newOptions ==> c in catalog.value.courses)
            && d.newOptions != d.oldOptions
            && !TooWide(RulesOf(catalog.value.plan), d.target, maxNodes)
            && !TooDeep(RulesOf(catalog.value.plan), d.target, maxDepth)
    ensures report.status == Unchanged <==>
            && report.status != Unknown && BaselineMatches(catalog.value.plan, d)
            && (forall c :: c in d.newOptions ==> c in catalog.value.courses)
            && d.newOptions == d.oldOptions
    ensures report.status == Changed ==>
              && (forall x :: x in report.courses <==> Reachable(RulesOf(catalog.value.plan), d.target, x))
              && Sorted(StrLe, report.courses) && Distinct(report.courses)
              && report.comparisons == (if attempts.None? then [] else
                   Compared(catalog.value, catalog.value.(plan := ProposedPlan(catalog.value.plan, d)), report.courses, attempts.value))
              && (UniqueCodes(catalog.value.plan) ==>
                    forall c :: c in report.comparisons ==> c.reference == d.target || c.before == c.after)
    ensures report.status != Changed ==> report.courses == [] && report.comparisons == []
    ensures report.review <==> report.status != Unchanged
    ensures report.limitations ==
              match report.status
              case Unknown => {RecomputationInputUnavailable}
              case Unchanged => {}
              case Review =>
                if !BaselineMatches(catalog.value.plan, d) then {BaselineMismatch}
                else if exists c :: c in d.newOptions && c !in catalog.value.courses then {SourceConflictOrUnresolved}
                else {FanoutLimitExceeded}
              case Changed =>
                {SourceVersionUnverified, RecomputationInputUnavailable}
                + (if attempts.Some? && AnyUnresolved(catalog.value, catalog.value.(plan := ProposedPlan(catalog.value.plan, d)),
                                                      report.courses, attempts.value)
                   then {SourceConflictOrUnresolved} else {})
    ensures report.facts ==
              if report.status == Changed then [Fact(d.target, d.number, Some((d.oldOptions, d.newOptions)))]
              else if report.status == Review && !BaselineMatches(catalog.value.plan, d) then [Fact(d.target, d.number, None)]
              else []
    ensures report.decisions == if report.status == Changed then {Eligibility, Recommendations, SemesterPlanner, DegreePath} else {}
  {
    hide EvaluateCanTake, TooWide, TooDeep, Reachable, Sorted, Distinct, ProposedPlan, UniqueCodes, RulesOf, FindGroup;
    if catalog.None? || catalog.value.planId != d.planId {
      return Report(Unknown, [], {}, [], [], {RecomputationInputUnavailable}, true);
    }
    var cat := catalog.value;
    var rules := RulesOf(cat.plan);
    if d.target !in rules {
      return Report(Unknown, [], {}, [], [], {RecomputationInputUnavailable}, true);
    }
    var found := FindGroup(rules[d.target].groups, d.number);
    if rules[d.target].status != Verified || found.None? || found.value.kind != d.kind || found.value.options != d.oldOptions {
      return Report(Review, [Fact(d.target, d.number, None)], {}, [], [], {BaselineMismatch}, true);
    }
    if exists c :: c in d.newOptions && c !in cat.courses {
      return Report(Review, [], {}, [], [], {SourceConflictOrUnresolved}, true);
    }
    if d.newOptions == d.oldOptions {
      return Report(Unchanged, [], {}, [], [], {}, false);
    }
    var affected := Downstream(rules, d.target, maxNodes, maxDepth);
    if affected.None? {
      return Report(Review, [], {}, [], [], {FanoutLimitExceeded}, true);
    }
    var proposed := cat.(plan := ProposedPlan(cat.plan, d));
    var comparisons: seq<Comparison> := [];
    var limitations := {SourceVersionUnverified};
    if attempts.Some? {
      var i := 0;
      while i < |affected.value|
        invariant 0 <= i <= |affected.value|
        invariant comparisons == Compared(cat, proposed, affected.value[..i], attempts.value)
        invariant limitations == {SourceVersionUnverified}
                  + (if AnyUnresolved(cat, proposed, affected.value[..i], attempts.value) then {SourceConflictOrUnresolved} else {})
      {
        var code := affected.value[i];
        assert affected.value[..i + 1][..i] == affected.value[..i];
        assert affected.value[..i + 1] == affected.value[..i] + [code];
        AnyUnresolvedSnoc(cat, proposed, affected.value[..i], code, attempts.value);
        var before := EvaluateCanTake(cat, code, attempts.value);
        var after := EvaluateCanTake(proposed, code, attempts.value);
        if before.RequestError? || after.RequestError? {
          limitations := limitations + {SourceConflictOrUnresolved};
        } else {
          if before.decision == ReviewRequired || after.decision == ReviewRequired {
            limitations := limitations + {SourceConflictOrUnresolved};
          }
          comparisons := comparisons + [Comparison(code, before.decision, after.decision)];
        }
        i := i + 1;
      }
      assert affected.value[..i] == affected.value;
      if UniqueCodes(cat.plan) { OnlyTargetComparisonMoves(cat, d, affected.value, attempts.value); }
    }
    report := Report(Changed, [Fact(d.target, d.number, Some((d.oldOptions, d.newOptions)))],
                     {Eligibility, Recommendations, SemesterPlanner, DegreePath}, affected.value, comparisons, limitations + {RecomputationInputUnavailable}, true);
  }
}
