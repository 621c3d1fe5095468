/** The immutable prerequisite catalog and its eligibility evaluator (apps/api/app/rules). */
module AcademicRules {
  import opened Wrappers

  type Code = string

  datatype LogicStatus = NotApplicable | Verified | Unresolved | SourceConflict
  datatype DependencyType = Prerequisite | Corequisite

  /** Options are alternatives; the groups of one rule must all be met. */
  datatype Group = Group(number: int, kind: DependencyType, options: seq<Code>)

  datatype Rule = Rule(code: Code, status: LogicStatus, groups: seq<Group>, credits: Option<real>)

  /** `courses` are the known course identities, `projects` the courses of this plan that the
      graduation policy registry gates on earned credits. */
  datatype Catalog = Catalog(planId: string, plan: seq<Rule>, courses: set<Code>,
                             completeCredits: bool, projects: set<Code>)

  datatype Outcome = Passed | Failed | InProgress | Withdrawn
  datatype Attempt = Attempt(code: Code, outcome: Outcome)

  datatype Decision = Eligible | NotEligible | ReviewRequired
  datatype CanTake = Decided(decision: Decision) | RequestError

  const MIN_EARNED_CREDITS := 90.0

  function PassedCodes(attempts: seq<Attempt>): set<Code> {
    set a | a in attempts && a.outcome == Passed :: a.code
  }

  /** `{rule.course_code: rule for rule in plan}`: a later rule replaces an earlier one. */
  function RulesOf(plan: seq<Rule>): (rules: map<Code, Rule>)
    ensures forall c :: c in rules ==> rules[c].code == c && rules[c] in plan
    ensures forall r :: r in plan ==> r.code in rules
  {
    if plan == [] then map[]
    else
      var last := plan[|plan| - 1];
      var rest := RulesOf(plan[..|plan| - 1]);
      assert plan == plan[..|plan| - 1] + [last];
      rest[last.code := last]
  }

  lemma RulesOfSnoc(front: seq<Rule>, last: Rule)
    ensures RulesOf(front + [last]) == RulesOf(front)[last.code := last]
  {
    assert (front + [last])[..|front|] == front;
  }

  predicate UniqueCodes(plan: seq<Rule>) {
    forall i, j :: 0 <= i < j < |plan| ==> plan[i].code != plan[j].code
  }

  lemma {:induction false} RulesOfUnique(plan: seq<Rule>, r: Rule)
    requires UniqueCodes(plan) && r in plan
    ensures RulesOf(plan)[r.code] == r
  {
    var last := plan[|plan| - 1];
    if r != last {
      assert plan == plan[..|plan| - 1] + [last];
      RulesOfUnique(plan[..|plan| - 1], r);
    }
  }

  function PrerequisiteGroups(groups: seq<Group>): (r: seq<Group>)
    ensures forall g :: g in r <==> g in groups && g.kind == Prerequisite
  {
    if groups == [] then []
    else (if groups[0].kind == Prerequisite then [groups[0]] else []) + PrerequisiteGroups(groups[1..])
  }

  predicate ValidGroups(groups: seq<Group>) {
    && groups != []
    && (forall g :: g in groups ==> g.number > 0 && g.options != [])
    && (forall i, j :: 0 <= i < j < |groups| ==> groups[i].number != groups[j].number)
  }

  predicate Satisfied(g: Group, passed: set<Code>) {
    exists o :: o in g.options && o in passed
  }

  function PrerequisiteDecision(rule: Rule, passed: set<Code>): Decision {
    match rule.status
    case NotApplicable => Eligible
    case Unresolved => ReviewRequired
    case SourceConflict => ReviewRequired
    case Verified =>
      var groups := PrerequisiteGroups(rule.groups);
      if !ValidGroups(groups) then ReviewRequired
      else if forall g :: g in groups ==> Satisfied(g, passed) then Eligible
      else NotEligible
  }

  /** Credit hours by course, the part of the plan the credit total depends on. */
  function CreditHours(plan: seq<Rule>): seq<(Code, Option<real>)> {
    seq(|plan|, i requires 0 <= i < |plan| => (plan[i].code, plan[i].credits))
  }

  /** A later entry for the same course replaces an earlier one. */
  predicate Overridden(hours: seq<(Code, Option<real>)>, i: nat)
    requires i < |hours|
  {
    exists j :: i < j < |hours| && hours[j].0 == hours[i].0
  }

  function EarnedFrom(hours: seq<(Code, Option<real>)>, passed: set<Code>): real {
    if hours == [] then 0.0
    else
      (if hours[0].0 in passed && hours[0].1.Some? && !Overridden(hours, 0) then hours[0].1.value else 0.0)
      + EarnedFrom(hours[1..], passed)
  }

  /** Only a complete plan snapshot establishes an earned-credit total. */
  function CompleteCredits(catalog: Catalog, passed: set<Code>): Option<real> {
    var hours := CreditHours(catalog.plan);
    if !catalog.completeCredits then None
    else if exists i :: 0 <= i < |hours| && !Overridden(hours, i) && (hours[i].1.None? || hours[i].1.value < 0.0) then None
    else Some(EarnedFrom(hours, passed))
  }

  /** The extra credit gate on a plan's graduation project; it never bypasses prerequisites. */
  function ProjectGate(base: Decision, earned: Option<real>): Decision {
    if earned.None? then (if base == Eligible then ReviewRequired else base)
    else if earned.value < MIN_EARNED_CREDITS then NotEligible
    else base
  }

  /** The credits that count for the gate: those the request states come before those computed. */
  function KnownCredits(catalog: Catalog, passed: set<Code>, stated: Option<real>): Option<real> {
    if stated.Some? then stated else CompleteCredits(catalog, passed)
  }

  /** A request with the earned credits its caller may state. */
  function EvaluateRequest(catalog: Catalog, target: Code, attempts: seq<Attempt>, stated: Option<real>): CanTake {
    var rules := RulesOf(catalog.plan);
    if target == "" || (exists a :: a in attempts && a.code == "") || (stated.Some? && stated.value < 0.0) then RequestError
    else if target !in catalog.courses || target !in rules then RequestError
    else
      var passed := PassedCodes(attempts);
      var base := PrerequisiteDecision(rules[target], passed);
      if target in catalog.projects then Decided(ProjectGate(base, KnownCredits(catalog, passed, stated)))
      else Decided(base)
  }

  /** A request that states no credits, as the delay and change analyses make it. */
  function EvaluateCanTake(catalog: Catalog, target: Code, attempts: seq<Attempt>): CanTake {
    EvaluateRequest(catalog, target, attempts, None)
  }

  /** Nothing makes a VERIFIED course eligible while one of its prerequisite groups is unmet. */
  lemma EligibleMeetsEveryGroup(catalog: Catalog, target: Code, attempts: seq<Attempt>, stated: Option<real>, g: Group)
    requires EvaluateRequest(catalog, target, attempts, stated) == Decided(Eligible)
    requires target in RulesOf(catalog.plan)
    requires RulesOf(catalog.plan)[target].status == Verified
    requires g in RulesOf(catalog.plan)[target].groups && g.kind == Prerequisite
    ensures Satisfied(g, PassedCodes(attempts))
  {
    var rule := RulesOf(catalog.plan)[target];
    assert g in PrerequisiteGroups(rule.groups);
  }

  lemma {:induction false} EarnedMonotone(hours: seq<(Code, Option<real>)>, passed: set<Code>, more: set<Code>)
    requires passed <= more
    requires forall i :: 0 <= i < |hours| && !Overridden(hours, i) ==> hours[i].1.Some? && hours[i].1.value >= 0.0
    ensures EarnedFrom(hours, passed) <= EarnedFrom(hours, more)
  {
    if hours != [] {
      var rest := hours[1..];
      forall i | 0 <= i < |rest| && !Overridden(rest, i) ensures rest[i].1.Some? && rest[i].1.value >= 0.0 {
        OverriddenShift(hours, i);
      }
      EarnedMonotone(rest, passed, more);
    }
  }

  lemma OverriddenShift(hours: seq<(Code, Option<real>)>, i: nat)
    requires i + 1 < |hours|
    ensures Overridden(hours[1..], i) <==> Overridden(hours, i + 1)
  {
    if Overridden(hours, i + 1) {
      var j :| i + 1 < j < |hours| && hours[j].0 == hours[i + 1].0;
      assert hours[1..][j - 1].0 == hours[1..][i].0;
    }
  }

  lemma CreditsMonotone(catalog: Catalog, passed: set<Code>, more: set<Code>)
    requires passed <= more && CompleteCredits(catalog, passed).Some?
    ensures CompleteCredits(catalog, more).Some?
    ensures CompleteCredits(catalog, passed).value <= CompleteCredits(catalog, more).value
  {
    EarnedMonotone(CreditHours(catalog.plan), passed, more);
  }

  /** Passing more courses and stating no fewer credits never takes eligibility away, whether it
      hangs on prerequisites alone or on the earned credits of a graduation project as well. */
  lemma MorePassesNeverHurt(catalog: Catalog, target: Code, attempts: seq<Attempt>, later: seq<Attempt>,
                            stated: Option<real>, restated: Option<real>)
    requires EvaluateRequest(catalog, target, attempts, stated) == Decided(Eligible)
    requires PassedCodes(attempts) <= PassedCodes(later) && forall a :: a in later ==> a.code != ""
    requires if stated.Some? then restated.Some? && stated.value <= restated.value else restated == None
    ensures EvaluateRequest(catalog, target, later, restated) == Decided(Eligible)
  {
    hide RulesOf, CompleteCredits;
    var before, after := PassedCodes(attempts), PassedCodes(later);
    forall g | Satisfied(g, before) ensures Satisfied(g, after) {}
    if target in catalog.projects && stated.None? { CreditsMonotone(catalog, before, after); }
  }

  /** A graduation project is eligible exactly when its prerequisites allow it and the credits,
      stated by the request or else established by a complete plan, are known and enough. */
  lemma ProjectNeedsKnownCredits(catalog: Catalog, target: Code, attempts: seq<Attempt>, stated: Option<real>)
    requires target in catalog.projects
    ensures EvaluateRequest(catalog, target, attempts, stated) == Decided(Eligible) <==>
              && EvaluateRequest(catalog.(projects := {}), target, attempts, stated) == Decided(Eligible)
              && var credits := KnownCredits(catalog, PassedCodes(attempts), stated);
                 credits.Some? && credits.value >= MIN_EARNED_CREDITS
  {
  }
}

/** The option-to-course edges of the rules and how far they reach. */
module PrerequisiteGraph {
  import opened AcademicRules

  predicate UsesOption(rule: Rule, x: Code) {
    exists g :: g in rule.groups && x in g.options
  }

  /** The courses that list `x` as an option. */
  function Dependents(rules: map<Code, Rule>, x: Code): set<Code> {
    set c | c in rules && UsesOption(rules[c], x)
  }

  function Step(rules: map<Code, Rule>, from: set<Code>): set<Code> {
    set x, c | x in from && c in Dependents(rules, x) :: c
  }

  /** What at most `n` edges reach from `first`. */
  function Within(rules: map<Code, Rule>, first: Code, n: nat): set<Code> {
    if n == 0 then {first}
    else Within(rules, first, n - 1) + Step(rules, Within(rules, first, n - 1))
  }

  ghost predicate Reachable(rules: map<Code, Rule>, first: Code, x: Code) {
    exists n: nat :: x in Within(rules, first, n)
  }

  /** `x` is at shortest distance exactly `n`. */
  predicate AtDistance(rules: map<Code, Rule>, first: Code, x: Code, n: nat) {
    x in Within(rules, first, n) && (n > 0 ==> x !in Within(rules, first, n - 1))
  }

  ghost predicate Closed(rules: map<Code, Rule>, s: set<Code>) {
    forall x, c :: x in s && c in Dependents(rules, x) ==> c in s
  }

  lemma {:induction false} WithinMonotone(rules: map<Code, Rule>, first: Code, m: nat, n: nat)
    requires m <= n
    ensures Within(rules, first, m) <= Within(rules, first, n)
  {
    if m < n { WithinMonotone(rules, first, m, n - 1); }
  }

  lemma {:induction false} ClosedContainsReach(rules: map<Code, Rule>, first: Code, s: set<Code>, n: nat)
    requires first in s && Closed(rules, s)
    ensures Within(rules, first, n) <= s
  {
    if n > 0 { ClosedContainsReach(rules, first, s, n - 1); }
  }
}
