/** What the eligibility evaluator (apps/api/app/rules) decides, in terms of the request: its attempts,
    the groups of the rule and the credits of the plan. */
module AcademicDecisions {
  import opened Wrappers
  import opened AcademicRules

  // ---- Attempts and plans -------------------------------------------------------------

  /** Some attempt at the course was passed; one still in progress does not do. */
  predicate HasPassed(attempts: seq<Attempt>, c: Code) {
    exists i :: 0 <= i < |attempts| && attempts[i].code == c && attempts[i].outcome == Passed
  }

  lemma PassedExactly(attempts: seq<Attempt>, c: Code)
    ensures c in PassedCodes(attempts) <==> HasPassed(attempts, c)
  {
    if c in PassedCodes(attempts) {
      var a :| a in attempts && a.outcome == Passed && a.code == c;
      var i :| 0 <= i < |attempts| && attempts[i] == a;
    }
    if HasPassed(attempts, c) {
      var i :| 0 <= i < |attempts| && attempts[i].code == c && attempts[i].outcome == Passed;
      assert attempts[i] in attempts;
    }
  }

  /** The last entry of a course in the plan is its rule. */
  lemma {:induction false} LastEntryRules(plan: seq<Rule>, i: nat)
    requires i < |plan| && forall j :: i < j < |plan| ==> plan[j].code != plan[i].code
    ensures plan[i].code in RulesOf(plan) && RulesOf(plan)[plan[i].code] == plan[i]
  {
    var front, last := plan[..|plan| - 1], plan[|plan| - 1];
    assert plan == front + [last];
    RulesOfSnoc(front, last);
    if i < |front| { LastEntryRules(front, i); }
  }

  // ---- Groups -------------------------------------------------------------------------

  /** No number is used by two prerequisite groups. */
  ghost predicate Apart(groups: seq<Group>) {
    forall i, j :: 0 <= i < j < |groups| && groups[i].kind == Prerequisite && groups[j].kind == Prerequisite ==>
      groups[i].number != groups[j].number
  }

  lemma ApartCons(g: Group, rest: seq<Group>)
    ensures Apart([g] + rest) <==>
            Apart(rest) && (g.kind == Prerequisite ==> forall h :: h in rest && h.kind == Prerequisite ==> h.number != g.number)
  {
    var groups := [g] + rest;
    assert forall k :: 0 <= k < |rest| ==> groups[k + 1] == rest[k];
    if Apart(groups) {
      forall h | h in rest && h.kind == Prerequisite && g.kind == Prerequisite ensures h.number != g.number {
        var k :| 0 <= k < |rest| && rest[k] == h;
        assert groups[0] == g && groups[k + 1] == h;
      }
      forall i, j | 0 <= i < j < |rest| && rest[i].kind == Prerequisite && rest[j].kind == Prerequisite
        ensures rest[i].number != rest[j].number
      {
        assert groups[i + 1] == rest[i] && groups[j + 1] == rest[j];
      }
    }
  }

  lemma {:induction false} ApartFiltered(groups: seq<Group>)
    ensures Apart(PrerequisiteGroups(groups)) <==> Apart(groups)
  {
    if groups != [] {
      var g, rest := groups[0], groups[1..];
      assert groups == [g] + rest;
      assert PrerequisiteGroups(groups) == if g.kind == Prerequisite then [g] + PrerequisiteGroups(rest) else PrerequisiteGroups(rest);
      ApartFiltered(rest);
      ApartCons(g, rest);
      ApartCons(g, PrerequisiteGroups(rest));
      hide Apart;
    }
  }

  /** The prerequisite groups of a rule, corequisites left aside, make a usable model: there is one,
      each has a positive number and an option, and no number is used twice. */
  ghost predicate UsableModel(groups: seq<Group>) {
    && (exists g :: g in groups && g.kind == Prerequisite)
    && (forall g :: g in groups && g.kind == Prerequisite ==> g.number > 0 && g.options != [])
    && Apart(groups)
  }

  lemma UsableExactly(groups: seq<Group>)
    ensures ValidGroups(PrerequisiteGroups(groups)) <==> UsableModel(groups)
  {
    var filtered := PrerequisiteGroups(groups);
    ApartFiltered(groups);
    forall i | 0 <= i < |filtered| ensures filtered[i].kind == Prerequisite { assert filtered[i] in filtered; }
    if filtered != [] { assert filtered[0] in filtered; }
  }

  /** Every prerequisite group has a passed option. */
  ghost predicate GroupsMet(groups: seq<Group>, attempts: seq<Attempt>) {
    forall g :: g in groups && g.kind == Prerequisite ==> exists o :: o in g.options && HasPassed(attempts, o)
  }

  lemma MetExactly(groups: seq<Group>, attempts: seq<Attempt>)
    ensures (forall g :: g in PrerequisiteGroups(groups) ==> Satisfied(g, PassedCodes(attempts))) <==> GroupsMet(groups, attempts)
  {
    hide PassedCodes, HasPassed;
    forall c ensures c in PassedCodes(attempts) <==> HasPassed(attempts, c) { PassedExactly(attempts, c); }
    forall g: Group ensures Satisfied(g, PassedCodes(attempts)) <==> exists o :: o in g.options && HasPassed(attempts, o) {}
  }

  // ---- Credits ------------------------------------------------------------------------

  /** A credit total is established exactly by a complete plan whose every course has known credits. */
  lemma CreditsKnownExactly(catalog: Catalog, passed: set<Code>)
    ensures CompleteCredits(catalog, passed).Some? <==>
            && catalog.completeCredits
            && forall c :: c in RulesOf(catalog.plan) ==>
                 RulesOf(catalog.plan)[c].credits.Some? && RulesOf(catalog.plan)[c].credits.value >= 0.0
  {
    var plan, hours := catalog.plan, CreditHours(catalog.plan);
    hide RulesOf;
    if CompleteCredits(catalog, passed).Some? {
      forall c | c in RulesOf(plan) ensures RulesOf(plan)[c].credits.Some? && RulesOf(plan)[c].credits.value >= 0.0 {
        var i := StandingEntry(plan, c);
        StandingRules(plan, i);
        assert hours[i].1 == RulesOf(plan)[c].credits;
      }
    } else if catalog.completeCredits {
      var i :| 0 <= i < |hours| && !Overridden(hours, i) && (hours[i].1.None? || hours[i].1.value < 0.0);
      StandingRules(plan, i);
      assert hours[i].1 == RulesOf(plan)[plan[i].code].credits;
    }
  }

  lemma {:induction false} StandingRules(plan: seq<Rule>, i: nat)
    requires i < |plan| && !Overridden(CreditHours(plan), i)
    ensures plan[i].code in RulesOf(plan) && RulesOf(plan)[plan[i].code] == plan[i]
  {
    hide RulesOf;
    var hours := CreditHours(plan);
    assert hours[i].0 == plan[i].code;
    forall j | i < j < |plan| ensures plan[j].code != plan[i].code { assert hours[j].0 == plan[j].code; }
    LastEntryRules(plan, i);
  }

  /** Every course of the plan has an entry that no later one replaces. */
  lemma StandingEntry(plan: seq<Rule>, c: Code) returns (i: nat)
    requires c in RulesOf(plan)
    ensures i < |plan| && plan[i].code == c && !Overridden(CreditHours(plan), i)
  {
    assert RulesOf(plan)[c] in plan;
    i :| 0 <= i < |plan| && plan[i] == RulesOf(plan)[c];
    hide RulesOf;
    while Overridden(CreditHours(plan), i)
      invariant i < |plan| && plan[i].code == c
      decreases |plan| - i
    {
      var hours := CreditHours(plan);
      var j :| i < j < |hours| && hours[j].0 == hours[i].0;
      i := j;
    }
  }

  lemma {:induction false} NothingEarned(hours: seq<(Code, Option<real>)>)
    ensures EarnedFrom(hours, {}) == 0.0
  {
    if hours != [] { NothingEarned(hours[1..]); }
  }

  lemma {:induction false} UnlistedAddsNothing(hours: seq<(Code, Option<real>)>, passed: set<Code>, c: Code)
    requires forall i :: 0 <= i < |hours| ==> hours[i].0 != c
    ensures EarnedFrom(hours, passed + {c}) == EarnedFrom(hours, passed)
  {
    if hours != [] { UnlistedAddsNothing(hours[1..], passed, c); }
  }

  lemma {:induction false} StandingAdds(hours: seq<(Code, Option<real>)>, passed: set<Code>, c: Code, i: nat)
    requires i < |hours| && hours[i].0 == c && !Overridden(hours, i) && c !in passed
    ensures EarnedFrom(hours, passed + {c}) == EarnedFrom(hours, passed) + (if hours[i].1.Some? then hours[i].1.value else 0.0)
  {
    var rest := hours[1..];
    if i == 0 {
      forall j | 0 <= j < |rest| ensures rest[j].0 != c { assert rest[j] == hours[j + 1]; }
      UnlistedAddsNothing(rest, passed, c);
    } else {
      OverriddenShift(hours, i - 1);
      StandingAdds(rest, passed, c, i - 1);
      if hours[0].0 == c { assert Overridden(hours, 0); }
    }
  }

  /** Where a total is established it is the sum over the passed courses of the plan: nothing for no
      passes, and each further pass adds the credits of its rule. */
  lemma CreditsAddUp(catalog: Catalog, passed: set<Code>, c: Code)
    requires CompleteCredits(catalog, passed).Some? && c !in passed
    ensures CompleteCredits(catalog, {}) == Some(0.0)
    ensures CompleteCredits(catalog, passed + {c})
            == Some(CompleteCredits(catalog, passed).value
                    + (if c in RulesOf(catalog.plan) && RulesOf(catalog.plan)[c].credits.Some? then RulesOf(catalog.plan)[c].credits.value else 0.0))
  {
    hide RulesOf;
    var hours := CreditHours(catalog.plan);
    NothingEarned(hours);
    if c in RulesOf(catalog.plan) {
      var i := StandingEntry(catalog.plan, c);
      StandingRules(catalog.plan, i);
      StandingAdds(hours, passed, c, i);
    } else {
      forall i | 0 <= i < |hours| ensures hours[i].0 != c { PlannedIsRuled(catalog.plan, i); }
      UnlistedAddsNothing(hours, passed, c);
    }
  }

  lemma PlannedIsRuled(plan: seq<Rule>, i: nat)
    requires i < |plan|
    ensures plan[i].code in RulesOf(plan)
  {
    assert plan[i] in plan;
  }

  // ---- The decision -------------------------------------------------------------------

  /** The rule itself can be decided. */
  ghost predicate Decides(rule: Rule) {
    rule.status == NotApplicable || (rule.status == Verified && UsableModel(rule.groups))
  }

  ghost predicate RuleMet(rule: Rule, attempts: seq<Attempt>) {
    Decides(rule) && (rule.status == NotApplicable || GroupsMet(rule.groups, attempts))
  }

  lemma RuleDecided(rule: Rule, attempts: seq<Attempt>)
    ensures PrerequisiteDecision(rule, PassedCodes(attempts))
            == if !Decides(rule) then ReviewRequired else if RuleMet(rule, attempts) then Eligible else NotEligible
  {
    UsableExactly(rule.groups);
    MetExactly(rule.groups, attempts);
    hide ValidGroups, Satisfied, UsableModel, GroupsMet, PassedCodes;
  }

  /** A malformed request, or one about a course the catalog or the plan does not know. */
  ghost predicate Unanswerable(catalog: Catalog, target: Code, attempts: seq<Attempt>, stated: Option<real>) {
    || target == "" || (exists i :: 0 <= i < |attempts| && attempts[i].code == "") || (stated.Some? && stated.value < 0.0)
    || target !in catalog.courses || target !in RulesOf(catalog.plan)
  }

  /** Every decision of the evaluator, on the attempts, the groups and the credits. A graduation project
      needs 90 known credits on top of its rule: too few of them refuse it whatever the rule says, and
      unknown ones send it to review only when the rule is met or cannot be decided. */
  lemma DecidesExactly(catalog: Catalog, target: Code, attempts: seq<Attempt>, stated: Option<real>)
    ensures EvaluateRequest(catalog, target, attempts, stated) == RequestError <==> Unanswerable(catalog, target, attempts, stated)
    ensures !Unanswerable(catalog, target, attempts, stated) ==>
              var rule, r := RulesOf(catalog.plan)[target], EvaluateRequest(catalog, target, attempts, stated);
              var credits := if stated.Some? then stated else CompleteCredits(catalog, PassedCodes(attempts));
              && (r == Decided(Eligible) <==>
                    RuleMet(rule, attempts) && (target in catalog.projects ==> credits.Some? && credits.value >= 90.0))
              && (r == Decided(ReviewRequired) <==>
                    || (!Decides(rule) && (target in catalog.projects && credits.Some? ==> credits.value >= 90.0))
                    || (target in catalog.projects && credits.None? && RuleMet(rule, attempts)))
              && (r == Decided(NotEligible) <==>
                    || (Decides(rule) && !RuleMet(rule, attempts))
                    || (target in catalog.projects && credits.Some? && credits.value < 90.0))
  {
    hide RulesOf, PassedCodes, CompleteCredits, PrerequisiteDecision, UsableModel, GroupsMet;
    if target in RulesOf(catalog.plan) { RuleDecided(RulesOf(catalog.plan)[target], attempts); }
    assert (exists a :: a in attempts && a.code == "") <==> exists i :: 0 <= i < |attempts| && attempts[i].code == "" by {
      if a :| a in attempts && a.code == "" { var i :| 0 <= i < |attempts| && attempts[i] == a; }
      if i :| 0 <= i < |attempts| && attempts[i].code == "" { assert attempts[i] in attempts; }
    }
  }
}
