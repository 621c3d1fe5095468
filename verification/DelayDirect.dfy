/** The first pass of the delay analysis (apps/api/app/decision_intelligence/delay.py) on the attempts,
    the groups and the credits, for gated and ungated courses alike. */
module DelayDirect {
  import opened Wrappers
  import opened AcademicRules
  import opened AcademicDecisions
  import opened PrerequisiteGraph
  import opened DelayConsequence

  /** Both questions about the course can be answered. */
  ghost predicate Askable(catalog: Catalog, target: Code, attempts: seq<Attempt>, code: Code) {
    && code != "" && target != "" && (forall i :: 0 <= i < |attempts| ==> attempts[i].code != "")
    && code in catalog.courses && code in RulesOf(catalog.plan)
  }

  /** Some group of either kind lists the target. */
  ghost predicate Lists(rule: Rule, target: Code) {
    exists i :: 0 <= i < |rule.groups| && target in rule.groups[i].options
  }

  /** Every prerequisite group has an option that is passed or is the target. */
  ghost predicate MetWithTarget(groups: seq<Group>, attempts: seq<Attempt>, target: Code) {
    forall g :: g in groups && g.kind == Prerequisite ==> exists o :: o in g.options && (o == target || HasPassed(attempts, o))
  }

  lemma PassedWithTarget(attempts: seq<Attempt>, target: Code, o: Code)
    ensures HasPassed(attempts + [Attempt(target, Passed)], o) <==> o == target || HasPassed(attempts, o)
  {
    var with := attempts + [Attempt(target, Passed)];
    assert with[|attempts|] == Attempt(target, Passed);
    if HasPassed(attempts, o) {
      var i :| 0 <= i < |attempts| && attempts[i].code == o && attempts[i].outcome == Passed;
      assert with[i] == attempts[i];
    }
    if HasPassed(with, o) {
      var i :| 0 <= i < |with| && with[i].code == o && with[i].outcome == Passed;
      assert i < |attempts| ==> with[i] == attempts[i];
    }
  }

  lemma MetBy(groups: seq<Group>, attempts: seq<Attempt>, target: Code)
    ensures GroupsMet(groups, attempts + [Attempt(target, Passed)]) <==> MetWithTarget(groups, attempts, target)
    ensures GroupsMet(groups, attempts) ==> MetWithTarget(groups, attempts, target)
  {
    hide HasPassed;
    forall o ensures HasPassed(attempts + [Attempt(target, Passed)], o) <==> o == target || HasPassed(attempts, o) {
      PassedWithTarget(attempts, target, o);
    }
  }

  lemma CodesWithTarget(attempts: seq<Attempt>, target: Code)
    ensures PassedCodes(attempts + [Attempt(target, Passed)]) == PassedCodes(attempts) + {target}
  {
    forall o ensures o in PassedCodes(attempts + [Attempt(target, Passed)]) <==> o in PassedCodes(attempts) + {target} {
      PassedExactly(attempts, o);
      PassedExactly(attempts + [Attempt(target, Passed)], o);
      PassedWithTarget(attempts, target, o);
    }
  }

  lemma AskedWithTarget(catalog: Catalog, target: Code, attempts: seq<Attempt>, code: Code)
    ensures Askable(catalog, target, attempts, code) <==>
            !Unanswerable(catalog, code, attempts + [Attempt(target, Passed)], None)
    ensures Askable(catalog, target, attempts, code) ==> !Unanswerable(catalog, code, attempts, None)
  {
    hide RulesOf;
    var with := attempts + [Attempt(target, Passed)];
    assert with[|attempts|].code == target;
    assert forall i :: 0 <= i < |attempts| ==> with[i] == attempts[i];
    if i :| 0 <= i < |with| && with[i].code == "" {
      assert i < |attempts| ==> attempts[i].code == "";
    }
  }

  /** The two decisions the pass compares. */
  lemma BothDecisions(catalog: Catalog, target: Code, attempts: seq<Attempt>, code: Code)
    requires Askable(catalog, target, attempts, code)
    ensures var rule := RulesOf(catalog.plan)[code];
            var before, after := CompleteCredits(catalog, PassedCodes(attempts) + {target}), CompleteCredits(catalog, PassedCodes(attempts));
            var project, met, still := code in catalog.projects,
                                       Decides(rule) && (rule.status == NotApplicable || MetWithTarget(rule.groups, attempts, target)),
                                       RuleMet(rule, attempts);
            var with := EvaluateCanTake(catalog, code, attempts + [Attempt(target, Passed)]);
            var without := EvaluateCanTake(catalog, code, attempts);
            && with.Decided? && without.Decided?
            && (with == Decided(Eligible) <==> met && (project ==> before.Some? && before.value >= 90.0))
            && (with == Decided(ReviewRequired) <==>
                  (!Decides(rule) && (project && before.Some? ==> before.value >= 90.0)) || (project && before.None? && met))
            && (without == Decided(NotEligible) <==> (Decides(rule) && !still) || (project && after.Some? && after.value < 90.0))
            && (without == Decided(ReviewRequired) <==>
                  (!Decides(rule) && (project && after.Some? ==> after.value >= 90.0)) || (project && after.None? && still))
            && (before.Some? <==> after.Some?) && (before.Some? ==> after.value <= before.value) && (still ==> met)
  {
    var rule, passed := RulesOf(catalog.plan)[code], PassedCodes(attempts);
    AskedWithTarget(catalog, target, attempts, code);
    CodesWithTarget(attempts, target);
    MetBy(rule.groups, attempts, target);
    DecidesExactly(catalog, code, attempts + [Attempt(target, Passed)], None);
    DecidesExactly(catalog, code, attempts, None);
    CreditsKnownExactly(catalog, passed);
    CreditsKnownExactly(catalog, passed + {target});
    if CompleteCredits(catalog, passed).Some? { CreditsMonotone(catalog, passed, passed + {target}); }
    hide Askable, Unanswerable, Decides, GroupsMet, MetWithTarget, CompleteCredits, PassedCodes, RulesOf, EvaluateRequest;
  }

  /** A course is a direct impact exactly when its own rule lists the target and can be decided, it is
      met with the target, for a graduation project with at least 90 known credits, and without the
      target either a prerequisite group is unmet or the credits fall short. */
  lemma DirectExactly(catalog: Catalog, target: Code, attempts: seq<Attempt>, code: Code)
    ensures DirectlyAffected(catalog, target, attempts, code) <==>
            && Askable(catalog, target, attempts, code) && code != target
            && var rule := RulesOf(catalog.plan)[code];
               var before, after := CompleteCredits(catalog, PassedCodes(attempts) + {target}), CompleteCredits(catalog, PassedCodes(attempts));
               && Lists(rule, target) && Decides(rule)
               && (rule.status == NotApplicable || MetWithTarget(rule.groups, attempts, target))
               && (code in catalog.projects ==> before.Some? && before.value >= 90.0)
               && (|| (rule.status == Verified && !GroupsMet(rule.groups, attempts))
                   || (code in catalog.projects && after.Some? && after.value < 90.0))
  {
    if Askable(catalog, target, attempts, code) {
      BothDecisions(catalog, target, attempts, code);
      ListsIsUse(RulesOf(catalog.plan)[code], target);
    } else {
      AskedWithTarget(catalog, target, attempts, code);
      DecidesExactly(catalog, code, attempts + [Attempt(target, Passed)], None);
    }
    hide Askable, Unanswerable, Lists, UsesOption, UsableModel, GroupsMet, MetWithTarget, CompleteCredits, PassedCodes, RulesOf, EvaluateRequest;
  }

  lemma ListsIsUse(rule: Rule, target: Code)
    ensures UsesOption(rule, target) <==> Lists(rule, target)
  {
    if UsesOption(rule, target) {
      var g :| g in rule.groups && target in g.options;
      var i :| 0 <= i < |rule.groups| && rule.groups[i] == g;
    }
  }

  /** A course asks for a review exactly when its rule lists the target and is unresolved or in conflict;
      or its verified groups make no usable model, unless it is a project known to lack credits even with
      the target; or it is a project met with the target whose credits are unknown. */
  lemma ReviewExactly(catalog: Catalog, target: Code, attempts: seq<Attempt>, code: Code)
    ensures NeedsReview(catalog, target, attempts, code) <==>
            && code != target && code in RulesOf(catalog.plan)
            && var rule := RulesOf(catalog.plan)[code];
               var before := CompleteCredits(catalog, PassedCodes(attempts) + {target});
               && Lists(rule, target)
               && (|| rule.status == Unresolved || rule.status == SourceConflict
                   || (&& Askable(catalog, target, attempts, code)
                       && (|| (!Decides(rule) && (code in catalog.projects && before.Some? ==> before.value >= 90.0))
                           || (code in catalog.projects && before.None? && Decides(rule)
                               && (rule.status == NotApplicable || MetWithTarget(rule.groups, attempts, target))))))
  {
    if code in RulesOf(catalog.plan) { ListsIsUse(RulesOf(catalog.plan)[code], target); }
    if Askable(catalog, target, attempts, code) {
      BothDecisions(catalog, target, attempts, code);
    } else {
      AskedWithTarget(catalog, target, attempts, code);
      DecidesExactly(catalog, code, attempts + [Attempt(target, Passed)], None);
    }
    hide Askable, Unanswerable, Lists, UsesOption, UsableModel, GroupsMet, MetWithTarget, CompleteCredits, PassedCodes, RulesOf, EvaluateRequest;
  }

  // ---- A project that only the target keeps closed ------------------------------------

  const OPEN_T := Rule("T", NotApplicable, [], Some(3.0))
  const OPEN_Z := Rule("Z", NotApplicable, [], Some(90.0))
  const PROJECT := Rule("P", Verified, [Group(1, Prerequisite, ["T"])], Some(6.0))
  const PROJECT_CATALOG := Catalog("S", [OPEN_T, OPEN_Z, PROJECT], {"T", "Z", "P"}, true, {"P"})

  /** P is a graduation project that needs T; Z, passed, has brought the 90 credits. P is a direct impact
      of delaying T. */
  lemma ProjectIsDirect()
    ensures DirectlyAffected(PROJECT_CATALOG, "T", [Attempt("Z", Passed)], "P")
  {
    ProjectRules();
    OneGroupUsable(PROJECT.groups[0]);
    NinetyCredits();
    var attempts := [Attempt("Z", Passed)];
    hide RulesOf, CompleteCredits, PassedCodes, DirectlyAffected, UsableModel;
    assert "T"[0] == 'T' && "Z"[0] == 'Z' && "P"[0] == 'P';
    assert PROJECT.groups[0].options[0] == "T" && PROJECT.groups[0] in PROJECT.groups;
    DirectExactly(PROJECT_CATALOG, "T", attempts, "P");
  }

  lemma ProjectRules()
    ensures var rules := RulesOf(PROJECT_CATALOG.plan);
            && "T" in rules && "Z" in rules && "P" in rules && rules["T"] == OPEN_T && rules["Z"] == OPEN_Z && rules["P"] == PROJECT
            && forall c :: c in rules ==> rules[c] in PROJECT_CATALOG.plan
  {
    assert "T"[0] == 'T' && "Z"[0] == 'Z' && "P"[0] == 'P';
    hide RulesOf;
    LastEntryRules(PROJECT_CATALOG.plan, 0);
    LastEntryRules(PROJECT_CATALOG.plan, 1);
    LastEntryRules(PROJECT_CATALOG.plan, 2);
  }

  lemma OneGroupUsable(g: Group)
    requires g.kind == Prerequisite && g.number > 0 && g.options != []
    ensures UsableModel([g])
  {
    assert [g][0] == g;
  }

  lemma NinetyCredits()
    ensures CompleteCredits(PROJECT_CATALOG, PassedCodes([Attempt("Z", Passed)]) + {"T"}).Some?
    ensures CompleteCredits(PROJECT_CATALOG, PassedCodes([Attempt("Z", Passed)]) + {"T"}).value >= 90.0
  {
    var attempts := [Attempt("Z", Passed)];
    ProjectRules();
    PassedZ();
    hide RulesOf, CompleteCredits, PassedCodes;
    assert "T"[0] == 'T' && "Z"[0] == 'Z';
    CreditsKnownExactly(PROJECT_CATALOG, {});
    CreditsAddUp(PROJECT_CATALOG, {}, "Z");
    CreditsAddUp(PROJECT_CATALOG, {} + {"Z"}, "T");
    assert PassedCodes(attempts) + {"T"} == {} + {"Z"} + {"T"};
  }

  lemma PassedZ()
    ensures PassedCodes([Attempt("Z", Passed)]) == {"Z"}
  {
    assert [Attempt("Z", Passed)][0] == Attempt("Z", Passed);
  }
}
