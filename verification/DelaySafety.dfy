/** What a delayed student can still reach (apps/api/app/decision_intelligence/delay.py over
    apps/api/app/rules/evaluator.py): exactly which of the reported courses stay out of reach. */
module DelaySafety {
  import opened Wrappers
  import opened Ordering
  import opened AcademicRules
  import opened PrerequisiteGraph
  import opened DelayConsequence

  // ---- One exhausted run decides all runs ---------------------------------------------

  /** A legal run after which every course still open to the student has already been passed. */
  ghost predicate Exhausted(catalog: Catalog, attempts: seq<Attempt>, avoid: set<Code>, most: seq<Code>) {
    && LegalRun(catalog, attempts, avoid, most)
    && forall c :: c !in avoid && EvaluateCanTake(catalog, c, attempts + Completions(most)) == Decided(Eligible)
                   ==> c in PassedCodes(attempts + Completions(most))
  }

  lemma EligibleIsListed(catalog: Catalog, code: Code, attempts: seq<Attempt>)
    requires EvaluateCanTake(catalog, code, attempts) == Decided(Eligible)
    ensures code in RulesOf(catalog.plan) && code != "" && forall a :: a in attempts ==> a.code != ""
  {
  }

  lemma {:induction false} RunCodesNamed(catalog: Catalog, attempts: seq<Attempt>, avoid: set<Code>, run: seq<Code>)
    requires LegalRun(catalog, attempts, avoid, run)
    ensures forall i :: 0 <= i < |run| ==> run[i] != ""
  {
    hide EvaluateCanTake;
    if run != [] {
      RunCodesNamed(catalog, attempts, avoid, run[..|run| - 1]);
      EligibleIsListed(catalog, run[|run| - 1], attempts + Completions(run[..|run| - 1]));
    }
  }

  lemma AttemptsNamed(catalog: Catalog, attempts: seq<Attempt>, avoid: set<Code>, most: seq<Code>)
    requires LegalRun(catalog, attempts, avoid, most) && forall a :: a in attempts ==> a.code != ""
    ensures forall a :: a in attempts + Completions(most) ==> a.code != ""
  {
    hide EvaluateCanTake, LegalRun;
    RunCodesNamed(catalog, attempts, avoid, most);
    forall a | a in Completions(most) ensures a.code != "" {
      var i :| 0 <= i < |most| && Completions(most)[i] == a;
    }
  }

  /** Eligibility only grows, so nothing an exhausted run has left out can be passed in any run. */
  lemma {:induction false} RunsStayWithin(catalog: Catalog, attempts: seq<Attempt>, avoid: set<Code>, most: seq<Code>, run: seq<Code>)
    requires Exhausted(catalog, attempts, avoid, most) && LegalRun(catalog, attempts, avoid, run)
    ensures PassedCodes(attempts + Completions(run)) <= PassedCodes(attempts + Completions(most))
  {
    hide EvaluateCanTake, PassedCodes;
    PassedAfter(attempts, most);
    PassedAfter(attempts, run);
    if run != [] {
      var front, last := run[..|run| - 1], run[|run| - 1];
      RunsStayWithin(catalog, attempts, avoid, most, front);
      PassedAfter(attempts, front);
      OpenLater(catalog, attempts, avoid, most, front, last);
      assert run == front + [last];
      assert Elements(run) == Elements(front) + {last};
    } else {
      assert Elements(run) == {};
    }
  }

  lemma OpenLater(catalog: Catalog, attempts: seq<Attempt>, avoid: set<Code>, most: seq<Code>, run: seq<Code>, code: Code)
    requires LegalRun(catalog, attempts, avoid, most)
    requires PassedCodes(attempts + Completions(run)) <= PassedCodes(attempts + Completions(most))
    requires EvaluateCanTake(catalog, code, attempts + Completions(run)) == Decided(Eligible)
    ensures EvaluateCanTake(catalog, code, attempts + Completions(most)) == Decided(Eligible)
  {
    hide LegalRun, PassedCodes, EvaluateRequest;
    EligibleIsListed(catalog, code, attempts + Completions(run));
    forall a | a in attempts ensures a.code != "" { assert a in attempts + Completions(run); }
    AttemptsNamed(catalog, attempts, avoid, most);
    MorePassesNeverHurt(catalog, code, attempts + Completions(run), attempts + Completions(most), None, None);
  }

  /** A course can become eligible in some legal run exactly when it is eligible after one exhausted
      run; so one greedy run answers for all of them. */
  lemma AttainableExactly(catalog: Catalog, attempts: seq<Attempt>, avoid: set<Code>, most: seq<Code>, code: Code)
    requires Exhausted(catalog, attempts, avoid, most)
    ensures (exists run :: LegalRun(catalog, attempts, avoid, run) && EvaluateCanTake(catalog, code, attempts + Completions(run)) == Decided(Eligible))
            <==> EvaluateCanTake(catalog, code, attempts + Completions(most)) == Decided(Eligible)
  {
    hide EvaluateCanTake, PassedCodes;
    forall run | LegalRun(catalog, attempts, avoid, run) && EvaluateCanTake(catalog, code, attempts + Completions(run)) == Decided(Eligible)
      ensures EvaluateCanTake(catalog, code, attempts + Completions(most)) == Decided(Eligible)
    {
      RunsStayWithin(catalog, attempts, avoid, most, run);
      OpenLater(catalog, attempts, avoid, most, run, code);
    }
  }

  /** Such a run exists and is found greedily: complete any open course until none is left. */
  lemma {:induction false} ExhaustFrom(catalog: Catalog, attempts: seq<Attempt>, avoid: set<Code>, run: seq<Code>) returns (most: seq<Code>)
    requires LegalRun(catalog, attempts, avoid, run)
    ensures Exhausted(catalog, attempts, avoid, most)
    decreases RulesOf(catalog.plan).Keys - PassedCodes(attempts + Completions(run))
  {
    hide EvaluateCanTake, PassedCodes, RulesOf;
    if Exhausted(catalog, attempts, avoid, run) {
      most := run;
    } else {
      var c :| c !in avoid && EvaluateCanTake(catalog, c, attempts + Completions(run)) == Decided(Eligible)
               && c !in PassedCodes(attempts + Completions(run));
      EligibleIsListed(catalog, c, attempts + Completions(run));
      var next := run + [c];
      assert next[..|next| - 1] == run;
      PassedAfter(attempts, run);
      PassedAfter(attempts, next);
      assert Elements(next) == Elements(run) + {c};
      most := ExhaustFrom(catalog, attempts, avoid, next);
    }
  }

  lemma ExhaustedRunExists(catalog: Catalog, attempts: seq<Attempt>, avoid: set<Code>) returns (most: seq<Code>)
    ensures Exhausted(catalog, attempts, avoid, most)
  {
    most := ExhaustFrom(catalog, attempts, avoid, []);
  }

  /** The safety of a delay report, exactly: all reported transitive courses stay ineligible in every
      legal run that completes neither the target nor a direct course, if and only if none of them is
      eligible after an exhausted run. */
  lemma DelaySafetyExactly(catalog: Catalog, attempts: seq<Attempt>, target: Code, base: set<Code>, u: set<Code>, most: seq<Code>)
    requires IsClosure(RulesOf(catalog.plan), PassedCodes(attempts), target, base, u)
    requires Exhausted(catalog, attempts, base, most)
    ensures (forall code, run {:trigger LegalRun(catalog, attempts, base, run), code in u} ::
               code in u && code !in base && LegalRun(catalog, attempts, base, run)
               ==> EvaluateCanTake(catalog, code, attempts + Completions(run)) != Decided(Eligible))
            <==> forall code :: code in u && code !in base ==> EvaluateCanTake(catalog, code, attempts + Completions(most)) != Decided(Eligible)
  {
    hide IsClosure, EvaluateCanTake, PassedCodes, RulesOf, LegalRun;
    if forall code :: code in u && code !in base ==> EvaluateCanTake(catalog, code, attempts + Completions(most)) != Decided(Eligible) {
      forall code, run | code in u && code !in base && LegalRun(catalog, attempts, base, run)
        ensures EvaluateCanTake(catalog, code, attempts + Completions(run)) != Decided(Eligible)
      {
        AttainableExactly(catalog, attempts, base, most, code);
      }
    }
    assert LegalRun(catalog, attempts, base, most);
  }

  /** The course can become eligible in some legal run that completes nothing of `avoid`. */
  ghost predicate Attainable(catalog: Catalog, attempts: seq<Attempt>, avoid: set<Code>, code: Code) {
    exists run :: LegalRun(catalog, attempts, avoid, run) && EvaluateCanTake(catalog, code, attempts + Completions(run)) == Decided(Eligible)
  }

  /** The completeness of a delay report, exactly: every course that the delay puts out of reach, being
      attainable without it but in no run that avoids the base, is reported, if and only if every course
      is that is eligible after a run exhausted without the delay and not after one exhausted with it. */
  lemma ReportCompleteExactly(catalog: Catalog, attempts: seq<Attempt>, base: set<Code>, u: set<Code>, free: seq<Code>, most: seq<Code>)
    requires Exhausted(catalog, attempts, {}, free) && Exhausted(catalog, attempts, base, most)
    ensures (forall code :: Attainable(catalog, attempts, {}, code) && !Attainable(catalog, attempts, base, code) ==> code in u)
            <==> forall code ::
                   EvaluateCanTake(catalog, code, attempts + Completions(free)) == Decided(Eligible)
                   && EvaluateCanTake(catalog, code, attempts + Completions(most)) != Decided(Eligible)
                   ==> code in u
  {
    hide EvaluateCanTake, LegalRun, Exhausted, Attainable;
    forall code
      ensures Attainable(catalog, attempts, {}, code) <==> EvaluateCanTake(catalog, code, attempts + Completions(free)) == Decided(Eligible)
      ensures Attainable(catalog, attempts, base, code) <==> EvaluateCanTake(catalog, code, attempts + Completions(most)) == Decided(Eligible)
    {
      AttainableByOne(catalog, attempts, {}, free, code);
      AttainableByOne(catalog, attempts, base, most, code);
    }
  }

  lemma AttainableByOne(catalog: Catalog, attempts: seq<Attempt>, avoid: set<Code>, most: seq<Code>, code: Code)
    requires Exhausted(catalog, attempts, avoid, most)
    ensures Attainable(catalog, attempts, avoid, code) <==> EvaluateCanTake(catalog, code, attempts + Completions(most)) == Decided(Eligible)
  {
    hide EvaluateCanTake, LegalRun, Exhausted;
    AttainableExactly(catalog, attempts, avoid, most, code);
  }

  // ---- A corequisite that is not waited for -------------------------------------------

  lemma {:induction false} OnlyAmongRules(catalog: Catalog, target: Code, attempts: seq<Attempt>, code: Code)
    requires DirectlyAffected(catalog, target, attempts, code)
    ensures code in RulesOf(catalog.plan) && UsesOption(RulesOf(catalog.plan)[code], target)
  {
    hide EvaluateCanTake;
  }

  lemma OneGroup(g: Group)
    ensures PrerequisiteGroups([g]) == if g.kind == Prerequisite then [g] else []
  {
    assert [g][1..] == [];
  }

  lemma TwoGroups(g: Group, h: Group)
    requires g.kind == Prerequisite && h.kind == Prerequisite
    ensures PrerequisiteGroups([g, h]) == [g, h]
  {
    assert [g, h][1..] == [h];
    OneGroup(h);
  }

  /** A rule with one prerequisite group of one course. */
  lemma OneCourseDecides(rule: Rule, x: Code, passed: set<Code>)
    requires rule.status == Verified && rule.groups == [Group(1, Prerequisite, [x])]
    ensures PrerequisiteDecision(rule, passed) == if x in passed then Eligible else NotEligible
  {
    var g := Group(1, Prerequisite, [x]);
    OneGroup(g);
    assert g.options[0] == x;
    assert Satisfied(g, passed) <==> x in passed;
    assert PrerequisiteGroups(rule.groups)[0] == g;
  }

  const COMPANION_CATALOG := Catalog("P", COMPANION_PLAN, {"T", "D", "C", "Z"}, false, {})

  /** In the catalog of `CorequisiteOverclaims` the delay of T has exactly the direct impact D, so
      the closure there is the one the analysis computes. */
  lemma CompanionDirect(code: Code)
    ensures DirectlyAffected(COMPANION_CATALOG, "T", [Attempt("Z", Passed)], code) <==> code == "D"
  {
    hide RulesOf, PassedCodes, PrerequisiteDecision, EvaluateCanTake;
    CompanionRules();
    assert "T" != "D" && "C" != "D" && "Z" != "T" by { assert "T"[0] != "D"[0] && "C"[0] != "D"[0] && "Z"[0] != "T"[0]; }
    var attempts := [Attempt("Z", Passed)];
    if DirectlyAffected(COMPANION_CATALOG, "T", attempts, code) {
      OnlyAmongRules(COMPANION_CATALOG, "T", attempts, code);
      assert !UsesOption(DELAYED, "T") && !UsesOption(COMPANION, "T") by {
        assert COMPANION.groups == [PASSED_GROUP, TAKEN_TOGETHER] && "D"[0] != "T"[0];
      }
    }
    assert DIRECT.groups[0].options[0] == "T";
    assert |"D"| == 1 && |"Z"| == 1 && |"T"| == 1;
    assert forall a :: a in attempts ==> a == Attempt("Z", Passed);
    UngatedDecision(COMPANION_CATALOG, "D", attempts);
    var with := attempts + [Attempt("T", Passed)];
    assert forall a :: a in with ==> a == Attempt("Z", Passed) || a == Attempt("T", Passed);
    UngatedDecision(COMPANION_CATALOG, "D", with);
    assert Completions(["T"]) == [Attempt("T", Passed)];
    PassedAfter(attempts, ["T"]);
    assert ["T"][0] == "T";
    OneCourseDecides(DIRECT, "T", PassedCodes(attempts));
    OneCourseDecides(DIRECT, "T", PassedCodes(with));
  }

  // ---- Courses that stay blocked unreported -------------------------------------------

  const OPEN_Q := Rule("Q", NotApplicable, [], None)
  const NEEDS_T := Group(1, Prerequisite, ["T"])
  const NEEDS_Q := Group(2, Prerequisite, ["Q"])
  const BOTH := Rule("C", Verified, [NEEDS_T, NEEDS_Q], None)
  const NEEDS_C := Group(1, Prerequisite, ["C"])
  const BEHIND := Rule("E", Verified, [NEEDS_C], None)
  const SILENT_PLAN := [DELAYED, OPEN_Q, BOTH, BEHIND]
  const SILENT_CATALOG := Catalog("P", SILENT_PLAN, {"T", "Q", "C", "E"}, false, {})

  lemma SilentRules()
    ensures RulesOf(SILENT_PLAN) == map["T" := DELAYED, "Q" := OPEN_Q, "C" := BOTH, "E" := BEHIND]
    ensures PassedCodes([]) == {} && PassedCodes([Attempt("T", Passed)]) == {"T"}
  {
    assert SILENT_PLAN == ((([] + [DELAYED]) + [OPEN_Q]) + [BOTH]) + [BEHIND];
    RulesOfSnoc([], DELAYED);
    RulesOfSnoc([] + [DELAYED], OPEN_Q);
    RulesOfSnoc(([] + [DELAYED]) + [OPEN_Q], BOTH);
    RulesOfSnoc((([] + [DELAYED]) + [OPEN_Q]) + [BOTH], BEHIND);
    assert [Attempt("T", Passed)][0] == Attempt("T", Passed);
  }

  lemma BothDecides(passed: set<Code>)
    ensures PrerequisiteDecision(BOTH, passed) == if "T" in passed && "Q" in passed then Eligible else NotEligible
  {
    TwoGroups(NEEDS_T, NEEDS_Q);
    var groups := BOTH.groups;
    assert groups == [NEEDS_T, NEEDS_Q] && NEEDS_T.options[0] == "T" && NEEDS_Q.options[0] == "Q";
    assert groups[0] == NEEDS_T && groups[1] == NEEDS_Q;
    assert Satisfied(NEEDS_T, passed) <==> "T" in passed;
    assert Satisfied(NEEDS_Q, passed) <==> "Q" in passed;
  }

  /** C needs T and Q, E needs C, nothing is passed. Delaying T has no direct impact, for C lacks Q as
      well, so nothing is reported; yet C and E, both attainable otherwise, are out of reach in every
      run that does not complete T. */
  lemma SilentlyBlocked(code: Code)
    requires code == "C" || code == "E"
    ensures forall c :: !DirectlyAffected(SILENT_CATALOG, "T", [], c)
    ensures forall u :: IsClosure(RulesOf(SILENT_PLAN), {}, "T", {"T"}, u) ==> code !in u
    ensures Attainable(SILENT_CATALOG, [], {}, code) && !Attainable(SILENT_CATALOG, [], {"T"}, code)
  {
    hide RulesOf, PassedCodes, PrerequisiteDecision, EvaluateCanTake, LegalRun;
    SilentRules();
    assert "T"[0] == 'T' && "Q"[0] == 'Q' && "C"[0] == 'C' && "E"[0] == 'E';
    SilentDirect();
    forall u | IsClosure(RulesOf(SILENT_PLAN), {}, "T", {"T"}, u) ensures code !in u {
      NoDirectNoTransitive(RulesOf(SILENT_PLAN), {}, "T", u);
    }
    forall run | LegalRun(SILENT_CATALOG, [], {"T"}, run)
      ensures EvaluateCanTake(SILENT_CATALOG, code, [] + Completions(run)) != Decided(Eligible)
    {
      SilentGroups();
      BlockedTogether(SILENT_CATALOG, [], {"T"}, {"T", "C", "E"}, run, code);
    }
    SilentRun();
  }

  lemma SilentGroups()
    ensures forall c :: c in {"T", "C", "E"} && c !in {"T"} ==> BlockedByPrerequisite(RulesOf(SILENT_PLAN), {}, {"T", "C", "E"}, c)
  {
    hide RulesOf;
    SilentRules();
    assert "T"[0] == 'T' && "C"[0] == 'C' && "E"[0] == 'E' && "Q"[0] == 'Q';
    assert BOTH.groups[0] == NEEDS_T && NEEDS_T in BOTH.groups && Ready(NEEDS_T, {}, {"T", "C", "E"});
    assert BEHIND.groups[0] == NEEDS_C && NEEDS_C in BEHIND.groups && Ready(NEEDS_C, {}, {"T", "C", "E"});
  }

  lemma SilentDirect()
    ensures forall code :: !DirectlyAffected(SILENT_CATALOG, "T", [], code)
  {
    hide RulesOf, PassedCodes, PrerequisiteDecision, EvaluateCanTake;
    SilentRules();
    assert "T"[0] == 'T' && "Q"[0] == 'Q' && "C"[0] == 'C' && "E"[0] == 'E';
    assert !UsesOption(BEHIND, "T") by { assert BEHIND.groups == [NEEDS_C]; }
    forall code ensures !DirectlyAffected(SILENT_CATALOG, "T", [], code) {
      if DirectlyAffected(SILENT_CATALOG, "T", [], code) {
        OnlyAmongRules(SILENT_CATALOG, "T", [], code);
      }
      if code == "C" {
        var with := [] + [Attempt("T", Passed)];
        assert with == [Attempt("T", Passed)];
        assert forall a :: a in with ==> a == Attempt("T", Passed);
        UngatedDecision(SILENT_CATALOG, "C", with);
        BothDecides(PassedCodes(with));
      }
    }
  }

  /** A course whose prerequisites the run has met is open after it, and may be completed next. */
  lemma OpenNow(run: seq<Code>, code: Code, passed: set<Code>)
    requires LegalRun(SILENT_CATALOG, [], {}, run) && Elements(run) == passed
    requires code in {"T", "Q", "C", "E"} && code in RulesOf(SILENT_PLAN)
    requires PrerequisiteDecision(RulesOf(SILENT_PLAN)[code], passed) == Eligible
    ensures EvaluateCanTake(SILENT_CATALOG, code, [] + Completions(run)) == Decided(Eligible)
  {
    hide RulesOf, PassedCodes, PrerequisiteDecision, EvaluateCanTake, LegalRun;
    RunNamed(run);
    PassedAfter([], run);
    SilentRules();
    assert PassedCodes([] + Completions(run)) == {} + passed == passed;
    assert |code| == 1;
    UngatedDecision(SILENT_CATALOG, code, [] + Completions(run));
  }

  lemma CompleteNext(run: seq<Code>, code: Code, passed: set<Code>)
    requires LegalRun(SILENT_CATALOG, [], {}, run) && Elements(run) == passed
    requires code in {"T", "Q", "C", "E"} && code in RulesOf(SILENT_PLAN)
    requires PrerequisiteDecision(RulesOf(SILENT_PLAN)[code], passed) == Eligible
    ensures EvaluateCanTake(SILENT_CATALOG, code, [] + Completions(run)) == Decided(Eligible)
    ensures LegalRun(SILENT_CATALOG, [], {}, run + [code]) && Elements(run + [code]) == passed + {code}
  {
    OpenNow(run, code, passed);
    hide *;
    OneMore(SILENT_CATALOG, [], {}, run, code);
  }

  lemma OneMore(catalog: Catalog, attempts: seq<Attempt>, avoid: set<Code>, run: seq<Code>, code: Code)
    requires LegalRun(catalog, attempts, avoid, run) && code !in avoid
    requires EvaluateCanTake(catalog, code, attempts + Completions(run)) == Decided(Eligible)
    ensures LegalRun(catalog, attempts, avoid, run + [code]) && Elements(run + [code]) == Elements(run) + {code}
  {
    hide EvaluateCanTake, Completions;
    assert (run + [code])[..|run|] == run;
  }

  lemma RunNamed(run: seq<Code>)
    requires LegalRun(SILENT_CATALOG, [], {}, run)
    ensures forall a :: a in [] + Completions(run) ==> a.code != ""
  {
    hide LegalRun, EvaluateCanTake;
    AttemptsNamed(SILENT_CATALOG, [], {}, run);
  }

  lemma SilentCodes()
    ensures RulesOf(SILENT_PLAN).Keys == {"T", "Q", "C", "E"}
    ensures RulesOf(SILENT_PLAN)["T"] == DELAYED && RulesOf(SILENT_PLAN)["Q"] == OPEN_Q
    ensures RulesOf(SILENT_PLAN)["C"] == BOTH && RulesOf(SILENT_PLAN)["E"] == BEHIND
  {
    hide RulesOf;
    SilentRules();
    assert "T"[0] == 'T' && "Q"[0] == 'Q' && "C"[0] == 'C' && "E"[0] == 'E';
  }

  lemma OpenCourses(passed: set<Code>)
    ensures PrerequisiteDecision(OPEN_Q, passed) == Eligible && PrerequisiteDecision(DELAYED, passed) == Eligible
  {
  }

  lemma CompleteBoth(q: Code, t: Code) returns (run: seq<Code>)
    requires q == "Q" && t == "T"
    ensures LegalRun(SILENT_CATALOG, [], {}, run) && Elements(run) == {q, t}
  {
    SilentCodes();
    NothingDone();
    OpenCourses({});
    OpenCourses({q});
    hide *;
    CompleteNext([], q, {});
    assert {} + {q} == {q};
    CompleteNext([] + [q], t, {q});
    run := [] + [q] + [t];
  }

  lemma SilentRun()
    ensures Attainable(SILENT_CATALOG, [], {}, "C") && Attainable(SILENT_CATALOG, [], {}, "E")
  {
    SilentCodes();
    var c: Code, e: Code := "C", "E";
    var passed: set<Code> := {"Q", "T"};
    BothDecides(passed);
    OneCourseDecides(BEHIND, c, passed + {c});
    var run := CompleteBoth("Q", "T");
    hide EvaluateCanTake, LegalRun, RulesOf, PrerequisiteDecision;
    CompleteNext(run, c, passed);
    CompleteNext(run + [c], e, passed + {c});
  }

  lemma NothingDone()
    ensures LegalRun(SILENT_CATALOG, [], {}, []) && Elements<Code>([]) == {}
  {
  }
}
