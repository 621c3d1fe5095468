/** Readiness as a tie-break over the baseline ranking (apps/api/app/decision_intelligence:
    recommendation.py, factors.py, trace.py). */
module ReadinessTieBreak {
  import opened Wrappers
  import opened Ordering

  type Code = string

  datatype Mode = StructuralBaseline | ReadinessAware

  datatype ReadinessState = PreparationAvailable | CautionAvailable | InsufficientData | NotApplicable | ReviewRequired

  datatype IntelligenceStatus = Available | StatusInsufficientData | StatusReviewRequired | NotSupported | Blocked

  datatype ReadinessResult = ReadinessResult(policyVersion: string, isReadiness: bool, status: IntelligenceStatus,
                                             missingInputs: bool, state: Option<ReadinessState>)

  datatype FactorInput = FactorInput(courseCode: Code, resultCourseCode: Code, result: Option<ReadinessResult>,
                                     evidenceVerified: bool, provenanceComplete: bool)

  datatype Reason =
    | PreparationTieBreak | CautionTieBreak | NotApplicableTieBreak
    | AbstainBaselineMode | AbstainMissingResult | AbstainStatus | AbstainReviewRequired | AbstainIdentityMismatch
    | AbstainPolicyMismatch | AbstainUnverifiedEvidence | AbstainIncompleteProvenance | AbstainUnsupportedState

  datatype Factor = Apply(value: int, reason: Reason) | Abstain(reason: Reason)

  /** Adapts a readiness result; every doubt about it is an abstention. */
  function EvaluateReadiness(input: Option<FactorInput>, mode: Mode): (f: Factor)
    ensures f.Apply? ==> mode.ReadinessAware?
    ensures f.Apply? ==> f.value == 0 || f.value == 1
  {
    if mode == StructuralBaseline then Abstain(AbstainBaselineMode)
    else if input.None? || input.value.result.None? then Abstain(AbstainMissingResult)
    else if input.value.courseCode != input.value.resultCourseCode then Abstain(AbstainIdentityMismatch)
    else if !input.value.evidenceVerified then Abstain(AbstainUnverifiedEvidence)
    else if !input.value.provenanceComplete then Abstain(AbstainIncompleteProvenance)
    else
      var r := input.value.result.value;
      if r.policyVersion != "1.0" then Abstain(AbstainPolicyMismatch)
      else if !r.isReadiness then Abstain(AbstainUnsupportedState)
      else if r.status == StatusReviewRequired then Abstain(AbstainReviewRequired)
      else if r.status != Available || r.missingInputs then Abstain(AbstainStatus)
      else if r.state == Some(PreparationAvailable) then Apply(1, PreparationTieBreak)
      else if r.state == Some(NotApplicable) then Apply(1, NotApplicableTieBreak)
      else if r.state == Some(CautionAvailable) then Apply(0, CautionTieBreak)
      else if r.state == Some(ReviewRequired) then Abstain(AbstainReviewRequired)
      else Abstain(AbstainStatus)
  }

  /** Nothing speaks against the result: it is about this course, verified, complete, of the known
      policy, available, and its state is one of the three that order. */
  predicate Dependable(input: FactorInput) {
    && input.result.Some? && input.courseCode == input.resultCourseCode
    && input.evidenceVerified && input.provenanceComplete
    && var r := input.result.value;
       && r.policyVersion == "1.0" && r.isReadiness && r.status == Available && !r.missingInputs
       && r.state in {Some(PreparationAvailable), Some(NotApplicable), Some(CautionAvailable)}
  }

  /** A factor applies exactly to dependable results in readiness mode, and is favourable exactly
      when there is no caution. */
  lemma FactorAppliesExactly(input: Option<FactorInput>, mode: Mode)
    ensures var f := EvaluateReadiness(input, mode);
            && (f.Apply? <==> mode == ReadinessAware && input.Some? && Dependable(input.value))
            && (f.Apply? ==> (f.value == 0 <==> input.value.result.value.state == Some(CautionAvailable)))
  {
  }

  /** An abstention names a defect that is there. */
  lemma ReasonsAreTrue(input: Option<FactorInput>, mode: Mode)
    ensures match EvaluateReadiness(input, mode).reason
            case AbstainBaselineMode => mode == StructuralBaseline
            case AbstainMissingResult => input.None? || input.value.result.None?
            case AbstainIdentityMismatch => input.Some? && input.value.courseCode != input.value.resultCourseCode
            case AbstainUnverifiedEvidence => input.Some? && !input.value.evidenceVerified
            case AbstainIncompleteProvenance => input.Some? && !input.value.provenanceComplete
            case AbstainPolicyMismatch => input.Some? && input.value.result.Some? && input.value.result.value.policyVersion != "1.0"
            case AbstainUnsupportedState => input.Some? && input.value.result.Some? && !input.value.result.value.isReadiness
            case AbstainReviewRequired =>
              && input.Some? && input.value.result.Some?
              && (input.value.result.value.status == StatusReviewRequired || input.value.result.value.state == Some(ReviewRequired))
            case AbstainStatus =>
              && input.Some? && input.value.result.Some?
              && (input.value.result.value.status != Available || input.value.result.value.missingInputs
                  || input.value.result.value.state.None? || input.value.result.value.state.value == InsufficientData)
            case PreparationTieBreak => input.Some? && input.value.result.Some? && input.value.result.value.state == Some(PreparationAvailable)
            case NotApplicableTieBreak => input.Some? && input.value.result.Some? && input.value.result.value.state == Some(NotApplicable)
            case CautionTieBreak => input.Some? && input.value.result.Some? && input.value.result.value.state == Some(CautionAvailable)
  {
  }

  /** The first five dimensions of the recommendation's priority tuple. */
  datatype Key = Key(p1: int, p2: int, p3: real, p4: int, p5: int)

  datatype Candidate = Candidate(code: Code, rank: int, key: Key)

  type Readiness = map<Code, FactorInput>

  function FactorOf(readiness: Readiness, mode: Mode, code: Code): Factor {
    EvaluateReadiness(if code in readiness then Some(readiness[code]) else None, mode)
  }

  function ValueOf(readiness: Readiness, mode: Mode, c: Candidate): int {
    var f := FactorOf(readiness, mode, c.code);
    if f.Apply? then f.value else 0
  }

  /** Sort key (-value, rank). */
  predicate Before(readiness: Readiness, mode: Mode, a: Candidate, b: Candidate) {
    var va, vb := ValueOf(readiness, mode, a), ValueOf(readiness, mode, b);
    va > vb || (va == vb && a.rank <= b.rank)
  }

  function BeforeOrder(readiness: Readiness, mode: Mode): (Candidate, Candidate) -> bool {
    (a, b) => Before(readiness, mode, a, b)
  }

  // ---- Groups -------------------------------------------------------------------------

  function GroupOf(base: seq<Candidate>, key: Key): seq<Candidate> {
    if base == [] then []
    else
      var last := base[|base| - 1];
      GroupOf(base[..|base| - 1], key) + (if last.key == key then [last] else [])
  }

  /** Keys in order of first appearance. */
  function FirstKeys(base: seq<Candidate>): seq<Key> {
    if base == [] then []
    else
      var front, last := FirstKeys(base[..|base| - 1]), base[|base| - 1].key;
      if last in front then front else front + [last]
  }

  predicate Applies(readiness: Readiness, mode: Mode, group: seq<Candidate>) {
    mode == ReadinessAware && forall c :: c in group ==> FactorOf(readiness, mode, c.code).Apply?
  }

  /** One tie group after the tie-break: reordered only when every member has a factor. */
  function Arrange(readiness: Readiness, mode: Mode, group: seq<Candidate>): seq<Candidate> {
    if Applies(readiness, mode, group) then Sort(BeforeOrder(readiness, mode), group) else group
  }

  function Blocks(readiness: Readiness, mode: Mode, base: seq<Candidate>, keys: seq<Key>): seq<Candidate> {
    if keys == [] then []
    else
      Blocks(readiness, mode, base, keys[..|keys| - 1])
      + Arrange(readiness, mode, GroupOf(base, keys[|keys| - 1]))
  }

  /** The final order as a function of the baseline. */
  function FinalOrder(readiness: Readiness, mode: Mode, base: seq<Candidate>): seq<Candidate> {
    Blocks(readiness, mode, base, FirstKeys(base))
  }

  lemma GroupSnoc(front: seq<Candidate>, last: Candidate, key: Key)
    ensures GroupOf(front + [last], key) == GroupOf(front, key) + (if last.key == key then [last] else [])
    ensures FirstKeys(front + [last]) == (if last.key in FirstKeys(front) then FirstKeys(front) else FirstKeys(front) + [last.key])
  {
    assert (front + [last])[..|front|] == front;
  }

  lemma {:induction false} GroupMembers(base: seq<Candidate>, key: Key)
    ensures forall c :: c in GroupOf(base, key) <==> c in base && c.key == key
    ensures GroupOf(base, key) != [] <==> key in FirstKeys(base)
  {
    if base != [] {
      var front, last := base[..|base| - 1], base[|base| - 1];
      GroupMembers(front, key);
      assert base == front + [last];
    }
  }

  lemma {:induction false} FirstKeysDistinct(base: seq<Candidate>)
    ensures Distinct(FirstKeys(base))
  {
    if base != [] { FirstKeysDistinct(base[..|base| - 1]); }
  }

  datatype Change = Change(code: Code, baselineRank: nat, finalRank: nat)

  /** The two accumulators describe exactly the groups of `base`. */
  ghost predicate Grouped(groups: map<Key, seq<Candidate>>, groupOrder: seq<Key>, base: seq<Candidate>) {
    && groupOrder == FirstKeys(base)
    && groups.Keys == Elements(groupOrder)
    && forall k :: k in groups ==> groups[k] == GroupOf(base, k)
  }

  lemma GroupedSnoc(groups: map<Key, seq<Candidate>>, groupOrder: seq<Key>, front: seq<Candidate>, c: Candidate)
    requires Grouped(groups, groupOrder, front)
    ensures Grouped(groups[c.key := (if c.key in groups then groups[c.key] else []) + [c]],
                    if c.key in groups then groupOrder else groupOrder + [c.key], front + [c])
  {
    hide GroupOf, FirstKeys;
    GroupMembers(front, c.key);
    GroupSnoc(front, c, c.key);
    assert c.key in groups <==> c.key in groupOrder;
    forall k | k in groups && k != c.key ensures GroupOf(front + [c], k) == groups[k] {
      GroupSnoc(front, c, k);
    }
  }

  /** The `groups` dictionary and `group_order` list filled in one pass over the baseline. */
  method GroupByKey(base: seq<Candidate>) returns (groups: map<Key, seq<Candidate>>, groupOrder: seq<Key>)
    ensures groupOrder == FirstKeys(base)
    ensures groups.Keys == Elements(groupOrder)
    ensures forall k :: k in groups ==> groups[k] == GroupOf(base, k)
  {
    groups, groupOrder := map[], [];
    var i := 0;
    assert base[..0] == [];
    while i < |base|
      invariant 0 <= i <= |base|
      invariant Grouped(groups, groupOrder, base[..i])
    {
      hide Grouped;
      var c := base[i];
      assert base[..i + 1] == base[..i] + [c];
      GroupedSnoc(groups, groupOrder, base[..i], c);
      if c.key !in groups {
        groups := groups[c.key := []];
        groupOrder := groupOrder + [c.key];
      }
      groups := groups[c.key := groups[c.key] + [c]];
      i := i + 1;
    }
    assert base[..i] == base;
  }

  /** A candidate as the result shows it. */
  datatype View = View(candidate: Candidate, baselineRank: int, finalRank: nat, factor: Factor)

  /** The view carries the candidate, its old rank, its factor, and as its new rank the last place of
      its code in the new order. */
  ghost predicate Shows(readiness: Readiness, mode: Mode, order: seq<Code>, c: Candidate, v: View) {
    && v.candidate == c && v.baselineRank == c.rank && v.factor == FactorOf(readiness, mode, c.code)
    && 1 <= v.finalRank <= |order| && order[v.finalRank - 1] == c.code && c.code !in order[v.finalRank..]
  }

  lemma {:induction false} RankIsLastPlace(order: seq<Code>, code: Code)
    requires code in order
    ensures code !in order[RankIn(order, code)..]
  {
    var front, last := order[..|order| - 1], order[|order| - 1];
    if code != last {
      assert order == front + [last];
      RankIsLastPlace(front, code);
      assert order[RankIn(order, code)..] == front[RankIn(front, code)..] + [last];
    }
  }

  function FactorsOf(readiness: Readiness, mode: Mode, base: seq<Candidate>): seq<Factor> {
    seq(|base|, i requires 0 <= i < |base| => FactorOf(readiness, mode, base[i].code))
  }

  /** The factors that apply, or those that abstain, in baseline order. */
  function Picked(factors: seq<Factor>, applied: bool): seq<Factor> {
    if factors == [] then []
    else
      var last := factors[|factors| - 1];
      Picked(factors[..|factors| - 1], applied) + (if last.Apply? == applied then [last] else [])
  }

  /** Every factor is listed once, as applied or as ignored. */
  lemma {:induction false} FactorsArePartitioned(factors: seq<Factor>)
    ensures multiset(Picked(factors, true)) + multiset(Picked(factors, false)) == multiset(factors)
    ensures forall f :: f in Picked(factors, true) ==> f.Apply?
    ensures forall f :: f in Picked(factors, false) ==> f.Abstain?
  {
    if factors != [] {
      FactorsArePartitioned(factors[..|factors| - 1]);
      assert factors == factors[..|factors| - 1] + [factors[|factors| - 1]];
    }
  }

  /** The composition itself: group, split each group that has a factor for everyone, concatenate;
      then the views, whose final rank is the last place of the course in the new order, and the
      parts of the trace. */
  method IntegrateRecommendations(base: seq<Candidate>, mode: Mode, readiness: Readiness)
    returns (ordered: seq<Candidate>, views: seq<View>, applied: seq<Factor>, ignored: seq<Factor>, changes: seq<Change>)
    ensures ordered == FinalOrder(readiness, mode, base)
    ensures |views| == |ordered|
    ensures forall i :: 0 <= i < |views| ==>
              && Shows(readiness, mode, CodesOf(ordered), ordered[i], views[i])
              && (Distinct(CodesOf(base)) ==> views[i].finalRank == i + 1)
    ensures applied == Picked(FactorsOf(readiness, mode, base), true) && ignored == Picked(FactorsOf(readiness, mode, base), false)
    ensures multiset(applied) + multiset(ignored) == multiset(FactorsOf(readiness, mode, base))
    ensures changes == RelativeOrderChanges(CodesOf(base), CodesOf(ordered))
  {
    hide EvaluateReadiness, GroupOf, FirstKeys;
    var groups, groupOrder := GroupByKey(base);
    ordered := [];
    var j := 0;
    while j < |groupOrder|
      invariant 0 <= j <= |groupOrder|
      invariant ordered == Blocks(readiness, mode, base, groupOrder[..j])
    {
      var candidates := groups[groupOrder[j]];
      assert groupOrder[..j + 1][..j] == groupOrder[..j];
      if mode == ReadinessAware && forall c: Candidate :: c in candidates ==> FactorOf(readiness, mode, c.code).Apply? {
        candidates := Sort(BeforeOrder(readiness, mode), candidates);
      }
      ordered := ordered + candidates;
      j := j + 1;
    }
    assert groupOrder[..j] == groupOrder;
    views := ViewsOf(readiness, mode, ordered);
    forall i | 0 <= i < |views| ensures Shows(readiness, mode, CodesOf(ordered), ordered[i], views[i]) {
      ViewsShow(readiness, mode, ordered, i);
    }
    if Distinct(CodesOf(base)) { UniqueCodesKeepPlace(readiness, mode, base, views); }
    var factors := FactorsOf(readiness, mode, base);
    applied, ignored := Picked(factors, true), Picked(factors, false);
    FactorsArePartitioned(factors);
    changes := RelativeOrderChanges(CodesOf(base), CodesOf(ordered));
  }

  function ViewsOf(readiness: Readiness, mode: Mode, ordered: seq<Candidate>): seq<View> {
    seq(|ordered|, i requires 0 <= i < |ordered| =>
      var c := ordered[i];
      View(c, c.rank, RankIn(CodesOf(ordered), c.code), FactorOf(readiness, mode, c.code)))
  }

  lemma ViewsShow(readiness: Readiness, mode: Mode, ordered: seq<Candidate>, i: nat)
    requires i < |ordered|
    ensures Shows(readiness, mode, CodesOf(ordered), ordered[i], ViewsOf(readiness, mode, ordered)[i])
  {
    hide EvaluateReadiness, FactorOf;
    assert CodesOf(ordered)[i] == ordered[i].code;
    RankIsLastPlace(CodesOf(ordered), ordered[i].code);
  }

  lemma UniqueCodesKeepPlace(readiness: Readiness, mode: Mode, base: seq<Candidate>, views: seq<View>)
    requires var ordered := FinalOrder(readiness, mode, base);
             |views| == |ordered| && forall i :: 0 <= i < |views| ==> Shows(readiness, mode, CodesOf(ordered), ordered[i], views[i])
    requires Distinct(CodesOf(base))
    ensures forall i :: 0 <= i < |views| ==> views[i].finalRank == i + 1
  {
    hide FinalOrder, FactorOf;
    FinalCodesAreUnique(readiness, mode, base);
    var ordered := FinalOrder(readiness, mode, base);
    var order := CodesOf(ordered);
    forall i | 0 <= i < |views| ensures views[i].finalRank == i + 1 {
      assert Shows(readiness, mode, order, ordered[i], views[i]) && order[i] == ordered[i].code;
    }
  }

  // ---- Permutation --------------------------------------------------------------------

  lemma BeforeIsPreorder(readiness: Readiness, mode: Mode)
    ensures Preorder(BeforeOrder(readiness, mode))
  {
  }

  lemma ArrangeFacts(readiness: Readiness, mode: Mode, group: seq<Candidate>)
    ensures multiset(Arrange(readiness, mode, group)) == multiset(group)
    ensures |Arrange(readiness, mode, group)| == |group|
    ensures forall c :: c in Arrange(readiness, mode, group) <==> c in group
  {
    BeforeIsPreorder(readiness, mode);
    if Applies(readiness, mode, group) {
      SortCorrect(BeforeOrder(readiness, mode), group);
      forall c ensures c in Arrange(readiness, mode, group) <==> c in group {
        SortMembers(BeforeOrder(readiness, mode), group, c);
      }
    }
  }

  lemma {:induction false} BlocksWithout(readiness: Readiness, mode: Mode, front: seq<Candidate>, last: Candidate, keys: seq<Key>)
    requires last.key !in keys
    ensures Blocks(readiness, mode, front + [last], keys) == Blocks(readiness, mode, front, keys)
  {
    hide GroupOf, Arrange;
    if keys != [] {
      var k := keys[|keys| - 1];
      BlocksWithout(readiness, mode, front, last, keys[..|keys| - 1]);
      GroupSnoc(front, last, k);
      assert k in keys;
      assert GroupOf(front + [last], k) == GroupOf(front, k);
    }
  }

  lemma BlocksSnoc(readiness: Readiness, mode: Mode, base: seq<Candidate>, rest: seq<Key>, k: Key)
    ensures multiset(Blocks(readiness, mode, base, rest + [k]))
            == multiset(Blocks(readiness, mode, base, rest)) + multiset(GroupOf(base, k))
  {
    hide Applies, GroupOf;
    assert (rest + [k])[..|rest|] == rest;
    ArrangeFacts(readiness, mode, GroupOf(base, k));
  }

  lemma {:induction false} BlocksMultiset(readiness: Readiness, mode: Mode, front: seq<Candidate>, last: Candidate, keys: seq<Key>)
    requires Distinct(keys) && last.key in keys
    ensures multiset(Blocks(readiness, mode, front + [last], keys))
            == multiset(Blocks(readiness, mode, front, keys)) + multiset{last}
  {
    hide GroupOf, Blocks;
    var k, rest := keys[|keys| - 1], keys[..|keys| - 1];
    assert keys == rest + [k];
    GroupSnoc(front, last, k);
    BlocksSnoc(readiness, mode, front, rest, k);
    BlocksSnoc(readiness, mode, front + [last], rest, k);
    if k == last.key {
      BlocksWithout(readiness, mode, front, last, rest);
      assert multiset(GroupOf(front + [last], k)) == multiset(GroupOf(front, k)) + multiset{last};
    } else {
      BlocksMultiset(readiness, mode, front, last, rest);
      assert GroupOf(front + [last], k) == GroupOf(front, k);
    }
  }

  /** A key the baseline does not contain contributes an empty block. */
  lemma BlocksOfNewKey(readiness: Readiness, mode: Mode, front: seq<Candidate>, key: Key)
    requires key !in FirstKeys(front)
    ensures Blocks(readiness, mode, front, FirstKeys(front) + [key]) == FinalOrder(readiness, mode, front)
  {
    hide FirstKeys, Applies;
    var keys := FirstKeys(front) + [key];
    assert keys[..|keys| - 1] == FirstKeys(front);
    GroupMembers(front, key);
    ArrangeFacts(readiness, mode, []);
    assert Arrange(readiness, mode, GroupOf(front, key)) == [];
  }

  /** Every candidate comes out exactly once, whatever the baseline looks like. */
  lemma {:induction false} FinalIsPermutation(readiness: Readiness, mode: Mode, base: seq<Candidate>)
    ensures multiset(FinalOrder(readiness, mode, base)) == multiset(base)
  {
    hide Blocks, FirstKeys;
    if base == [] {
      PermutationOfNothing(readiness, mode);
    } else {
      var front, last := base[..|base| - 1], base[|base| - 1];
      assert base == front + [last];
      FinalIsPermutation(readiness, mode, front);
      GroupSnoc(front, last, last.key);
      FirstKeysDistinct(base);
      BlocksMultiset(readiness, mode, front, last, FirstKeys(base));
      if last.key !in FirstKeys(front) {
        BlocksOfNewKey(readiness, mode, front, last.key);
      }
      assert multiset(base) == multiset(front) + multiset{last};
    }
  }

  lemma PermutationOfNothing(readiness: Readiness, mode: Mode)
    ensures FinalOrder(readiness, mode, []) == []
  {
    assert FirstKeys([]) == [];
  }

  // ---- Tie groups keep their places ---------------------------------------------------

  /** Equal keys sit next to each other, as a ranking sorted by key leaves them. */
  ghost predicate Contiguous(base: seq<Candidate>) {
    forall i, j, k :: 0 <= i < j < k < |base| && base[i].key == base[k].key ==> base[j].key == base[i].key
  }

  ghost predicate SameKeys(a: seq<Candidate>, b: seq<Candidate>) {
    |a| == |b| && forall i :: 0 <= i < |a| ==> a[i].key == b[i].key
  }

  function Concat(base: seq<Candidate>, keys: seq<Key>): seq<Candidate> {
    if keys == [] then [] else Concat(base, keys[..|keys| - 1]) + GroupOf(base, keys[|keys| - 1])
  }

  lemma {:induction false} ConcatWithout(front: seq<Candidate>, last: Candidate, keys: seq<Key>)
    requires last.key !in keys
    ensures Concat(front + [last], keys) == Concat(front, keys)
  {
    if keys != [] {
      ConcatWithout(front, last, keys[..|keys| - 1]);
      GroupSnoc(front, last, keys[|keys| - 1]);
    }
  }

  lemma {:induction false} LastKeyIsLatest(base: seq<Candidate>)
    requires base != [] && Contiguous(base)
    ensures FirstKeys(base) != [] && FirstKeys(base)[|FirstKeys(base)| - 1] == base[|base| - 1].key
  {
    var front, last := base[..|base| - 1], base[|base| - 1];
    if last.key in FirstKeys(front) {
      hide GroupOf;
      GroupMembers(front, last.key);
      var c := GroupOf(front, last.key)[0];
      var i :| 0 <= i < |front| && front[i] == c;
      assert base[i].key == base[|base| - 1].key;
      assert front[|front| - 1].key == last.key by {
        if i < |front| - 1 { assert base[|front| - 1].key == base[i].key; }
      }
      LastKeyIsLatest(front);
    }
  }

  lemma ConcatSnoc(base: seq<Candidate>, rest: seq<Key>, k: Key)
    ensures Concat(base, rest + [k]) == Concat(base, rest) + GroupOf(base, k)
  {
    assert (rest + [k])[..|rest|] == rest;
  }

  /** The candidate last in the ranking is last in the last block. */
  lemma ConcatAppend(front: seq<Candidate>, last: Candidate, rest: seq<Key>)
    requires last.key !in rest
    ensures Concat(front + [last], rest + [last.key]) == Concat(front, rest + [last.key]) + [last]
  {
    hide Concat, GroupOf, FirstKeys;
    ConcatSnoc(front + [last], rest, last.key);
    ConcatSnoc(front, rest, last.key);
    ConcatWithout(front, last, rest);
    GroupSnoc(front, last, last.key);
  }

  /** Taking the last candidate away either keeps the list of keys or drops its last entry. */
  lemma LastKeySplits(front: seq<Candidate>, last: Candidate) returns (rest: seq<Key>)
    requires Contiguous(front + [last])
    ensures Contiguous(front)
    ensures FirstKeys(front + [last]) == rest + [last.key] && last.key !in rest
    ensures FirstKeys(front) == (if last.key in FirstKeys(front) then rest + [last.key] else rest)
  {
    hide FirstKeys;
    var base := front + [last];
    LastKeyIsLatest(base);
    FirstKeysDistinct(base);
    GroupSnoc(front, last, last.key);
    var keys := FirstKeys(base);
    rest := keys[..|keys| - 1];
    assert forall i, j, k {:trigger front[i], front[j], front[k]} :: 0 <= i < j < k < |front| ==>
      base[i] == front[i] && base[j] == front[j] && base[k] == front[k];
  }

  /** Cut into groups and put back together, a contiguous ranking is unchanged. */
  lemma {:induction false} ConcatRestores(base: seq<Candidate>)
    requires Contiguous(base)
    ensures Concat(base, FirstKeys(base)) == base
  {
    if base != [] {
      hide GroupOf, FirstKeys, Concat, Contiguous;
      var front, last := base[..|base| - 1], base[|base| - 1];
      assert base == front + [last];
      var rest := LastKeySplits(front, last);
      ConcatRestores(front);
      ConcatAppend(front, last, rest);
      if last.key !in FirstKeys(front) {
        GroupMembers(front, last.key);
        ConcatSnoc(front, rest, last.key);
      }
    }
  }

  lemma SameKeysAppend(a: seq<Candidate>, b: seq<Candidate>, c: seq<Candidate>, d: seq<Candidate>)
    requires SameKeys(a, b) && SameKeys(c, d)
    ensures SameKeys(a + c, b + d)
  {
  }

  lemma ArrangeSameKeys(readiness: Readiness, mode: Mode, base: seq<Candidate>, k: Key)
    ensures SameKeys(Arrange(readiness, mode, GroupOf(base, k)), GroupOf(base, k))
  {
    var g := GroupOf(base, k);
    ArrangeFacts(readiness, mode, g);
    GroupMembers(base, k);
    hide Arrange, GroupOf;
    forall i | 0 <= i < |g| ensures g[i].key == k && Arrange(readiness, mode, g)[i].key == k {
      assert g[i] in g && Arrange(readiness, mode, g)[i] in Arrange(readiness, mode, g);
    }
  }

  lemma {:induction false} BlocksSameKeys(readiness: Readiness, mode: Mode, base: seq<Candidate>, keys: seq<Key>)
    ensures SameKeys(Blocks(readiness, mode, base, keys), Concat(base, keys))
  {
    if keys != [] {
      var k, rest := keys[|keys| - 1], keys[..|keys| - 1];
      BlocksSameKeys(readiness, mode, base, rest);
      ArrangeSameKeys(readiness, mode, base, k);
      hide SameKeys, Arrange, GroupOf;
      SameKeysAppend(Blocks(readiness, mode, base, rest), Concat(base, rest),
                     Arrange(readiness, mode, GroupOf(base, k)), GroupOf(base, k));
    }
  }

  /** No course leaves the rank interval of its tie group: place by place the keys are the same. */
  lemma TieGroupsKeepTheirPlaces(readiness: Readiness, mode: Mode, base: seq<Candidate>)
    requires Contiguous(base)
    ensures SameKeys(FinalOrder(readiness, mode, base), base)
  {
    BlocksSameKeys(readiness, mode, base, FirstKeys(base));
    ConcatRestores(base);
  }

  lemma {:induction false} BlocksContiguous(base: seq<Candidate>, keys: seq<Key>)
    requires Distinct(keys)
    ensures Contiguous(Concat(base, keys))
    ensures forall c :: c in Concat(base, keys) ==> c.key in keys
  {
    if keys != [] {
      var k, rest := keys[|keys| - 1], keys[..|keys| - 1];
      BlocksContiguous(base, rest);
      GroupMembers(base, k);
      var a, g := Concat(base, rest), GroupOf(base, k);
      assert k !in rest;
      ContiguousAppend(a, g, k);
    }
  }

  lemma ContiguousAppend(a: seq<Candidate>, g: seq<Candidate>, k: Key)
    requires Contiguous(a) && (forall c :: c in a ==> c.key != k) && (forall c :: c in g ==> c.key == k)
    ensures Contiguous(a + g)
  {
    var s := a + g;
    forall i | 0 <= i < |s| ensures s[i].key == k <==> i >= |a| {
      assert i < |a| ==> s[i] in a;
      assert i >= |a| ==> s[i] in g;
    }
  }

  lemma {:induction false} BaselineBlocks(readiness: Readiness, base: seq<Candidate>, keys: seq<Key>)
    ensures Blocks(readiness, StructuralBaseline, base, keys) == Concat(base, keys)
  {
    if keys != [] { BaselineBlocks(readiness, base, keys[..|keys| - 1]); }
  }

  /** The structural baseline mode gives back the baseline exactly when equal keys are contiguous
      in it: grouping by key would otherwise pull scattered ties together. */
  lemma BaselineModeIsIdentity(readiness: Readiness, base: seq<Candidate>)
    ensures FinalOrder(readiness, StructuralBaseline, base) == base <==> Contiguous(base)
  {
    BaselineBlocks(readiness, base, FirstKeys(base));
    FirstKeysDistinct(base);
    BlocksContiguous(base, FirstKeys(base));
    if Contiguous(base) { ConcatRestores(base); }
  }

  // ---- Order inside a tie group -------------------------------------------------------

  ghost predicate Ranked(base: seq<Candidate>) {
    forall i :: 0 <= i < |base| ==> base[i].rank == i + 1
  }

  /** Within its own tie group a course precedes another exactly as the policy says. */
  ghost predicate GroupOrdered(readiness: Readiness, mode: Mode, base: seq<Candidate>, final: seq<Candidate>) {
    forall i, j :: 0 <= i < j < |final| && final[i].key == final[j].key ==>
      if Applies(readiness, mode, GroupOf(base, final[i].key))
      then Before(readiness, mode, final[i], final[j])
      else final[i].rank < final[j].rank
  }

  lemma {:induction false} GroupRanksAscend(base: seq<Candidate>, key: Key)
    requires forall i, j :: 0 <= i < j < |base| ==> base[i].rank < base[j].rank
    ensures var g := GroupOf(base, key); forall i, j :: 0 <= i < j < |g| ==> g[i].rank < g[j].rank
  {
    if base != [] {
      var front, last := base[..|base| - 1], base[|base| - 1];
      GroupRanksAscend(front, key);
      GroupMembers(front, key);
      var g := GroupOf(front, key);
      forall i | 0 <= i < |g| ensures g[i].rank < last.rank {
        assert g[i] in g;
        var k :| 0 <= k < |front| && front[k] == g[i];
        assert base[k].rank < base[|base| - 1].rank;
      }
    }
  }

  lemma {:induction false} BlocksOrdered(readiness: Readiness, mode: Mode, base: seq<Candidate>, keys: seq<Key>)
    requires Ranked(base) && Distinct(keys)
    ensures GroupOrdered(readiness, mode, base, Blocks(readiness, mode, base, keys))
    ensures forall c :: c in Blocks(readiness, mode, base, keys) ==> c.key in keys
  {
    if keys != [] {
      var k, rest := keys[|keys| - 1], keys[..|keys| - 1];
      assert k !in rest;
      BlocksOrdered(readiness, mode, base, rest);
      ArrangeOrdered(readiness, mode, base, k);
      var a, b := Blocks(readiness, mode, base, rest), Arrange(readiness, mode, GroupOf(base, k));
      OrderedAppend(readiness, mode, base, a, b, k);
      forall c: Candidate | c in a + b ensures c.key in keys {}
    }
  }

  lemma ArrangeOrdered(readiness: Readiness, mode: Mode, base: seq<Candidate>, k: Key)
    requires Ranked(base)
    ensures GroupOrdered(readiness, mode, base, Arrange(readiness, mode, GroupOf(base, k)))
    ensures forall c :: c in Arrange(readiness, mode, GroupOf(base, k)) ==> c.key == k
  {
    hide Applies, Before;
    var g := GroupOf(base, k);
    ArrangeFacts(readiness, mode, g);
    GroupMembers(base, k);
    GroupRanksAscend(base, k);
    var b := Arrange(readiness, mode, g);
    forall i | 0 <= i < |b| ensures b[i].key == k { assert b[i] in b; }
    if Applies(readiness, mode, g) {
      BeforeIsPreorder(readiness, mode);
      SortCorrect(BeforeOrder(readiness, mode), g);
      forall i, j | 0 <= i < j < |b| ensures Before(readiness, mode, b[i], b[j]) {
        assert BeforeOrder(readiness, mode)(b[i], b[j]);
      }
    }
  }

  lemma OrderedAppend(readiness: Readiness, mode: Mode, base: seq<Candidate>, a: seq<Candidate>, b: seq<Candidate>, k: Key)
    requires GroupOrdered(readiness, mode, base, a) && GroupOrdered(readiness, mode, base, b)
    requires (forall c :: c in a ==> c.key != k) && (forall c :: c in b ==> c.key == k)
    ensures GroupOrdered(readiness, mode, base, a + b)
  {
    hide Applies, Before, GroupOf;
    var s := a + b;
    forall i | 0 <= i < |s| ensures s[i].key == k <==> i >= |a| {
      assert i < |a| ==> s[i] in a;
      assert i >= |a| ==> s[i] in b;
    }
    forall i, j | 0 <= i < j < |s| && s[i].key == s[j].key
      ensures if Applies(readiness, mode, GroupOf(base, s[i].key)) then Before(readiness, mode, s[i], s[j])
              else s[i].rank < s[j].rank
    {
      if j < |a| { assert s[i] == a[i] && s[j] == a[j]; } else { assert s[i] == b[i - |a|] && s[j] == b[j - |a|]; }
    }
  }

  /** Over a well formed baseline each tie group is either split into favourable then cautious
      courses, both by rank, or, with any abstention in it, left exactly in rank order. */
  lemma StableReadinessSplit(readiness: Readiness, mode: Mode, base: seq<Candidate>)
    requires Ranked(base)
    ensures var final := FinalOrder(readiness, mode, base);
            forall i, j :: 0 <= i < j < |final| && final[i].key == final[j].key ==>
              if mode == ReadinessAware && forall c :: c in base && c.key == final[i].key ==> FactorOf(readiness, mode, c.code).Apply?
              then
                && FactorOf(readiness, mode, final[i].code).Apply? && FactorOf(readiness, mode, final[j].code).Apply?
                && (FactorOf(readiness, mode, final[i].code).value == 1 || FactorOf(readiness, mode, final[j].code).value == 0)
                && (FactorOf(readiness, mode, final[i].code).value == FactorOf(readiness, mode, final[j].code).value ==> final[i].rank <= final[j].rank)
              else final[i].rank < final[j].rank
  {
    FirstKeysDistinct(base);
    BlocksOrdered(readiness, mode, base, FirstKeys(base));
    FinalIsPermutation(readiness, mode, base);
    var final := FinalOrder(readiness, mode, base);
    hide FinalOrder, EvaluateReadiness, GroupOf;
    forall i, j | 0 <= i < j < |final| && final[i].key == final[j].key
      ensures if mode == ReadinessAware && forall c :: c in base && c.key == final[i].key ==> FactorOf(readiness, mode, c.code).Apply?
              then
                && FactorOf(readiness, mode, final[i].code).Apply? && FactorOf(readiness, mode, final[j].code).Apply?
                && (FactorOf(readiness, mode, final[i].code).value == 1 || FactorOf(readiness, mode, final[j].code).value == 0)
                && (FactorOf(readiness, mode, final[i].code).value == FactorOf(readiness, mode, final[j].code).value ==> final[i].rank <= final[j].rank)
              else final[i].rank < final[j].rank
    {
      GroupMembers(base, final[i].key);
      InMultiset(final, final[i]);
      InMultiset(base, final[i]);
      InMultiset(final, final[j]);
      InMultiset(base, final[j]);
    }
  }

  // ---- The trace ----------------------------------------------------------------------

  function CodesOf(s: seq<Candidate>): seq<Code> {
    seq(|s|, i requires 0 <= i < |s| => s[i].code)
  }

  /** `{code: index + 1}`: the last occurrence wins. */
  function RankIn(order: seq<Code>, code: Code): (r: nat)
    ensures r == 0 <==> code !in order
    ensures r > 0 ==> r <= |order| && order[r - 1] == code
  {
    if order == [] then 0
    else if order[|order| - 1] == code then |order|
    else RankIn(order[..|order| - 1], code)
  }

  /** Courses whose rank differs, in baseline order. */
  function ChangesAmong(codes: seq<Code>, baseline: seq<Code>, final: seq<Code>): seq<Change> {
    if codes == [] then []
    else
      var c := codes[|codes| - 1];
      var b, f := RankIn(baseline, c), RankIn(final, c);
      ChangesAmong(codes[..|codes| - 1], baseline, final) + (if b != f then [Change(c, b, f)] else [])
  }

  function RelativeOrderChanges(baseline: seq<Code>, final: seq<Code>): seq<Change> {
    ChangesAmong(baseline, baseline, final)
  }

  lemma {:induction false} ChangesMembers(codes: seq<Code>, baseline: seq<Code>, final: seq<Code>)
    ensures forall x :: x in ChangesAmong(codes, baseline, final) <==>
              && x.code in codes && x.baselineRank == RankIn(baseline, x.code)
              && x.finalRank == RankIn(final, x.code) && x.baselineRank != x.finalRank
  {
    if codes != [] {
      var front, last := codes[..|codes| - 1], codes[|codes| - 1];
      ChangesMembers(front, baseline, final);
      assert codes == front + [last];
    }
  }

  lemma RankOfPosition(order: seq<Code>, i: nat)
    requires Distinct(order) && i < |order|
    ensures RankIn(order, order[i]) == i + 1
  {
    var r := RankIn(order, order[i]);
    assert order[i] in order;
    assert order[r - 1] == order[i];
  }

  /** With unique codes the trace lists exactly the courses that moved, with both ranks. */
  lemma TraceListsMovedCourses(baseline: seq<Code>, final: seq<Code>)
    requires Distinct(baseline) && Distinct(final) && Elements(baseline) == Elements(final)
    ensures forall i, j :: 0 <= i < |baseline| && 0 <= j < |final| && baseline[i] == final[j] ==>
              (Change(baseline[i], i + 1, j + 1) in RelativeOrderChanges(baseline, final) <==> i != j)
    ensures RelativeOrderChanges(baseline, final) == [] <==> final == baseline
  {
    ChangesMembers(baseline, baseline, final);
    var changes := RelativeOrderChanges(baseline, final);
    forall i, j | 0 <= i < |baseline| && 0 <= j < |final| && baseline[i] == final[j]
      ensures Change(baseline[i], i + 1, j + 1) in changes <==> i != j
    {
      RankOfPosition(baseline, i);
      RankOfPosition(final, j);
    }
    DistinctSize(baseline);
    DistinctSize(final);
    assert final == baseline ==> forall x :: x !in changes;
    assert changes != [] ==> changes[0] in changes;
    if changes == [] {
      forall i | 0 <= i < |baseline| ensures final[i] == baseline[i] {
        assert baseline[i] in Elements(final);
        var j :| 0 <= j < |final| && final[j] == baseline[i];
        assert Change(baseline[i], i + 1, j + 1) !in changes;
      }
    }
  }

  /** Unique codes stay unique, so the trace of an integration is the exact list of moves. */
  lemma FinalCodesAreUnique(readiness: Readiness, mode: Mode, base: seq<Candidate>)
    requires Distinct(CodesOf(base))
    ensures var final := CodesOf(FinalOrder(readiness, mode, base));
            Distinct(final) && Elements(final) == Elements(CodesOf(base))
  {
    hide FinalOrder;
    FinalIsPermutation(readiness, mode, base);
    var final := FinalOrder(readiness, mode, base);
    var codes, finals := CodesOf(base), CodesOf(final);
    forall c: Candidate ensures c in final <==> c in base {
      InMultiset(final, c);
      InMultiset(base, c);
    }
    forall i, j | 0 <= i < j < |base| ensures base[i] != base[j] {
      assert codes[i] != codes[j];
    }
    forall i, j | 0 <= i < j < |final| ensures finals[i] != finals[j] {
      assert final[i] in final && final[j] in final;
      var a :| 0 <= a < |base| && base[a] == final[i];
      var b :| 0 <= b < |base| && base[b] == final[j];
      if final[i] == final[j] {
        RepeatedTwice(final, i, j);
        DistinctMultiset(base, final[i]);
      } else {
        assert codes[a] != codes[b];
      }
    }
    SameCodes(base, final);
    SameCodes(final, base);
  }

  lemma SameCodes(a: seq<Candidate>, b: seq<Candidate>)
    requires forall c: Candidate :: c in a ==> c in b
    ensures Elements(CodesOf(a)) <= Elements(CodesOf(b))
  {
    forall x | x in CodesOf(a) ensures x in CodesOf(b) {
      var i :| 0 <= i < |a| && a[i].code == x;
      assert a[i] in b;
      var j :| 0 <= j < |b| && b[j] == a[i];
      assert CodesOf(b)[j] == x;
    }
  }
}
