/** Consequences of delaying one course (apps/api/app/decision_intelligence/delay.py). */
module DelayConsequence {
  import opened Wrappers
  import opened Ordering
  import opened AcademicRules
  import opened PrerequisiteGraph

  datatype Affected = Affected(code: Code, depth: nat, path: seq<Code>)

  function Codes(items: seq<Affected>): set<Code> { set a | a in items :: a.code }

  // ---- Direct impacts -----------------------------------------------------------------

  predicate ExecutableLogic(rule: Rule) { rule.status != Unresolved && rule.status != SourceConflict }

  /** Both scenarios can be decided without review for this dependent of the target. */
  predicate Decidable(catalog: Catalog, target: Code, attempts: seq<Attempt>, code: Code) {
    var before := EvaluateCanTake(catalog, code, attempts + [Attempt(target, Passed)]);
    var after := EvaluateCanTake(catalog, code, attempts);
    before.Decided? && after.Decided?
  }

  predicate DirectlyAffected(catalog: Catalog, target: Code, attempts: seq<Attempt>, code: Code) {
    var rules := RulesOf(catalog.plan);
    && code != target && code in rules && UsesOption(rules[code], target) && ExecutableLogic(rules[code])
    && EvaluateCanTake(catalog, code, attempts + [Attempt(target, Passed)]) == Decided(Eligible)
    && EvaluateCanTake(catalog, code, attempts) == Decided(NotEligible)
  }

  predicate NeedsReview(catalog: Catalog, target: Code, attempts: seq<Attempt>, code: Code) {
    var rules := RulesOf(catalog.plan);
    && code != target && code in rules && UsesOption(rules[code], target)
    && (ExecutableLogic(rules[code]) ==>
          && Decidable(catalog, target, attempts, code)
          && (|| EvaluateCanTake(catalog, code, attempts + [Attempt(target, Passed)]) == Decided(ReviewRequired)
              || EvaluateCanTake(catalog, code, attempts) == Decided(ReviewRequired)))
  }

  function DirectAmong(catalog: Catalog, target: Code, attempts: seq<Attempt>, order: seq<Code>): seq<Affected> {
    if order == [] then []
    else
      var last := order[|order| - 1];
      DirectAmong(catalog, target, attempts, order[..|order| - 1])
      + (if DirectlyAffected(catalog, target, attempts, last) then [Affected(last, 1, [target, last])] else [])
  }

  predicate ReviewAmong(catalog: Catalog, target: Code, attempts: seq<Attempt>, order: seq<Code>) {
    exists c :: c in order && NeedsReview(catalog, target, attempts, c)
  }

  lemma {:induction false} DirectAmongMembers(catalog: Catalog, target: Code, attempts: seq<Attempt>, order: seq<Code>)
    ensures forall a :: a in DirectAmong(catalog, target, attempts, order) <==>
              a.code in order && DirectlyAffected(catalog, target, attempts, a.code) && a == Affected(a.code, 1, [target, a.code])
  {
    hide DirectlyAffected;
    if order != [] {
      var front, last := order[..|order| - 1], order[|order| - 1];
      assert order == front + [last];
      DirectAmongMembers(catalog, target, attempts, front);
    }
  }

  ghost predicate InCodeOrder(items: seq<Affected>) {
    forall i, j :: 0 <= i < j < |items| ==> items[i].code != items[j].code && StrLe(items[i].code, items[j].code)
  }

  lemma {:induction false} DirectAmongInOrder(catalog: Catalog, target: Code, attempts: seq<Attempt>, order: seq<Code>)
    requires Sorted(StrLe, order) && Distinct(order)
    ensures InCodeOrder(DirectAmong(catalog, target, attempts, order))
  {
    hide DirectlyAffected;
    if order != [] {
      var front, last := order[..|order| - 1], order[|order| - 1];
      DirectAmongInOrder(catalog, target, attempts, front);
      DirectAmongMembers(catalog, target, attempts, front);
      var d := DirectAmong(catalog, target, attempts, front);
      assert DirectAmong(catalog, target, attempts, order)
             == d + (if DirectlyAffected(catalog, target, attempts, last) then [Affected(last, 1, [target, last])] else []);
      forall i | 0 <= i < |d| ensures d[i].code != last && StrLe(d[i].code, last) {
        assert d[i] in d;
        var k :| 0 <= k < |front| && front[k] == d[i].code;
        assert order[k] == front[k];
      }
    }
  }

  lemma NothingYet(catalog: Catalog, target: Code, attempts: seq<Attempt>)
    ensures DirectAmong(catalog, target, attempts, []) == [] && !ReviewAmong(catalog, target, attempts, [])
  {
  }

  lemma OneMoreCode(catalog: Catalog, target: Code, attempts: seq<Attempt>, order: seq<Code>, i: nat)
    requires i < |order|
    ensures DirectAmong(catalog, target, attempts, order[..i + 1])
            == DirectAmong(catalog, target, attempts, order[..i])
               + (if DirectlyAffected(catalog, target, attempts, order[i]) then [Affected(order[i], 1, [target, order[i]])] else [])
    ensures ReviewAmong(catalog, target, attempts, order[..i + 1])
            <==> ReviewAmong(catalog, target, attempts, order[..i]) || NeedsReview(catalog, target, attempts, order[i])
  {
    hide DirectlyAffected, NeedsReview;
    assert order[..i + 1] == order[..i] + [order[i]] && order[..i + 1][..i] == order[..i];
  }

  lemma DirectCodes(catalog: Catalog, target: Code, attempts: seq<Attempt>, order: seq<Code>)
    requires Elements(order) == RulesOf(catalog.plan).Keys
    ensures forall code :: code in Codes(DirectAmong(catalog, target, attempts, order))
                           <==> DirectlyAffected(catalog, target, attempts, code)
    ensures ReviewAmong(catalog, target, attempts, order) <==> exists code :: NeedsReview(catalog, target, attempts, code)
  {
    DirectAmongMembers(catalog, target, attempts, order);
    var d := DirectAmong(catalog, target, attempts, order);
    forall code | code in RulesOf(catalog.plan) ensures code in order { assert code in Elements(order); }
    forall code | DirectlyAffected(catalog, target, attempts, code) ensures code in Codes(d) {
      assert Affected(code, 1, [target, code]) in d;
    }
  }

  /** One pass over the plan in code order: the courses that lose eligibility, and whether any
      dependent of the target has to be reviewed. */
  method DirectImpacts(catalog: Catalog, target: Code, attempts: seq<Attempt>)
    returns (direct: seq<Affected>, review: bool)
    ensures forall code :: code in Codes(direct) <==> DirectlyAffected(catalog, target, attempts, code)
    ensures forall a :: a in direct ==> a == Affected(a.code, 1, [target, a.code])
    ensures InCodeOrder(direct)
    ensures review <==> exists code :: NeedsReview(catalog, target, attempts, code)
  {
    hide EvaluateCanTake, UsesOption, RulesOf, DirectAmong, ReviewAmong, Listing, StrLe;
    var rules := RulesOf(catalog.plan);
    var order := SortedList(rules.Keys);
    direct, review := [], false;
    NothingYet(catalog, target, attempts);
    var i := 0;
    assert order[..0] == [];
    while i < |order|
      invariant 0 <= i <= |order|
      invariant direct == DirectAmong(catalog, target, attempts, order[..i])
      invariant review <==> ReviewAmong(catalog, target, attempts, order[..i])
    {
      var code := order[i];
      assert code in Elements(order);
      OneMoreCode(catalog, target, attempts, order, i);
      if code != target && UsesOption(rules[code], target) {
        if !ExecutableLogic(rules[code]) {
          review := true;
        } else {
          var before := EvaluateCanTake(catalog, code, attempts + [Attempt(target, Passed)]);
          var after := EvaluateCanTake(catalog, code, attempts);
          if before.RequestError? || after.RequestError? {
          } else if before.decision == ReviewRequired || after.decision == ReviewRequired {
            review := true;
          } else if before.decision == Eligible && after.decision != Eligible {
            direct := direct + [Affected(code, 1, [target, code])];
          }
        }
      }
      i := i + 1;
    }
    assert order[..i] == order;
    DirectCodes(catalog, target, attempts, order);
    DirectAmongMembers(catalog, target, attempts, order);
    DirectAmongInOrder(catalog, target, attempts, order);
  }

  // ---- Transitive impacts: what the worklist computes -----------------------------------

  /** Nothing of the group is passed and all of it is unavailable. */
  predicate Ready(g: Group, passed: set<Code>, u: set<Code>) {
    forall o :: o in g.options ==> o !in passed && o in u
  }

  predicate HasOther(g: Group, target: Code) {
    exists o :: o in g.options && o != target
  }

  /** A verified course whose ready group has an option besides the target. */
  ghost predicate Propagates(rules: map<Code, Rule>, passed: set<Code>, target: Code, u: set<Code>, code: Code)
    requires code in rules
  {
    rules[code].status == Verified && exists g :: g in rules[code].groups && Ready(g, passed, u) && HasOther(g, target)
  }

  ghost predicate ClosedUnder(rules: map<Code, Rule>, passed: set<Code>, target: Code, u: set<Code>) {
    forall code :: code in rules && Propagates(rules, passed, target, u, code) ==> code in u
  }

  ghost predicate BelowEveryClosed(rules: map<Code, Rule>, passed: set<Code>, target: Code, base: set<Code>, u: set<Code>) {
    forall s: set<Code> :: base <= s && ClosedUnder(rules, passed, target, s) ==> u <= s
  }

  /** `u` is the least closed set over the base. */
  ghost predicate IsClosure(rules: map<Code, Rule>, passed: set<Code>, target: Code, base: set<Code>, u: set<Code>) {
    && base <= u && ClosedUnder(rules, passed, target, u)
    && BelowEveryClosed(rules, passed, target, base, u)
  }

  /** A simple chain of option-to-course edges from the target. */
  ghost predicate PathOk(rules: map<Code, Rule>, target: Code, u: set<Code>, path: seq<Code>, code: Code) {
    && |path| >= 2 && path[0] == target && path[|path| - 1] == code
    && Distinct(path) && (forall x :: x in path ==> x in u)
    && forall i :: 0 <= i < |path| - 1 ==> path[i + 1] in Dependents(rules, path[i])
  }

  lemma PathExtends(rules: map<Code, Rule>, target: Code, u: set<Code>, path: seq<Code>, parent: Code, code: Code)
    requires PathOk(rules, target, u, path, parent) && code !in u && code in Dependents(rules, parent)
    ensures PathOk(rules, target, u + {code}, path + [code], code)
  {
    hide Dependents;
  }

  /** A reported depth is never below the graph distance from the target. */
  lemma {:induction false} PathReaches(rules: map<Code, Rule>, target: Code, u: set<Code>, path: seq<Code>, code: Code, k: nat)
    requires PathOk(rules, target, u, path, code) && k < |path|
    ensures path[k] in Within(rules, target, k)
  {
    if k > 0 {
      PathReaches(rules, target, u, path, code, k - 1);
      assert path[(k - 1) + 1] in Dependents(rules, path[k - 1]);
    }
  }

  // ---- The worklist -------------------------------------------------------------------

  datatype Work = Work(unavailable: set<Code>, paths: map<Code, seq<Code>>, queue: seq<Code>, found: seq<Affected>)

  ghost predicate Inv(rules: map<Code, Rule>, passed: set<Code>, target: Code, base: set<Code>, w: Work) {
    && target in base && Codes(w.found) !! base && Codes(w.found) <= rules.Keys
    && w.unavailable == base + Codes(w.found) && w.paths.Keys == w.unavailable - {target}
    && (forall c :: c in w.paths ==> PathOk(rules, target, w.unavailable, w.paths[c], c))
    && (forall q :: q in w.queue ==> q in w.paths)
    && (forall a :: a in w.found ==> a.code in w.paths && a.path == w.paths[a.code] && a.depth + 1 == |a.path|)
    && |Codes(w.found)| == |w.found|
    && (forall c :: c in base && c != target ==> |w.paths[c]| == 2)
    && BelowEveryClosed(rules, passed, target, base, w.unavailable)
  }

  predicate Touches(g: Group, queue: seq<Code>) {
    exists o :: o in g.options && o in queue
  }

  /** Every ready group of an available verified course still has an option to be popped, or
      belongs to the popped parent and its course has not been scanned yet. */
  ghost predicate Waiting(rules: map<Code, Rule>, passed: set<Code>, target: Code, u: set<Code>,
                          queue: seq<Code>, parents: seq<Code>, scanned: set<Code>) {
    forall code, g ::
      && code in rules && code !in u && rules[code].status == Verified
      && g in rules[code].groups && Ready(g, passed, u) && HasOther(g, target)
      ==> Touches(g, queue) || (code !in scanned && Touches(g, parents))
  }

  predicate AffectedGroup(rule: Rule, parent: Code, passed: set<Code>, u: set<Code>) {
    exists g :: g in rule.groups && parent in g.options && Ready(g, passed, u)
  }

  function AddTo(w: Work, parent: Code, code: Code): Work
    requires parent in w.paths
  {
    var path := w.paths[parent] + [code];
    Work(w.unavailable + {code}, w.paths[code := path], w.queue + [code],
         w.found + [Affected(code, |path| - 1, path)])
  }

  lemma CodesSnoc(items: seq<Affected>, a: Affected)
    ensures Codes(items + [a]) == Codes(items) + {a.code}
  {
    forall c | c in Codes(items) ensures c in Codes(items + [a]) {
      var x :| x in items && x.code == c;
      assert x in items + [a];
    }
    assert a in items + [a];
  }

  lemma PathGrows(rules: map<Code, Rule>, target: Code, u: set<Code>, v: set<Code>, path: seq<Code>, code: Code)
    requires PathOk(rules, target, u, path, code) && u <= v
    ensures PathOk(rules, target, v, path, code)
  {
    hide Dependents, Distinct;
  }

  lemma AddKeepsLeast(rules: map<Code, Rule>, passed: set<Code>, target: Code, base: set<Code>, u: set<Code>, parent: Code, code: Code)
    requires BelowEveryClosed(rules, passed, target, base, u)
    requires code in rules && rules[code].status == Verified && parent != target
    requires AffectedGroup(rules[code], parent, passed, u)
    ensures BelowEveryClosed(rules, passed, target, base, u + {code})
  {
    var g :| g in rules[code].groups && parent in g.options && Ready(g, passed, u);
    forall s: set<Code> | base <= s && ClosedUnder(rules, passed, target, s) ensures u + {code} <= s {
      assert Ready(g, passed, s) && HasOther(g, target);
      assert Propagates(rules, passed, target, s, code);
    }
  }

  lemma AddKeepsInv(rules: map<Code, Rule>, passed: set<Code>, target: Code, base: set<Code>, w: Work, parent: Code, code: Code)
    requires Inv(rules, passed, target, base, w) && parent in w.paths
    requires code in rules && code !in w.unavailable && rules[code].status == Verified
    requires AffectedGroup(rules[code], parent, passed, w.unavailable)
    ensures Inv(rules, passed, target, base, AddTo(w, parent, code))
  {
    hide Dependents, Distinct, BelowEveryClosed, PathOk, Ready, Codes;
    var v := AddTo(w, parent, code);
    AddKeepsLeast(rules, passed, target, base, w.unavailable, parent, code);
    CodesSnoc(w.found, v.found[|w.found|]);
    assert code in Dependents(rules, parent) by { AffectedIsDependent(rules, parent, passed, w.unavailable, code); }
    PathExtends(rules, target, w.unavailable, w.paths[parent], parent, code);
    forall c | c in w.paths ensures PathOk(rules, target, v.unavailable, w.paths[c], c) {
      PathGrows(rules, target, w.unavailable, v.unavailable, w.paths[c], c);
    }
    forall a | a in v.found ensures a.code in v.paths && a.path == v.paths[a.code] && a.depth + 1 == |a.path| {
      if a in w.found { assert a.code != code; }
    }
  }

  lemma AffectedIsDependent(rules: map<Code, Rule>, parent: Code, passed: set<Code>, u: set<Code>, code: Code)
    requires code in rules && AffectedGroup(rules[code], parent, passed, u)
    ensures code in Dependents(rules, parent)
  {
  }

  lemma AddKeepsWaiting(rules: map<Code, Rule>, passed: set<Code>, target: Code, u: set<Code>,
                        queue: seq<Code>, parents: seq<Code>, scanned: set<Code>, code: Code)
    requires Waiting(rules, passed, target, u, queue, parents, scanned)
    ensures Waiting(rules, passed, target, u + {code}, queue + [code], parents, scanned + {code})
  {
    forall c, g |
      && c in rules && c !in u + {code} && rules[c].status == Verified
      && g in rules[c].groups && Ready(g, passed, u + {code}) && HasOther(g, target)
      ensures Touches(g, queue + [code]) || (c !in scanned + {code} && Touches(g, parents))
    {
      if code in g.options {
        assert code in queue + [code];
      } else {
        assert Ready(g, passed, u);
        if Touches(g, queue) {
          var o :| o in g.options && o in queue;
          assert o in queue + [code];
        }
      }
    }
  }

  lemma SkipKeepsWaiting(rules: map<Code, Rule>, passed: set<Code>, target: Code, u: set<Code>,
                         queue: seq<Code>, parent: Code, scanned: set<Code>, code: Code)
    requires Waiting(rules, passed, target, u, queue, [parent], scanned)
    requires code in rules
    requires code in u || rules[code].status != Verified || !AffectedGroup(rules[code], parent, passed, u)
    ensures Waiting(rules, passed, target, u, queue, [parent], scanned + {code})
  {
  }

  lemma PopKeepsWaiting(rules: map<Code, Rule>, passed: set<Code>, target: Code, u: set<Code>, queue: seq<Code>)
    requires queue != [] && Waiting(rules, passed, target, u, queue, [], {})
    ensures Waiting(rules, passed, target, u, queue[1..], [queue[0]], {})
  {
    forall g | Touches(g, queue) ensures Touches(g, queue[1..]) || Touches(g, [queue[0]]) {
      var o :| o in g.options && o in queue;
      assert queue == [queue[0]] + queue[1..];
    }
  }

  lemma ScanEnds(rules: map<Code, Rule>, passed: set<Code>, target: Code, u: set<Code>, queue: seq<Code>, parent: Code)
    requires Waiting(rules, passed, target, u, queue, [parent], rules.Keys)
    ensures Waiting(rules, passed, target, u, queue, [], {})
  {
  }

  lemma EmptyQueueIsClosed(rules: map<Code, Rule>, passed: set<Code>, target: Code, u: set<Code>)
    requires Waiting(rules, passed, target, u, [], [], {})
    ensures ClosedUnder(rules, passed, target, u)
  {
  }

  lemma PrefixGrows(order: seq<Code>, i: nat)
    requires i < |order|
    ensures Elements(order[..i + 1]) == Elements(order[..i]) + {order[i]}
    ensures order[i] in Elements(order)
  {
    assert order[..i + 1] == order[..i] + [order[i]];
  }

  // ---- The order of the queue and the depths it gives ----------------------------------

  function Depth(w: Work, c: Code): int {
    if c in w.paths then |w.paths[c]| - 1 else 0
  }

  /** The courses in the order they joined the queue. */
  ghost predicate Joined(w: Work, line: seq<Code>) {
    Distinct(line) && Elements(line) == w.paths.Keys
  }

  /** The first `k` of them have been taken as parents, the last at depth `level`; first in, first
      out keeps the depths in step. */
  ghost predicate InStep(w: Work, line: seq<Code>, k: nat, level: int) {
    && k <= |line|
    && (forall i, j :: 0 <= i < j < |line| ==> Depth(w, line[i]) <= Depth(w, line[j]))
    && (forall i :: 0 <= i < k ==> Depth(w, line[i]) <= level)
    && (forall i :: k <= i < |line| ==> level <= Depth(w, line[i]) <= level + 1)
  }

  ghost predicate Queued(w: Work, line: seq<Code>, k: nat, level: int) {
    Joined(w, line) && InStep(w, line, k, level) && w.queue == line[k..]
  }

  /** Some option besides the target is still available, or was reached no more than one level
      above `d`. */
  ghost predicate Supports(g: Group, target: Code, w: Work, d: int) {
    exists o :: o in g.options && o != target && (o in w.paths ==> d <= Depth(w, o) + 1)
  }

  predicate Untouched(g: Group, passed: set<Code>) {
    forall o :: o in g.options ==> o !in passed
  }

  /** A ready group has an option exactly one level above `d`. */
  ghost predicate SprungFrom(rule: Rule, passed: set<Code>, target: Code, w: Work, d: int) {
    exists g, o :: && g in rule.groups && Ready(g, passed, w.unavailable)
                   && o in g.options && o != target && o in w.paths && d == Depth(w, o) + 1
  }

  /** No group can make a found course wait longer than its own latest option. */
  ghost predicate DepthsFit(rules: map<Code, Rule>, passed: set<Code>, target: Code, w: Work) {
    forall a :: a in w.found && a.code in rules ==>
      CourseFits(rules[a.code], passed, target, w, a.depth)
  }

  lemma InLine(w: Work, line: seq<Code>, c: Code)
    requires Joined(w, line)
    ensures c in line <==> c in w.paths
  {
    assert c in line <==> c in Elements(line);
  }

  lemma JoinedSnoc(w: Work, line: seq<Code>, parent: Code, code: Code)
    requires Joined(w, line) && parent in w.paths && code !in w.paths
    ensures Joined(AddTo(w, parent, code), line + [code])
  {
    InLine(w, line, code);
    assert Elements(line + [code]) == Elements(line) + {code};
  }

  lemma InStepSnoc(w: Work, line: seq<Code>, k: nat, level: int, parent: Code, code: Code)
    requires InStep(w, line, k, level) && parent in w.paths && Depth(w, parent) == level
    requires forall i :: 0 <= i < |line| ==> line[i] != code
    ensures InStep(AddTo(w, parent, code), line + [code], k, level)
  {
    hide Depth;
    var v, next := AddTo(w, parent, code), line + [code];
    forall i | 0 <= i < |line| ensures next[i] == line[i] && Depth(v, next[i]) == Depth(w, line[i]) { DepthOfOld(w, parent, code, line[i]); }
    DepthOfNew(w, parent, code);
  }

  lemma DepthOfOld(w: Work, parent: Code, code: Code, c: Code)
    requires parent in w.paths && c != code
    ensures Depth(AddTo(w, parent, code), c) == Depth(w, c)
  {
  }

  lemma DepthOfNew(w: Work, parent: Code, code: Code)
    requires parent in w.paths
    ensures Depth(AddTo(w, parent, code), code) == Depth(w, parent) + 1
  {
  }

  lemma AddKeepsQueued(w: Work, line: seq<Code>, k: nat, level: int, parent: Code, code: Code)
    requires Queued(w, line, k, level) && parent in w.paths && Depth(w, parent) == level && code !in w.paths
    ensures Queued(AddTo(w, parent, code), line + [code], k, level)
  {
    JoinedSnoc(w, line, parent, code);
    InLine(w, line, code);
    InStepSnoc(w, line, k, level, parent, code);
    hide Joined, Depth;
    assert AddTo(w, parent, code).queue == (line + [code])[k..];
  }

  lemma PopKeepsQueued(w: Work, line: seq<Code>, k: nat, level: int)
    requires Queued(w, line, k, level) && w.queue != []
    ensures w.queue[0] in w.paths && level <= Depth(w, w.queue[0])
    ensures Queued(w.(queue := w.queue[1..]), line, k + 1, Depth(w, w.queue[0]))
  {
    var v := w.(queue := w.queue[1..]);
    assert w.queue[0] == line[k];
    InLine(w, line, line[k]);
    assert Joined(v, line);
    assert w.queue[1..] == line[k + 1..];
    hide Joined;
    forall i | 0 <= i < |line| ensures Depth(v, line[i]) == Depth(w, line[i]) {}
  }

  lemma WaitingDepth(w: Work, line: seq<Code>, k: nat, level: int, o: Code)
    requires Queued(w, line, k, level) && o in w.queue
    ensures level <= Depth(w, o)
  {
    hide Joined, Depth;
    var i :| 0 <= i < |w.queue| && w.queue[i] == o;
    assert line[k + i] == o;
  }

  lemma SupportsLater(g: Group, target: Code, w: Work, v: Work, d: int, code: Code)
    requires Supports(g, target, w, d)
    requires v.paths.Keys == w.paths.Keys + {code} && (forall c :: c in w.paths ==> v.paths[c] == w.paths[c])
    requires code in v.paths && d <= Depth(v, code) + 1
    ensures Supports(g, target, v, d)
  {
    var o :| o in g.options && o != target && (o in w.paths ==> d <= Depth(w, o) + 1);
    assert o in v.paths ==> d <= Depth(v, o) + 1;
  }

  lemma SprungLater(rule: Rule, passed: set<Code>, target: Code, w: Work, v: Work, d: int)
    requires SprungFrom(rule, passed, target, w, d) && w.unavailable <= v.unavailable
    requires forall c :: c in w.paths ==> c in v.paths && v.paths[c] == w.paths[c]
    ensures SprungFrom(rule, passed, target, v, d)
  {
    var g, o :| && g in rule.groups && Ready(g, passed, w.unavailable)
                && o in g.options && o != target && o in w.paths && d == Depth(w, o) + 1;
    assert Ready(g, passed, v.unavailable) && Depth(v, o) == Depth(w, o);
  }

  /** The course being added: a group all of whose other options came two levels earlier would have
      been ready before, and the course found then. */
  lemma NewCourseSupported(rules: map<Code, Rule>, passed: set<Code>, target: Code, w: Work, line: seq<Code>,
                           k: nat, parent: Code, scanned: set<Code>, code: Code, g: Group)
    requires w.unavailable == w.paths.Keys + {target} && target !in w.paths
    requires QueueKnown(w) && parent in w.paths && Queued(w, line, k, Depth(w, parent))
    requires Waiting(rules, passed, target, w.unavailable, w.queue, [parent], scanned)
    requires code in rules && code !in w.unavailable && code !in scanned && rules[code].status == Verified
    requires g in rules[code].groups && Untouched(g, passed) && HasOther(g, target)
    ensures Supports(g, target, AddTo(w, parent, code), Depth(w, parent) + 1)
  {
    hide Queued, Depth;
    var v := AddTo(w, parent, code);
    DepthOfNew(w, parent, code);
    if o :| o in g.options && o != target && o !in w.paths {
      assert o in v.paths ==> o == code;
    } else {
      assert Ready(g, passed, w.unavailable);
      var o :| o in g.options && (o in w.queue || o in [parent]);
      if o in w.queue { WaitingDepth(w, line, k, Depth(w, parent), o); }
      DepthOfOld(w, parent, code, o);
    }
  }

  lemma NewCourseSprung(rules: map<Code, Rule>, passed: set<Code>, target: Code, w: Work, parent: Code, code: Code)
    requires target !in w.paths && parent in w.paths && code in rules && code !in w.paths
    requires AffectedGroup(rules[code], parent, passed, w.unavailable)
    ensures SprungFrom(rules[code], passed, target, AddTo(w, parent, code), Depth(w, parent) + 1)
  {
    hide Depth;
    var v := AddTo(w, parent, code);
    var g :| g in rules[code].groups && parent in g.options && Ready(g, passed, w.unavailable);
    DepthOfOld(w, parent, code, parent);
    assert Ready(g, passed, v.unavailable) && parent in v.paths;
  }

  /** What fits one found course. */
  ghost predicate CourseFits(rule: Rule, passed: set<Code>, target: Code, w: Work, d: int) {
    && SprungFrom(rule, passed, target, w, d)
    && forall g :: g in rule.groups && Untouched(g, passed) && HasOther(g, target) ==> Supports(g, target, w, d)
  }

  lemma CourseFitsLater(rule: Rule, passed: set<Code>, target: Code, w: Work, parent: Code, code: Code, d: int)
    requires CourseFits(rule, passed, target, w, d) && parent in w.paths && code !in w.paths && d <= Depth(w, parent) + 2
    ensures CourseFits(rule, passed, target, AddTo(w, parent, code), d)
  {
    hide Supports, SprungFrom, Untouched, HasOther;
    var v := AddTo(w, parent, code);
    SprungLater(rule, passed, target, w, v, d);
    forall g | g in rule.groups && Untouched(g, passed) && HasOther(g, target) ensures Supports(g, target, v, d) {
      SupportsLater(g, target, w, v, d, code);
    }
  }

  lemma AddKeepsFit(rules: map<Code, Rule>, passed: set<Code>, target: Code, base: set<Code>, w: Work, line: seq<Code>,
                    k: nat, parent: Code, scanned: set<Code>, code: Code)
    requires Inv(rules, passed, target, base, w) && parent in w.paths && Queued(w, line, k, Depth(w, parent))
    requires Waiting(rules, passed, target, w.unavailable, w.queue, [parent], scanned)
    requires DepthsFit(rules, passed, target, w)
    requires code in rules && code !in w.unavailable && code !in scanned && rules[code].status == Verified
    requires AffectedGroup(rules[code], parent, passed, w.unavailable)
    ensures DepthsFit(rules, passed, target, AddTo(w, parent, code))
  {
    hide Waiting, AffectedGroup, Supports, SprungFrom, Untouched, HasOther, Queued, PathOk, BelowEveryClosed;
    InvBasics(rules, passed, target, base, w);
    var v := AddTo(w, parent, code);
    NewCourseSprung(rules, passed, target, w, parent, code);
    forall g | g in rules[code].groups && Untouched(g, passed) && HasOther(g, target) ensures Supports(g, target, v, Depth(w, parent) + 1) {
      NewCourseSupported(rules, passed, target, w, line, k, parent, scanned, code, g);
    }
    assert CourseFits(rules[code], passed, target, v, Depth(w, parent) + 1);
    forall a | a in w.found && a.code in rules ensures CourseFits(rules[a.code], passed, target, v, a.depth) {
      DepthBound(rules, passed, target, base, w, line, k, Depth(w, parent), a);
      CourseFitsLater(rules[a.code], passed, target, w, parent, code, a.depth);
    }
  }

  lemma InvBasics(rules: map<Code, Rule>, passed: set<Code>, target: Code, base: set<Code>, w: Work)
    requires Inv(rules, passed, target, base, w)
    ensures w.unavailable == w.paths.Keys + {target} && target !in w.paths && QueueKnown(w)
  {
    hide PathOk, BelowEveryClosed;
  }

  lemma DepthBound(rules: map<Code, Rule>, passed: set<Code>, target: Code, base: set<Code>, w: Work, line: seq<Code>,
                   k: nat, level: int, a: Affected)
    requires Inv(rules, passed, target, base, w) && Queued(w, line, k, level) && a in w.found
    ensures a.depth <= level + 1
  {
    hide PathOk, BelowEveryClosed, Joined;
    InLine(w, line, a.code);
    var i :| 0 <= i < |line| && line[i] == a.code;
    assert Depth(w, line[i]) <= level + 1;
  }

  // ---- The worklist as a function -----------------------------------------------------

  /** One course of the plan looked at for a popped parent. */
  function ScanOne(rules: map<Code, Rule>, passed: set<Code>, parent: Code, code: Code, w: Work): (r: Work)
    requires parent in w.paths
    ensures parent in r.paths
  {
    if code in rules && code !in w.unavailable && rules[code].status == Verified && AffectedGroup(rules[code], parent, passed, w.unavailable)
    then AddTo(w, parent, code) else w
  }

  function ScanAll(rules: map<Code, Rule>, passed: set<Code>, parent: Code, order: seq<Code>, w: Work): (r: Work)
    requires parent in w.paths
    ensures parent in r.paths
  {
    if order == [] then w
    else ScanOne(rules, passed, parent, order[|order| - 1], ScanAll(rules, passed, parent, order[..|order| - 1], w))
  }

  predicate QueueKnown(w: Work) { forall q :: q in w.queue ==> q in w.paths }

  lemma {:induction false} ScanAllProgress(rules: map<Code, Rule>, passed: set<Code>, parent: Code, order: seq<Code>, w: Work)
    requires parent in w.paths && QueueKnown(w)
    ensures var r := ScanAll(rules, passed, parent, order, w);
            && QueueKnown(r) && w.unavailable <= r.unavailable
            && (r.unavailable - w.unavailable) <= rules.Keys
            && (r.unavailable == w.unavailable ==> r.queue == w.queue)
  {
    hide AffectedGroup;
    if order != [] { ScanAllProgress(rules, passed, parent, order[..|order| - 1], w); }
  }

  /** The worklist run to its end: parents are taken from the front, finds join at the back. */
  ghost function Drain(rules: map<Code, Rule>, passed: set<Code>, order: seq<Code>, w: Work): Work
    requires QueueKnown(w)
    decreases rules.Keys - w.unavailable, |w.queue|
  {
    if w.queue == [] then w
    else
      var next := w.(queue := w.queue[1..]);
      ScanAllProgress(rules, passed, w.queue[0], order, next);
      var scanned := ScanAll(rules, passed, w.queue[0], order, next);
      assert rules.Keys - scanned.unavailable <= rules.Keys - w.unavailable;
      assert rules.Keys - scanned.unavailable == rules.Keys - w.unavailable ==> scanned.unavailable == w.unavailable;
      Drain(rules, passed, order, scanned)
  }

  /** The parents in the order in which they are popped. */
  ghost function Pops(rules: map<Code, Rule>, passed: set<Code>, order: seq<Code>, w: Work): seq<Code>
    requires QueueKnown(w)
    decreases rules.Keys - w.unavailable, |w.queue|
  {
    if w.queue == [] then []
    else
      var next := w.(queue := w.queue[1..]);
      ScanAllProgress(rules, passed, w.queue[0], order, next);
      var scanned := ScanAll(rules, passed, w.queue[0], order, next);
      assert rules.Keys - scanned.unavailable <= rules.Keys - w.unavailable;
      assert rules.Keys - scanned.unavailable == rules.Keys - w.unavailable ==> scanned.unavailable == w.unavailable;
      [w.queue[0]] + Pops(rules, passed, order, scanned)
  }

  ghost predicate Extends(line: seq<Code>, more: seq<Code>) { line <= more }

  /** One scan of the plan for a popped parent. */
  method Scan(rules: map<Code, Rule>, passed: set<Code>, target: Code, ghost base: set<Code>, parent: Code,
              order: seq<Code>, w0: Work, ghost line0: seq<Code>, ghost k: nat)
    returns (w: Work, ghost line: seq<Code>)
    requires Elements(order) == rules.Keys && Distinct(order) && parent in w0.paths
    requires Inv(rules, passed, target, base, w0) && DepthsFit(rules, passed, target, w0)
    requires Waiting(rules, passed, target, w0.unavailable, w0.queue, [parent], {})
    requires Queued(w0, line0, k, Depth(w0, parent))
    ensures w == ScanAll(rules, passed, parent, order, w0)
    ensures Inv(rules, passed, target, base, w) && DepthsFit(rules, passed, target, w)
    ensures Waiting(rules, passed, target, w.unavailable, w.queue, [], {})
    ensures parent in w.paths && w.paths[parent] == w0.paths[parent] && Queued(w, line, k, Depth(w, parent))
    ensures Extends(line0, line)
    ensures |w.found| >= |w0.found| && (|w.found| == |w0.found| ==> |w.queue| == |w0.queue|)
  {
    hide Waiting, AffectedGroup, Inv, DepthsFit, Queued, Distinct;
    w, line := w0, line0;
    var i := 0;
    assert Elements(order[..0]) == {};
    while i < |order|
      invariant 0 <= i <= |order| && parent in w.paths && w.paths[parent] == w0.paths[parent]
      invariant w == ScanAll(rules, passed, parent, order[..i], w0)
      invariant Inv(rules, passed, target, base, w) && DepthsFit(rules, passed, target, w)
      invariant Queued(w, line, k, Depth(w, parent)) && line0 <= line
      invariant Waiting(rules, passed, target, w.unavailable, w.queue, [parent], Elements(order[..i]))
      invariant |w.found| >= |w0.found| && (|w.found| == |w0.found| ==> |w.queue| == |w0.queue|)
    {
      var code := order[i];
      PrefixGrows(order, i);
      assert order[..i + 1][..i] == order[..i];
      if code !in w.unavailable && rules[code].status == Verified && AffectedGroup(rules[code], parent, passed, w.unavailable) {
        NotYetScanned(order, i);
        KnownUnavailable(rules, passed, target, base, w);
        AddKeepsFit(rules, passed, target, base, w, line, k, parent, Elements(order[..i]), code);
        AddKeepsQueued(w, line, k, Depth(w, parent), parent, code);
        AddKeepsInv(rules, passed, target, base, w, parent, code);
        AddKeepsWaiting(rules, passed, target, w.unavailable, w.queue, [parent], Elements(order[..i]), code);
        w, line := AddTo(w, parent, code), line + [code];
      } else {
        SkipKeepsWaiting(rules, passed, target, w.unavailable, w.queue, parent, Elements(order[..i]), code);
      }
      i := i + 1;
    }
    assert order[..i] == order;
    ScanEnds(rules, passed, target, w.unavailable, w.queue, parent);
  }

  lemma NotYetScanned(order: seq<Code>, i: nat)
    requires i < |order| && Distinct(order)
    ensures order[i] !in Elements(order[..i])
  {
  }

  lemma KnownUnavailable(rules: map<Code, Rule>, passed: set<Code>, target: Code, base: set<Code>, w: Work)
    requires Inv(rules, passed, target, base, w)
    ensures w.paths.Keys <= w.unavailable
  {
  }

  function StartWork(target: Code, direct: seq<Affected>, queue: seq<Code>): Work {
    Work({target} + Codes(direct), map c | c in Codes(direct) :: [target, c], queue, [])
  }

  lemma StartInv(rules: map<Code, Rule>, passed: set<Code>, target: Code, direct: seq<Affected>, queue: seq<Code>)
    requires forall c :: c in Codes(direct) ==> c != target && c in Dependents(rules, target)
    requires Elements(queue) == Codes(direct)
    ensures var w := StartWork(target, direct, queue);
            && Inv(rules, passed, target, {target} + Codes(direct), w)
            && Waiting(rules, passed, target, w.unavailable, queue, [], {})
  {
    hide Dependents, Codes, PathOk, Waiting, BelowEveryClosed;
    EmptyCodes();
    var base := {target} + Codes(direct);
    forall q | q in queue ensures q in Codes(direct) { assert q in Elements(queue); }
    forall c | c in Codes(direct) ensures PathOk(rules, target, base, [target, c], c) {
      EdgePath(rules, target, base, c);
    }
    StartWaiting(rules, passed, target, Codes(direct), queue);
    BaseBelow(rules, passed, target, base);
  }

  lemma EdgePath(rules: map<Code, Rule>, target: Code, u: set<Code>, code: Code)
    requires code != target && code in Dependents(rules, target) && target in u && code in u
    ensures PathOk(rules, target, u, [target, code], code)
  {
    hide Dependents;
  }

  lemma BaseBelow(rules: map<Code, Rule>, passed: set<Code>, target: Code, base: set<Code>)
    ensures BelowEveryClosed(rules, passed, target, base, base)
  {
  }

  lemma StartWaiting(rules: map<Code, Rule>, passed: set<Code>, target: Code, codes: set<Code>, queue: seq<Code>)
    requires Elements(queue) == codes
    ensures Waiting(rules, passed, target, {target} + codes, queue, [], {})
  {
    forall g | Ready(g, passed, {target} + codes) && HasOther(g, target) ensures Touches(g, queue) {
      var o :| o in g.options && o != target;
      assert o in Elements(queue);
    }
  }

  lemma EmptyCodes()
    ensures Codes([]) == {}
  {
  }

  lemma FoundBound(rules: map<Code, Rule>, passed: set<Code>, target: Code, base: set<Code>, w: Work)
    requires Inv(rules, passed, target, base, w)
    ensures |w.found| <= |rules|
  {
    assert rules.Keys == Codes(w.found) + (rules.Keys - Codes(w.found));
  }

  lemma QueueHead(rules: map<Code, Rule>, passed: set<Code>, target: Code, base: set<Code>, w: Work)
    requires Inv(rules, passed, target, base, w) && w.queue != []
    ensures w.queue[0] in w.paths
    ensures Inv(rules, passed, target, base, w.(queue := w.queue[1..]))
  {
  }

  predicate AffectedLe(a: Affected, b: Affected) {
    a.depth < b.depth || (a.depth == b.depth && StrLe(a.code, b.code))
  }

  lemma AffectedLeIsPreorder()
    ensures Preorder(AffectedLe)
  {
    StrLeIsTotalOrder();
    var le := StrLe;
    assert forall s, t :: StrLe(s, t) == le(s, t);
  }

  /** What the caller reads off the finished worklist. */
  ghost predicate Reported(rules: map<Code, Rule>, target: Code, base: set<Code>, transitive: seq<Affected>) {
    && Codes(transitive) !! base && |Codes(transitive)| == |transitive|
    && forall a :: a in transitive ==>
         a.depth + 1 == |a.path| && PathOk(rules, target, base + Codes(transitive), a.path, a.code)
  }

  lemma ReportedFrom(rules: map<Code, Rule>, passed: set<Code>, target: Code, base: set<Code>, w: Work, sorted: seq<Affected>)
    requires Inv(rules, passed, target, base, w)
    requires |sorted| == |w.found| && forall a :: a in sorted <==> a in w.found
    ensures Codes(sorted) == Codes(w.found)
    ensures Reported(rules, target, base, sorted)
  {
    hide PathOk;
  }

  /** The reported depths of the courses, direct ones included. */
  type Depths = map<Code, int>

  function DepthsOf(w: Work): Depths { map c | c in w.paths :: Depth(w, c) }

  /** Some option besides the target lies no more than one level above `d`; so `d` is at most one
      more than the largest depth among the options. */
  ghost predicate Latest(g: Group, target: Code, depths: Depths, d: int) {
    exists o :: o in g.options && o != target && o in depths && d <= depths[o] + 1
  }

  ghost predicate Springs(rule: Rule, passed: set<Code>, target: Code, u: set<Code>, depths: Depths, d: int) {
    exists g, o :: && g in rule.groups && Ready(g, passed, u)
                   && o in g.options && o != target && o in depths && d == depths[o] + 1
  }

  /** One below an option of a ready group of its own, and at most one below the latest option of
      each ready group it has. */
  ghost predicate Placed(rule: Rule, passed: set<Code>, target: Code, u: set<Code>, depths: Depths, d: int) {
    && Springs(rule, passed, target, u, depths, d)
    && forall g :: g in rule.groups && Ready(g, passed, u) && HasOther(g, target) ==> Latest(g, target, depths, d)
  }

  /** Direct courses lie at depth one, every other one where its own groups place it. */
  ghost predicate Fitted(rules: map<Code, Rule>, passed: set<Code>, target: Code, base: set<Code>, u: set<Code>, depths: Depths) {
    && depths.Keys == u - {target}
    && (forall c :: c in base && c != target ==> c in depths && depths[c] == 1)
    && (forall c :: c in depths ==> depths[c] >= 1)
    && forall c :: c in u && c !in base ==> c in rules && c in depths && Placed(rules[c], passed, target, u, depths, depths[c])
  }

  /** Parents are taken in nondecreasing depth, every course once. */
  ghost predicate TakenInOrder(line: seq<Code>, depths: Depths) {
    && Distinct(line) && Elements(line) == depths.Keys
    && forall i, j :: 0 <= i < j < |line| ==> depths[line[i]] <= depths[line[j]]
  }

  lemma CourseFitted(rule: Rule, passed: set<Code>, target: Code, w: Work, d: int)
    requires CourseFits(rule, passed, target, w, d) && w.unavailable == w.paths.Keys + {target}
    ensures Placed(rule, passed, target, w.unavailable, DepthsOf(w), d)
  {
    hide Depth;
    var depths := DepthsOf(w);
    var g0, o0 :| && g0 in rule.groups && Ready(g0, passed, w.unavailable)
                  && o0 in g0.options && o0 != target && o0 in w.paths && d == Depth(w, o0) + 1;
    assert depths[o0] == Depth(w, o0);
    forall g | g in rule.groups && Ready(g, passed, w.unavailable) && HasOther(g, target) ensures Latest(g, target, depths, d) {
      assert Untouched(g, passed) && Supports(g, target, w, d);
      var o :| o in g.options && o != target && (o in w.paths ==> d <= Depth(w, o) + 1);
      assert o in depths && depths[o] == Depth(w, o);
    }
  }

  lemma FittedBasics(rules: map<Code, Rule>, passed: set<Code>, target: Code, base: set<Code>, w: Work)
    requires Inv(rules, passed, target, base, w)
    ensures DepthsOf(w).Keys == w.unavailable - {target}
    ensures forall c :: c in base && c != target ==> c in DepthsOf(w) && DepthsOf(w)[c] == 1
    ensures forall c :: c in DepthsOf(w) ==> DepthsOf(w)[c] >= 1
  {
    hide BelowEveryClosed, Distinct, Dependents;
  }

  lemma FoundFits(rules: map<Code, Rule>, passed: set<Code>, target: Code, base: set<Code>, w: Work, c: Code)
    requires Inv(rules, passed, target, base, w) && DepthsFit(rules, passed, target, w)
    requires c in w.unavailable && c !in base
    ensures c in rules && c in w.paths && CourseFits(rules[c], passed, target, w, Depth(w, c))
  {
    hide BelowEveryClosed, PathOk, CourseFits;
    var a :| a in w.found && a.code == c;
  }

  lemma FoundPlaced(rules: map<Code, Rule>, passed: set<Code>, target: Code, base: set<Code>, w: Work, c: Code)
    requires Inv(rules, passed, target, base, w) && DepthsFit(rules, passed, target, w)
    requires c in w.unavailable && c !in base
    ensures c in rules && c in DepthsOf(w) && Placed(rules[c], passed, target, w.unavailable, DepthsOf(w), DepthsOf(w)[c])
  {
    hide Inv, DepthsFit, CourseFits, Placed, DepthsOf, Depth;
    FoundFits(rules, passed, target, base, w, c);
    InvBasics(rules, passed, target, base, w);
    DepthsAre(w, c);
    CourseFitted(rules[c], passed, target, w, DepthsOf(w)[c]);
  }

  lemma FittedFrom(rules: map<Code, Rule>, passed: set<Code>, target: Code, base: set<Code>, w: Work)
    requires Inv(rules, passed, target, base, w) && DepthsFit(rules, passed, target, w)
    ensures Fitted(rules, passed, target, base, w.unavailable, DepthsOf(w))
  {
    hide Inv, DepthsFit, CourseFits, Placed, DepthsOf, Depth;
    FittedBasics(rules, passed, target, base, w);
    forall c | c in w.unavailable && c !in base
      ensures c in rules && c in DepthsOf(w) && Placed(rules[c], passed, target, w.unavailable, DepthsOf(w), DepthsOf(w)[c])
    {
      FoundPlaced(rules, passed, target, base, w, c);
    }
  }

  lemma DepthsAre(w: Work, c: Code)
    requires c in w.paths
    ensures c in DepthsOf(w) && DepthsOf(w)[c] == Depth(w, c)
  {
  }

  lemma TakenFrom(w: Work, line: seq<Code>, level: int)
    requires Queued(w, line, |line|, level)
    ensures TakenInOrder(line, DepthsOf(w))
  {
    forall i | 0 <= i < |line| ensures line[i] in w.paths { assert line[i] in line; }
  }

  /** What the worklist leaves, as a function of the rules and the direct impacts. */
  ghost function Worklist(rules: map<Code, Rule>, passed: set<Code>, target: Code, direct: seq<Affected>): Work {
    var queue := Listing(Codes(direct));
    assert forall q :: q in queue ==> q in Elements(queue);
    Drain(rules, passed, Listing(rules.Keys), StartWork(target, direct, queue))
  }

  /** The parents the worklist pops, first to last. */
  ghost function Parents(rules: map<Code, Rule>, passed: set<Code>, target: Code, direct: seq<Affected>): seq<Code> {
    var queue := Listing(Codes(direct));
    assert forall q :: q in queue ==> q in Elements(queue);
    Pops(rules, passed, Listing(rules.Keys), StartWork(target, direct, queue))
  }

  lemma StartQueued(target: Code, direct: seq<Affected>, queue: seq<Code>)
    requires Distinct(queue) && Elements(queue) == Codes(direct)
    ensures Queued(StartWork(target, direct, queue), queue, 0, 1)
  {
    forall c ensures c in queue <==> c in Codes(direct) { assert c in queue <==> c in Elements(queue); }
    forall i | 0 <= i < |queue| ensures queue[i] in Codes(direct) { assert queue[i] in queue; }
  }

  lemma StartFits(rules: map<Code, Rule>, passed: set<Code>, target: Code, direct: seq<Affected>, queue: seq<Code>)
    ensures DepthsFit(rules, passed, target, StartWork(target, direct, queue))
  {
  }

  lemma InvKnowsQueue(rules: map<Code, Rule>, passed: set<Code>, target: Code, base: set<Code>, w: Work)
    requires Inv(rules, passed, target, base, w)
    ensures QueueKnown(w)
  {
  }

  lemma CourseFitsWithout(rule: Rule, passed: set<Code>, target: Code, w: Work, queue: seq<Code>, d: int)
    requires CourseFits(rule, passed, target, w, d)
    ensures CourseFits(rule, passed, target, w.(queue := queue), d)
  {
    hide Depth;
    var v := w.(queue := queue);
    assert forall c :: Depth(v, c) == Depth(w, c) by { DepthIgnoresQueue(w, queue); }
    SprungLater(rule, passed, target, w, v, d);
    forall g | g in rule.groups && Untouched(g, passed) && HasOther(g, target) ensures Supports(g, target, v, d) {
      var o :| o in g.options && o != target && (o in w.paths ==> d <= Depth(w, o) + 1);
      assert o in v.paths ==> d <= Depth(v, o) + 1;
    }
  }

  lemma DepthIgnoresQueue(w: Work, queue: seq<Code>)
    ensures forall c :: Depth(w.(queue := queue), c) == Depth(w, c)
  {
  }

  lemma FitsWithout(rules: map<Code, Rule>, passed: set<Code>, target: Code, w: Work)
    requires DepthsFit(rules, passed, target, w) && w.queue != []
    ensures DepthsFit(rules, passed, target, w.(queue := w.queue[1..]))
  {
    hide CourseFits;
    forall a | a in w.found && a.code in rules ensures CourseFits(rules[a.code], passed, target, w.(queue := w.queue[1..]), a.depth) {
      CourseFitsWithout(rules[a.code], passed, target, w, w.queue[1..], a.depth);
    }
  }

  lemma DrainStep(rules: map<Code, Rule>, passed: set<Code>, order: seq<Code>, w: Work)
    requires QueueKnown(w) && w.queue != []
    ensures w.queue[0] in w.paths
    ensures var next := ScanAll(rules, passed, w.queue[0], order, w.(queue := w.queue[1..]));
            && QueueKnown(next) && Drain(rules, passed, order, w) == Drain(rules, passed, order, next)
            && Pops(rules, passed, order, w) == [w.queue[0]] + Pops(rules, passed, order, next)
  {
    hide ScanAll;
    ScanAllProgress(rules, passed, w.queue[0], order, w.(queue := w.queue[1..]));
  }

  lemma DrainEnd(rules: map<Code, Rule>, passed: set<Code>, order: seq<Code>, w: Work)
    requires QueueKnown(w) && w.queue == []
    ensures Drain(rules, passed, order, w) == w && Pops(rules, passed, order, w) == []
  {
  }

  lemma WorklistStart(rules: map<Code, Rule>, passed: set<Code>, target: Code, direct: seq<Affected>, queue: seq<Code>)
    requires queue == Listing(Codes(direct))
    ensures QueueKnown(StartWork(target, direct, queue))
    ensures Worklist(rules, passed, target, direct) == Drain(rules, passed, Listing(rules.Keys), StartWork(target, direct, queue))
    ensures Parents(rules, passed, target, direct) == Pops(rules, passed, Listing(rules.Keys), StartWork(target, direct, queue))
  {
    hide Drain, Pops;
    assert forall q :: q in queue ==> q in Elements(queue);
  }

  /** The first `k` of `line` have been popped; with those still to come they are `all` of them. */
  ghost predicate Popped(rules: map<Code, Rule>, passed: set<Code>, order: seq<Code>, w: Work, line: seq<Code>, k: nat, all: seq<Code>) {
    QueueKnown(w) && k <= |line| && line[..k] + Pops(rules, passed, order, w) == all
  }

  lemma NonePopped(rules: map<Code, Rule>, passed: set<Code>, order: seq<Code>, w: Work, line: seq<Code>)
    requires QueueKnown(w)
    ensures Popped(rules, passed, order, w, line, 0, Pops(rules, passed, order, w))
  {
    hide Pops;
    assert line[..0] == [];
  }

  lemma MoveOver(front: seq<Code>, x: Code, rest: seq<Code>)
    ensures front + ([x] + rest) == (front + [x]) + rest
  {
  }

  lemma HeadIsNext(w: Work, line: seq<Code>, k: nat, level: int, more: seq<Code>)
    requires Queued(w, line, k, level) && w.queue != [] && line <= more
    ensures k + 1 <= |line| && more[..k + 1] == line[..k] + [w.queue[0]]
  {
    hide Joined, Depth;
    assert w.queue[0] == line[k];
  }

  /** The head of the queue moves from those to come to those popped. */
  lemma OnePopped(rules: map<Code, Rule>, passed: set<Code>, order: seq<Code>, w: Work, line: seq<Code>, k: nat, level: int,
                  more: seq<Code>, all: seq<Code>)
    requires Popped(rules, passed, order, w, line, k, all) && Queued(w, line, k, level) && w.queue != [] && Extends(line, more)
    ensures w.queue[0] in w.paths
    ensures Popped(rules, passed, order, ScanAll(rules, passed, w.queue[0], order, w.(queue := w.queue[1..])), more, k + 1, all)
  {
    DrainStep(rules, passed, order, w);
    HeadIsNext(w, line, k, level, more);
    hide Queued, Pops, Drain, ScanAll, QueueKnown;
    MoveOver(line[..k], w.queue[0], Pops(rules, passed, order, ScanAll(rules, passed, w.queue[0], order, w.(queue := w.queue[1..]))));
  }

  lemma AllPopped(rules: map<Code, Rule>, passed: set<Code>, order: seq<Code>, w: Work, line: seq<Code>, all: seq<Code>)
    requires Popped(rules, passed, order, w, line, |line|, all) && w.queue == []
    ensures line == all
  {
    assert line[..|line|] == line;
  }

  /** The loop: parents from the front of the queue, finds to its back, until it is empty. */
  method DrainQueue(target: Code, direct: seq<Affected>, rules: map<Code, Rule>, passed: set<Code>)
    returns (w: Work, ghost line: seq<Code>, ghost level: int)
    requires forall c :: c in Codes(direct) ==> c != target && c in Dependents(rules, target)
    ensures w == Worklist(rules, passed, target, direct) && line == Parents(rules, passed, target, direct)
    ensures Inv(rules, passed, target, {target} + Codes(direct), w) && DepthsFit(rules, passed, target, w)
    ensures ClosedUnder(rules, passed, target, w.unavailable) && Queued(w, line, |line|, level)
  {
    hide Inv, Waiting, PathOk, Dependents, Codes, DepthsFit, Queued, Distinct, ScanAll, Listing, Depth, Drain, Pops, Popped, Parents,
         QueueKnown, StrLe, Worklist, ClosedUnder, Extends;
    ghost var base, all := {target} + Codes(direct), Parents(rules, passed, target, direct);
    var queue := SortedList(Codes(direct));
    var order := SortedList(rules.Keys);
    StartInv(rules, passed, target, direct, queue);
    StartQueued(target, direct, queue);
    StartFits(rules, passed, target, direct, queue);
    w := StartWork(target, direct, queue);
    line, level := queue, 1;
    ghost var k: nat := 0;
    WorklistStart(rules, passed, target, direct, queue);
    FoundBound(rules, passed, target, base, w);
    NonePopped(rules, passed, order, w, line);
    while w.queue != []
      invariant Inv(rules, passed, target, base, w) && DepthsFit(rules, passed, target, w)
      invariant Waiting(rules, passed, target, w.unavailable, w.queue, [], {})
      invariant Queued(w, line, k, level)
      invariant QueueKnown(w) && Drain(rules, passed, order, w) == Worklist(rules, passed, target, direct)
      invariant Popped(rules, passed, order, w, line, k, all)
      invariant |w.found| <= |rules|
      decreases |rules| - |w.found|, |w.queue|
    {
      var parent := w.queue[0];
      PopKeepsWaiting(rules, passed, target, w.unavailable, w.queue);
      PopKeepsQueued(w, line, k, level);
      FitsWithout(rules, passed, target, w);
      QueueHead(rules, passed, target, base, w);
      DepthIgnoresQueue(w, w.queue[1..]);
      DrainStep(rules, passed, order, w);
      ghost var before, waiting := w, line;
      w, line := Scan(rules, passed, target, base, parent, order, w.(queue := w.queue[1..]), line, k + 1);
      OnePopped(rules, passed, order, before, waiting, k, level, line, all);
      k, level := k + 1, Depth(w, parent);
      FoundBound(rules, passed, target, base, w);
      InvKnowsQueue(rules, passed, target, base, w);
    }
    DrainEnd(rules, passed, order, w);
    EmptyQueueIsClosed(rules, passed, target, w.unavailable);
    QueueIsTaken(w, line, k, level);
    AllPopped(rules, passed, order, w, line, all);
  }

  /** The worklist finds exactly the courses of the least closed set, each with a simple chain of
      prerequisite edges back to the target. `line` lists the parents as they are popped, every
      unavailable course but the target once and never at a smaller depth than the one before, so no
      course is reported deeper than one below the latest option of any ready group. */
  method TransitiveImpacts(target: Code, direct: seq<Affected>, rules: map<Code, Rule>, attempts: seq<Attempt>)
    returns (transitive: seq<Affected>, ghost depths: Depths, ghost line: seq<Code>)
    requires forall c :: c in Codes(direct) ==> c != target && c in Dependents(rules, target)
    ensures transitive == Sort(AffectedLe, Worklist(rules, PassedCodes(attempts), target, direct).found)
    ensures IsClosure(rules, PassedCodes(attempts), target, {target} + Codes(direct),
                      {target} + Codes(direct) + Codes(transitive))
    ensures Reported(rules, target, {target} + Codes(direct), transitive)
    ensures Sorted(AffectedLe, transitive)
    ensures forall i, j :: 0 <= i < j < |transitive| ==>
              || transitive[i].depth < transitive[j].depth
              || (transitive[i].depth == transitive[j].depth && StrLe(transitive[i].code, transitive[j].code))
    ensures Fitted(rules, PassedCodes(attempts), target, {target} + Codes(direct), {target} + Codes(direct) + Codes(transitive), depths)
    ensures forall a :: a in transitive ==> a.code in depths && depths[a.code] == a.depth
    ensures line == Parents(rules, PassedCodes(attempts), target, direct) && TakenInOrder(line, depths)
  {
    hide Inv, Reported, Sorted, PathOk, Dependents, Codes, DepthsFit, Queued, Fitted, TakenInOrder, Depth, DepthsOf, IsClosure, Parents,
         ClosedUnder, Worklist;
    var passed := PassedCodes(attempts);
    ghost var base := {target} + Codes(direct);
    var w;
    ghost var level;
    w, line, level := DrainQueue(target, direct, rules, passed);
    AffectedLeIsPreorder();
    transitive := Sort(AffectedLe, w.found);
    SortCorrect(AffectedLe, w.found);
    forall a ensures a in transitive <==> a in w.found { SortMembers(AffectedLe, w.found, a); }
    ReportedFrom(rules, passed, target, base, w, transitive);
    ClosureFrom(rules, passed, target, base, w);
    FittedFrom(rules, passed, target, base, w);
    depths := DepthsOf(w);
    TakenFrom(w, line, level);
    FoundDepths(rules, passed, target, base, w);
  }

  lemma QueueIsTaken(w: Work, line: seq<Code>, k: nat, level: int)
    requires Queued(w, line, k, level) && w.queue == []
    ensures k == |line|
  {
  }

  lemma FoundDepths(rules: map<Code, Rule>, passed: set<Code>, target: Code, base: set<Code>, w: Work)
    requires Inv(rules, passed, target, base, w)
    ensures forall a :: a in w.found ==> a.code in DepthsOf(w) && DepthsOf(w)[a.code] == a.depth
    ensures base + Codes(w.found) == w.unavailable
  {
    hide PathOk, BelowEveryClosed;
  }

  lemma ClosureFrom(rules: map<Code, Rule>, passed: set<Code>, target: Code, base: set<Code>, w: Work)
    requires Inv(rules, passed, target, base, w) && ClosedUnder(rules, passed, target, w.unavailable)
    ensures IsClosure(rules, passed, target, base, base + Codes(w.found))
  {
  }

  // ---- What the closure means ---------------------------------------------------------

  /** The set found does not depend on the order of the queue. */
  lemma ClosureUnique(rules: map<Code, Rule>, passed: set<Code>, target: Code, base: set<Code>, u: set<Code>, v: set<Code>)
    requires IsClosure(rules, passed, target, base, u) && IsClosure(rules, passed, target, base, v)
    ensures u == v
  {
  }

  /** Nothing is found without a direct impact to start from: a group whose only option is the
      target never propagates. */
  lemma NoDirectNoTransitive(rules: map<Code, Rule>, passed: set<Code>, target: Code, u: set<Code>)
    requires IsClosure(rules, passed, target, {target}, u)
    ensures u == {target}
  {
    assert forall g: Group :: Ready(g, passed, {target}) ==> !HasOther(g, target);
    assert ClosedUnder(rules, passed, target, {target});
  }

  /** Every course of the closure outside the base is there because of one of its own groups. */
  lemma ClosureIsJustified(rules: map<Code, Rule>, passed: set<Code>, target: Code, base: set<Code>, u: set<Code>, code: Code)
    requires IsClosure(rules, passed, target, base, u) && code in u && code !in base
    ensures code in rules && Propagates(rules, passed, target, u, code)
  {
    var s := u - {code};
    if !(code in rules && Propagates(rules, passed, target, u, code)) {
      forall c | c in rules && Propagates(rules, passed, target, s, c) ensures c in s {
        PropagatesMonotone(rules, passed, target, s, u, c);
      }
      assert ClosedUnder(rules, passed, target, s) && base <= s;
    }
  }

  lemma PropagatesMonotone(rules: map<Code, Rule>, passed: set<Code>, target: Code, s: set<Code>, u: set<Code>, code: Code)
    requires code in rules && s <= u && Propagates(rules, passed, target, s, code)
    ensures Propagates(rules, passed, target, u, code)
  {
    var g :| g in rules[code].groups && Ready(g, passed, s) && HasOther(g, target);
    assert Ready(g, passed, u);
  }

  function Completions(run: seq<Code>): seq<Attempt> {
    seq(|run|, i requires 0 <= i < |run| => Attempt(run[i], Passed))
  }

  /** Each course of the run is eligible when it is completed, and none is in `avoid`. */
  predicate LegalRun(catalog: Catalog, attempts: seq<Attempt>, avoid: set<Code>, run: seq<Code>) {
    run == [] ||
    (var front, last := run[..|run| - 1], run[|run| - 1];
     && LegalRun(catalog, attempts, avoid, front) && last !in avoid
     && EvaluateCanTake(catalog, last, attempts + Completions(front)) == Decided(Eligible))
  }

  /** A prerequisite group of the course lies wholly in the closure, untouched at the start. */
  ghost predicate BlockedByPrerequisite(rules: map<Code, Rule>, passed: set<Code>, u: set<Code>, code: Code) {
    && code in rules && rules[code].status == Verified
    && exists g :: g in rules[code].groups && g.kind == Prerequisite && Ready(g, passed, u)
  }

  lemma PassedAfter(attempts: seq<Attempt>, run: seq<Code>)
    ensures PassedCodes(attempts + Completions(run)) == PassedCodes(attempts) + Elements(run)
  {
    var all := attempts + Completions(run);
    forall c ensures c in PassedCodes(all) <==> c in PassedCodes(attempts) || c in run {
      if c in PassedCodes(attempts) {
        var a :| a in attempts && a.outcome == Passed && a.code == c;
        assert a in all;
      }
      if c in run {
        var i :| 0 <= i < |run| && run[i] == c;
        assert all[|attempts| + i] == Attempt(c, Passed);
      }
      if c in PassedCodes(all) {
        var a :| a in all && a.outcome == Passed && a.code == c;
        var k :| 0 <= k < |all| && all[k] == a;
        if k < |attempts| { assert a in attempts; } else { assert run[k - |attempts|] == c; }
      }
    }
  }

  /** While nothing of the closure beyond the starting passes is completed, a blocked course stays
      ineligible. */
  lemma StillBlocked(catalog: Catalog, attempts: seq<Attempt>, run: seq<Code>, u: set<Code>, code: Code)
    requires BlockedByPrerequisite(RulesOf(catalog.plan), PassedCodes(attempts), u, code)
    requires Elements(run) * u <= PassedCodes(attempts)
    ensures EvaluateCanTake(catalog, code, attempts + Completions(run)) != Decided(Eligible)
  {
    var now := attempts + Completions(run);
    PassedAfter(attempts, run);
    var g :| g in RulesOf(catalog.plan)[code].groups && g.kind == Prerequisite && Ready(g, PassedCodes(attempts), u);
    assert !Satisfied(g, PassedCodes(now)) by {
      forall o | o in g.options ensures o !in PassedCodes(now) {
        assert o !in Elements(run) || o in Elements(run) * u;
      }
    }
    if EvaluateCanTake(catalog, code, now) == Decided(Eligible) { EligibleMeetsEveryGroup(catalog, code, now, None, g); }
  }

  lemma {:induction false} RunStaysOutside(catalog: Catalog, attempts: seq<Attempt>, base: set<Code>, u: set<Code>, run: seq<Code>)
    requires LegalRun(catalog, attempts, base, run)
    requires forall c :: c in u && c !in base ==> BlockedByPrerequisite(RulesOf(catalog.plan), PassedCodes(attempts), u, c)
    ensures Elements(run) * u == {}
  {
    hide BlockedByPrerequisite, PassedCodes, EvaluateCanTake;
    if run != [] {
      var front, last := run[..|run| - 1], run[|run| - 1];
      RunStaysOutside(catalog, attempts, base, u, front);
      if last in u { StillBlocked(catalog, attempts, front, u, last); }
      assert run == front + [last];
      assert Elements(run) == Elements(front) + {last};
    }
  }

  /** Safety over whole runs: while nothing of `avoid` is completed, no other course of a set ever
      becomes eligible whose courses outside `avoid` each wait for a prerequisite group within the set. */
  lemma BlockedTogether(catalog: Catalog, attempts: seq<Attempt>, avoid: set<Code>, blocked: set<Code>, run: seq<Code>, code: Code)
    requires forall c :: c in blocked && c !in avoid ==> BlockedByPrerequisite(RulesOf(catalog.plan), PassedCodes(attempts), blocked, c)
    requires LegalRun(catalog, attempts, avoid, run) && code in blocked && code !in avoid
    ensures EvaluateCanTake(catalog, code, attempts + Completions(run)) != Decided(Eligible)
  {
    RunStaysOutside(catalog, attempts, avoid, blocked, run);
    StillBlocked(catalog, attempts, run, blocked, code);
  }

  /** So as long as neither the target nor a directly affected course is completed, no transitively
      affected course ever becomes eligible. The closure propagates through corequisite groups too, so
      what is asked is that each course owes its place to a prerequisite group. */
  lemma DelayedCoursesStayBlocked(catalog: Catalog, attempts: seq<Attempt>, target: Code, base: set<Code>, u: set<Code>,
                                  run: seq<Code>, code: Code)
    requires IsClosure(RulesOf(catalog.plan), PassedCodes(attempts), target, base, u)
    requires forall c :: c in u && c !in base ==> BlockedByPrerequisite(RulesOf(catalog.plan), PassedCodes(attempts), u, c)
    requires LegalRun(catalog, attempts, base, run)
    requires code in u && code !in base
    ensures EvaluateCanTake(catalog, code, attempts + Completions(run)) != Decided(Eligible)
  {
    BlockedTogether(catalog, attempts, base, u, run, code);
  }

  /** A catalog without corequisite groups meets the proviso for every student and every delay. */
  lemma PrerequisiteCatalogsAreSafe(catalog: Catalog, attempts: seq<Attempt>, target: Code, base: set<Code>, u: set<Code>,
                                    run: seq<Code>, code: Code)
    requires PrerequisitesOnly(catalog)
    requires IsClosure(RulesOf(catalog.plan), PassedCodes(attempts), target, base, u)
    requires LegalRun(catalog, attempts, base, run)
    requires code in u && code !in base
    ensures EvaluateCanTake(catalog, code, attempts + Completions(run)) != Decided(Eligible)
  {
    var rules, passed := RulesOf(catalog.plan), PassedCodes(attempts);
    forall c | c in u && c !in base ensures BlockedByPrerequisite(rules, passed, u, c) {
      ClosureIsJustified(rules, passed, target, base, u, c);
    }
    DelayedCoursesStayBlocked(catalog, attempts, target, base, u, run, code);
  }

  const DELAYED := Rule("T", NotApplicable, [], None)
  const DIRECT := Rule("D", Verified, [Group(1, Prerequisite, ["T"])], None)
  const PASSED_GROUP := Group(1, Prerequisite, ["Z"])
  const TAKEN_TOGETHER := Group(2, Corequisite, ["D"])
  const COMPANION := Rule("C", Verified, [PASSED_GROUP, TAKEN_TOGETHER], None)
  const COMPANION_PLAN := [DELAYED, DIRECT, COMPANION]

  lemma CompanionRules()
    ensures RulesOf(COMPANION_PLAN) == map["T" := DELAYED, "D" := DIRECT, "C" := COMPANION]
    ensures PassedCodes([Attempt("Z", Passed)]) == {"Z"}
  {
    assert COMPANION_PLAN == (([] + [DELAYED]) + [DIRECT]) + [COMPANION];
    RulesOfSnoc([], DELAYED);
    RulesOfSnoc([] + [DELAYED], DIRECT);
    RulesOfSnoc(([] + [DELAYED]) + [DIRECT], COMPANION);
    assert [Attempt("Z", Passed)][0] == Attempt("Z", Passed);
  }

  lemma CompanionEligible()
    ensures PrerequisiteDecision(COMPANION, {"Z"}) == Eligible
  {
    var groups := COMPANION.groups;
    assert groups[1..] == [TAKEN_TOGETHER] && groups[1..][1..] == [];
    assert PrerequisiteGroups(groups[1..]) == [];
    assert PrerequisiteGroups(groups) == [PASSED_GROUP];
    assert PASSED_GROUP.options[0] == "Z";
    assert Satisfied(PASSED_GROUP, {"Z"});
  }

  /** The proviso is needed. Course C requires Z, already passed, and lists D as a corequisite; delaying
      T blocks D directly and reports C as transitively affected although C is eligible today. */
  lemma CorequisiteOverclaims()
    ensures var catalog := Catalog("P", COMPANION_PLAN, {"T", "D", "C", "Z"}, false, {});
            var attempts := [Attempt("Z", Passed)];
            && IsClosure(RulesOf(COMPANION_PLAN), PassedCodes(attempts), "T", {"T", "D"}, {"T", "D", "C"})
            && EvaluateCanTake(catalog, "C", attempts) == Decided(Eligible)
  {
    hide RulesOf, PassedCodes, PrerequisiteDecision;
    CompanionRules();
    CompanionEligible();
    var rules := RulesOf(COMPANION_PLAN);
    assert TAKEN_TOGETHER.options[0] == "D" && COMPANION.groups[1] == TAKEN_TOGETHER;
    assert "D" in TAKEN_TOGETHER.options && "D"[0] != "T"[0] && "D"[0] != "Z"[0];
    assert HasOther(TAKEN_TOGETHER, "T");
    forall s: set<Code> | {"T", "D"} <= s && ClosedUnder(rules, {"Z"}, "T", s) ensures {"T", "D", "C"} <= s {
      assert Ready(TAKEN_TOGETHER, {"Z"}, s) && HasOther(TAKEN_TOGETHER, "T");
      assert Propagates(rules, {"Z"}, "T", s, "C");
    }
    assert ClosedUnder(rules, {"Z"}, "T", {"T", "D", "C"});
    var catalog := Catalog("P", COMPANION_PLAN, {"T", "D", "C", "Z"}, false, {});
    var attempts := [Attempt("Z", Passed)];
    assert forall a :: a in attempts ==> a == Attempt("Z", Passed);
    assert |"C"| == 1 && |"Z"| == 1;
    UngatedDecision(catalog, "C", attempts);
  }

  /** A verified course outside the base is left out exactly when no ready group of it has an option
      besides the target. */
  lemma LeftOutExactly(rules: map<Code, Rule>, passed: set<Code>, target: Code, base: set<Code>, u: set<Code>, code: Code)
    requires IsClosure(rules, passed, target, base, u) && code in rules && code !in base && rules[code].status == Verified
    ensures code !in u <==> forall g :: g in rules[code].groups && Ready(g, passed, u) ==> !HasOther(g, target)
  {
    if code in u { ClosureIsJustified(rules, passed, target, base, u, code); }
    hide BelowEveryClosed;
    if exists g :: g in rules[code].groups && Ready(g, passed, u) && HasOther(g, target) {
      assert Propagates(rules, passed, target, u, code);
    }
  }

  /** A gap on the other side: a course that waits for the target, or for courses that wait for it in
      turn, stays blocked for as long as the target is delayed; but unless some group of it is ready
      with an option besides the target, it is not reported. */
  lemma BlockedButUnreported(catalog: Catalog, attempts: seq<Attempt>, target: Code, base: set<Code>, u: set<Code>,
                             blocked: set<Code>, run: seq<Code>, code: Code)
    requires IsClosure(RulesOf(catalog.plan), PassedCodes(attempts), target, base, u)
    requires forall c :: c in blocked && c !in base ==> BlockedByPrerequisite(RulesOf(catalog.plan), PassedCodes(attempts), blocked, c)
    requires LegalRun(catalog, attempts, base, run) && code in blocked && code !in base
    ensures code in RulesOf(catalog.plan)
    ensures code !in u <==> forall g :: g in RulesOf(catalog.plan)[code].groups && Ready(g, PassedCodes(attempts), u) ==> !HasOther(g, target)
    ensures EvaluateCanTake(catalog, code, attempts + Completions(run)) != Decided(Eligible)
  {
    assert BlockedByPrerequisite(RulesOf(catalog.plan), PassedCodes(attempts), blocked, code);
    LeftOutExactly(RulesOf(catalog.plan), PassedCodes(attempts), target, base, u, code);
    hide IsClosure;
    BlockedTogether(catalog, attempts, base, blocked, run, code);
  }

  /** For a course without the project credit gate, being directly affected means exactly that the
      target is what its prerequisites are waiting for. */
  lemma DirectMeansTargetDecides(catalog: Catalog, target: Code, attempts: seq<Attempt>, code: Code)
    requires target != "" && code != "" && forall a :: a in attempts ==> a.code != ""
    requires code in catalog.courses && code !in catalog.projects
    ensures var rules, passed := RulesOf(catalog.plan), PassedCodes(attempts);
            DirectlyAffected(catalog, target, attempts, code) <==>
            && code != target && code in rules && rules[code].status == Verified
            && UsesOption(rules[code], target)
            && var groups := PrerequisiteGroups(rules[code].groups);
               && ValidGroups(groups)
               && (forall g :: g in groups ==> Satisfied(g, passed + {target}))
               && (exists g :: g in groups && !Satisfied(g, passed))
  {
    var with := attempts + [Attempt(target, Passed)];
    assert Completions([target]) == [Attempt(target, Passed)];
    PassedAfter(attempts, [target]);
    assert Elements([target]) == {target};
    var rules, passed := RulesOf(catalog.plan), PassedCodes(attempts);
    assert PassedCodes(with) == passed + {target};
    assert forall a :: a in with ==> a.code != "";
    if code in rules {
      UngatedDecision(catalog, code, attempts);
      UngatedDecision(catalog, code, with);
      hide EvaluateCanTake, PassedCodes, RulesOf, UsesOption, ValidGroups, Satisfied;
      assert DirectlyAffected(catalog, target, attempts, code) <==>
             && code != target && UsesOption(rules[code], target) && ExecutableLogic(rules[code])
             && PrerequisiteDecision(rules[code], passed + {target}) == Eligible
             && PrerequisiteDecision(rules[code], passed) == NotEligible;
    }
  }

  lemma UngatedDecision(catalog: Catalog, code: Code, attempts: seq<Attempt>)
    requires code != "" && (forall a :: a in attempts ==> a.code != "")
    requires code in catalog.courses && code !in catalog.projects && code in RulesOf(catalog.plan)
    ensures EvaluateCanTake(catalog, code, attempts)
            == Decided(PrerequisiteDecision(RulesOf(catalog.plan)[code], PassedCodes(attempts)))
  {
  }

  ghost predicate PrerequisitesOnly(catalog: Catalog) {
    forall r, g :: r in catalog.plan && g in r.groups ==> g.kind == Prerequisite
  }

  /** Both passes together, as the analysis runs them: over a prerequisites-only catalog everything
      reported as transitively affected stays out of reach in every legal run that completes neither
      the target nor a directly affected course. */
  method DependencyImpacts(catalog: Catalog, target: Code, attempts: seq<Attempt>)
    returns (direct: seq<Affected>, transitive: seq<Affected>, review: bool, ghost depths: Depths)
    ensures forall code :: code in Codes(direct) <==> DirectlyAffected(catalog, target, attempts, code)
    ensures forall a :: a in direct ==> a == Affected(a.code, 1, [target, a.code])
    ensures InCodeOrder(direct)
    ensures review <==> exists code :: NeedsReview(catalog, target, attempts, code)
    ensures transitive == Sort(AffectedLe, Worklist(RulesOf(catalog.plan), PassedCodes(attempts), target, direct).found)
    ensures TakenInOrder(Parents(RulesOf(catalog.plan), PassedCodes(attempts), target, direct), depths)
    ensures Reported(RulesOf(catalog.plan), target, {target} + Codes(direct), transitive)
    ensures IsClosure(RulesOf(catalog.plan), PassedCodes(attempts), target, {target} + Codes(direct),
                      {target} + Codes(direct) + Codes(transitive))
    ensures Fitted(RulesOf(catalog.plan), PassedCodes(attempts), target, {target} + Codes(direct),
                   {target} + Codes(direct) + Codes(transitive), depths)
    ensures forall a :: a in transitive ==> a.code in depths && depths[a.code] == a.depth
    ensures direct == [] ==> transitive == []
    ensures PrerequisitesOnly(catalog) ==>
              forall run, code {:trigger LegalRun(catalog, attempts, {target} + Codes(direct), run), code in Codes(transitive)} ::
                LegalRun(catalog, attempts, {target} + Codes(direct), run) && code in Codes(transitive)
                ==> EvaluateCanTake(catalog, code, attempts + Completions(run)) != Decided(Eligible)
  {
    direct, review := DirectImpacts(catalog, target, attempts);
    forall c | c in Codes(direct) ensures c in Dependents(RulesOf(catalog.plan), target) {
      assert DirectlyAffected(catalog, target, attempts, c);
    }
    ghost var line;
    transitive, depths, line := TransitiveImpacts(target, direct, RulesOf(catalog.plan), attempts);
    hide DirectlyAffected, NeedsReview, PathOk, EvaluateCanTake, IsClosure, RulesOf, PassedCodes, LegalRun, Fitted, Worklist, Parents,
         TakenInOrder;
    ghost var base := {target} + Codes(direct);
    ghost var u := base + Codes(transitive);
    if direct == [] {
      EmptyCodes();
      assert base == {target};
      NoDirectNoTransitive(RulesOf(catalog.plan), PassedCodes(attempts), target, u);
      assert Codes(transitive) == {};
    }
    if PrerequisitesOnly(catalog) {
      forall run, code | LegalRun(catalog, attempts, base, run) && code in Codes(transitive)
        ensures EvaluateCanTake(catalog, code, attempts + Completions(run)) != Decided(Eligible)
      {
        PrerequisiteCatalogsAreSafe(catalog, attempts, target, base, u, run, code);
      }
    }
  }
}
