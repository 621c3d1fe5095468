/** Structural fan-out of a proposed prerequisite change (apps/api/app/change_impact/engine.py). */
module ChangeImpact {
  import opened Wrappers
  import opened Ordering
  import opened AcademicRules
  import opened PrerequisiteGraph

  // ---- Reverse edges ------------------------------------------------------------------

  function Get(m: map<Code, set<Code>>, x: Code): set<Code> {
    if x in m then m[x] else {}
  }

  function DependentsAmong(rules: map<Code, Rule>, done: set<Code>, x: Code): set<Code> {
    set c | c in done && c in rules && UsesOption(rules[c], x)
  }

  /** Whether the first `i` groups, or the first `j` options of the next one, list `x`. */
  ghost predicate UsesUpTo(rule: Rule, i: nat, j: nat, x: Code)
    requires i <= |rule.groups|
    requires i < |rule.groups| ==> j <= |rule.groups[i].options|
  {
    || (exists k :: 0 <= k < i && x in rule.groups[k].options)
    || (i < |rule.groups| && x in rule.groups[i].options[..j])
  }

  ghost predicate Collected(rules: map<Code, Rule>, done: set<Code>, rule: Rule, i: nat, j: nat,
                            reverse: map<Code, set<Code>>)
    requires i <= |rule.groups|
    requires i < |rule.groups| ==> j <= |rule.groups[i].options|
  {
    forall x :: Get(reverse, x)
                == DependentsAmong(rules, done, x) + (if UsesUpTo(rule, i, j, x) then {rule.code} else {})
  }

  /** `reverse.setdefault(option, set()).add(code)` over every rule, group and option. */
  method BuildReverse(rules: map<Code, Rule>) returns (reverse: map<Code, set<Code>>)
    requires forall c :: c in rules ==> rules[c].code == c
    ensures forall x :: Get(reverse, x) == Dependents(rules, x)
    ensures forall x, c :: c in Get(reverse, x) <==> c in rules && exists g :: g in rules[c].groups && x in g.options
  {
    reverse := map[];
    var todo, done := rules.Keys, {};
    while todo != {}
      invariant done == rules.Keys - todo && todo <= rules.Keys
      invariant forall x :: Get(reverse, x) == DependentsAmong(rules, done, x)
      decreases todo
    {
      var c :| c in todo;
      var rule := rules[c];
      var i := 0;
      while i < |rule.groups|
        invariant 0 <= i <= |rule.groups|
        invariant Collected(rules, done, rule, i, 0, reverse)
      {
        var options := rule.groups[i].options;
        var j := 0;
        while j < |options|
          invariant 0 <= j <= |options|
          invariant Collected(rules, done, rule, i, j, reverse)
        {
          var option := options[j];
          assert options[..j + 1] == options[..j] + [option];
          reverse := reverse[option := Get(reverse, option) + {rule.code}];
          j := j + 1;
        }
        assert options[..j] == options;
        i := i + 1;
      }
      forall x ensures Get(reverse, x) == DependentsAmong(rules, done + {c}, x) {
        assert UsesUpTo(rule, i, 0, x) <==> UsesOption(rule, x);
      }
      todo, done := todo - {c}, done + {c};
    }
    forall x ensures Get(reverse, x) == Dependents(rules, x) {}
  }

  // ---- Bounded breadth-first search ---------------------------------------------------

  /** More than `maxNodes` courses are reachable. */
  ghost predicate TooWide(rules: map<Code, Rule>, first: Code, maxNodes: int) {
    exists n: nat :: |Within(rules, first, n)| > maxNodes
  }

  /** Some course at shortest distance `maxDepth` still has dependents. */
  ghost predicate TooDeep(rules: map<Code, Rule>, first: Code, maxDepth: nat) {
    exists x :: AtDistance(rules, first, x, maxDepth) && Dependents(rules, x) != {}
  }

  type Frontier = seq<(Code, nat)>

  ghost predicate Pending(queue: Frontier, x: Code) {
    exists i :: 0 <= i < |queue| && queue[i].0 == x
  }

  /** `x` was popped: its dependents are known, none of them further than one more step. */
  ghost predicate Expanded(rules: map<Code, Rule>, depth: map<Code, nat>, x: Code, maxDepth: nat)
    requires x in depth
  {
    && (forall c :: c in Dependents(rules, x) ==> c in depth && depth[c] <= depth[x] + 1)
    && (Dependents(rules, x) != {} ==> depth[x] < maxDepth)
  }

  ghost predicate Depths(rules: map<Code, Rule>, first: Code, depth: map<Code, nat>, maxDepth: nat) {
    && first in depth && depth[first] == 0
    && forall x :: x in depth ==> depth[x] <= maxDepth && x in Within(rules, first, depth[x])
  }

  ghost predicate Fifo(queue: Frontier, depth: map<Code, nat>, level: nat) {
    && (forall i :: 0 <= i < |queue| ==>
          queue[i].0 in depth && depth[queue[i].0] == queue[i].1 && level <= queue[i].1 <= level + 1)
    && (forall i, j :: 0 <= i < j < |queue| ==> queue[i].1 <= queue[j].1)
  }

  /** Everything seen is expanded at or above the level, waiting in the queue, or `open`. */
  ghost predicate Frontiered(rules: map<Code, Rule>, queue: Frontier, depth: map<Code, nat>,
                             level: nat, open: set<Code>, maxDepth: nat) {
    forall x :: x in depth ==>
      || (Expanded(rules, depth, x, maxDepth) && depth[x] <= level)
      || Pending(queue, x)
      || x in open
  }

  /** Breadth-first depth is shortest distance for everything up to the current level. */
  lemma {:induction false} ShortestUpToLevel(rules: map<Code, Rule>, first: Code, queue: Frontier,
                                             depth: map<Code, nat>, level: nat, open: set<Code>, maxDepth: nat, n: nat, x: Code)
    requires Depths(rules, first, depth, maxDepth) && Fifo(queue, depth, level)
    requires Frontiered(rules, queue, depth, level, open, maxDepth)
    requires forall y :: y in open ==> y in depth && depth[y] >= level
    requires n <= level && x in Within(rules, first, n)
    ensures x in depth && depth[x] <= n
  {
    if n > 0 {
      if x in Within(rules, first, n - 1) {
        ShortestUpToLevel(rules, first, queue, depth, level, open, maxDepth, n - 1, x);
      } else {
        var y :| y in Within(rules, first, n - 1) && x in Dependents(rules, y);
        ShortestUpToLevel(rules, first, queue, depth, level, open, maxDepth, n - 1, y);
        assert Expanded(rules, depth, y, maxDepth);
      }
    }
  }

  /** A node popped at the depth bound with dependents really is at that shortest distance. */
  lemma PoppedAtBound(rules: map<Code, Rule>, first: Code, queue: Frontier, depth: map<Code, nat>,
                      source: Code, level: nat, maxDepth: nat)
    requires Depths(rules, first, depth, maxDepth) && Fifo(queue, depth, level)
    requires Frontiered(rules, queue, depth, level, {source}, maxDepth)
    requires source in depth && depth[source] == level >= maxDepth && Dependents(rules, source) != {}
    ensures TooDeep(rules, first, maxDepth)
  {
    assert level == maxDepth;
    if maxDepth > 0 && source in Within(rules, first, maxDepth - 1) {
      ShortestUpToLevel(rules, first, queue, depth, level, {source}, maxDepth, maxDepth - 1, source);
    }
    assert AtDistance(rules, first, source, maxDepth);
  }

  lemma SubsetSize(a: set<Code>, b: set<Code>)
    requires a <= b
    ensures |a| <= |b|
  {
    assert b == a + (b - a);
  }

  lemma SeenIsReachable(rules: map<Code, Rule>, first: Code, depth: map<Code, nat>, maxDepth: nat)
    requires Depths(rules, first, depth, maxDepth)
    ensures depth.Keys <= Within(rules, first, maxDepth)
    ensures |depth.Keys| <= |Within(rules, first, maxDepth)|
  {
    forall x | x in depth ensures x in Within(rules, first, maxDepth) {
      WithinMonotone(rules, first, depth[x], maxDepth);
    }
    SubsetSize(depth.Keys, Within(rules, first, maxDepth));
  }

  /** With an empty queue the seen set is the whole closure and neither bound was exceeded. */
  lemma ExhaustedIsExact(rules: map<Code, Rule>, first: Code, depth: map<Code, nat>, level: nat,
                         maxNodes: int, maxDepth: nat)
    requires Depths(rules, first, depth, maxDepth) && Frontiered(rules, [], depth, level, {}, maxDepth)
    requires |depth.Keys| <= maxNodes
    ensures forall x :: x in depth <==> Reachable(rules, first, x)
    ensures !TooWide(rules, first, maxNodes) && !TooDeep(rules, first, maxDepth)
  {
    assert Closed(rules, depth.Keys) by {
      forall x, c | x in depth.Keys && c in Dependents(rules, x) ensures c in depth.Keys {
        assert Expanded(rules, depth, x, maxDepth);
      }
    }
    forall n: nat ensures Within(rules, first, n) <= depth.Keys {
      ClosedContainsReach(rules, first, depth.Keys, n);
    }
    forall n: nat ensures |Within(rules, first, n)| <= maxNodes {
      SubsetSize(Within(rules, first, n), depth.Keys);
    }
    forall x | AtDistance(rules, first, x, maxDepth) ensures Dependents(rules, x) == {} {
      assert x in depth && Expanded(rules, depth, x, maxDepth);
      if depth[x] < maxDepth { WithinMonotone(rules, first, depth[x], maxDepth - 1); }
    }
  }

  lemma DiscoverDepths(rules: map<Code, Rule>, first: Code, depth: map<Code, nat>, source: Code, maxDepth: nat, target: Code)
    requires Depths(rules, first, depth, maxDepth)
    requires source in depth && depth[source] < maxDepth
    requires target in Dependents(rules, source) && target !in depth
    ensures Depths(rules, first, depth[target := depth[source] + 1], maxDepth)
  {
    hide Dependents;
    assert target in Step(rules, Within(rules, first, depth[source]));
  }

  lemma DiscoverFifo(queue: Frontier, depth: map<Code, nat>, level: nat, target: Code)
    requires Fifo(queue, depth, level) && target !in depth
    ensures Fifo(queue + [(target, level + 1)], depth[target := level + 1], level)
  {
  }

  lemma ExpandedStays(rules: map<Code, Rule>, depth: map<Code, nat>, x: Code, maxDepth: nat, target: Code, level: nat)
    requires x in depth && target !in depth && Expanded(rules, depth, x, maxDepth)
    ensures Expanded(rules, depth[target := level + 1], x, maxDepth)
  {
  }

  lemma PendingSnoc(queue: Frontier, entry: (Code, nat), x: Code)
    requires Pending(queue, x) || x == entry.0
    ensures Pending(queue + [entry], x)
  {
    var q := queue + [entry];
    assert q[|queue|] == entry;
    if Pending(queue, x) {
      var i :| 0 <= i < |queue| && queue[i].0 == x;
      assert q[i].0 == x;
    }
  }

  lemma DiscoverFrontiered(rules: map<Code, Rule>, queue: Frontier, depth: map<Code, nat>,
                           level: nat, open: set<Code>, maxDepth: nat, target: Code)
    requires Frontiered(rules, queue, depth, level, open, maxDepth) && target !in depth
    ensures Frontiered(rules, queue + [(target, level + 1)], depth[target := level + 1], level, open, maxDepth)
  {
    hide Pending, Expanded;
    var q, d := queue + [(target, level + 1)], depth[target := level + 1];
    forall x | x in d
      ensures (Expanded(rules, d, x, maxDepth) && d[x] <= level) || Pending(q, x) || x in open
    {
      if x == target || Pending(queue, x) {
        PendingSnoc(queue, (target, level + 1), x);
      } else if Expanded(rules, depth, x, maxDepth) {
        ExpandedStays(rules, depth, x, maxDepth, target, level);
      }
    }
  }

  lemma PopHead(rules: map<Code, Rule>, queue: Frontier, depth: map<Code, nat>, level: nat, maxDepth: nat)
    requires queue != [] && Fifo(queue, depth, level) && Frontiered(rules, queue, depth, level, {}, maxDepth)
    ensures queue[0].0 in depth && depth[queue[0].0] == queue[0].1
    ensures Fifo(queue[1..], depth, queue[0].1)
    ensures Frontiered(rules, queue[1..], depth, queue[0].1, {queue[0].0}, maxDepth)
  {
    forall x | x in depth && Pending(queue, x) && x != queue[0].0 ensures Pending(queue[1..], x) {
      var i :| 0 <= i < |queue| && queue[i].0 == x;
      assert queue[1..][i - 1].0 == x;
    }
  }

  lemma KnownNearby(rules: map<Code, Rule>, queue: Frontier, depth: map<Code, nat>, level: nat,
                    source: Code, maxDepth: nat, x: Code)
    requires Fifo(queue, depth, level) && Frontiered(rules, queue, depth, level, {source}, maxDepth)
    requires x in depth && source in depth && depth[source] == level
    ensures depth[x] <= level + 1
  {
  }

  /** The first `k` dependents have been seen, none of them beyond the next level. */
  ghost predicate Met(downstream: seq<Code>, k: nat, depth: map<Code, nat>, level: nat) {
    k <= |downstream| && forall i :: 0 <= i < k ==> downstream[i] in depth && depth[downstream[i]] <= level + 1
  }

  lemma MetOneMore(downstream: seq<Code>, k: nat, depth: map<Code, nat>, later: map<Code, nat>, level: nat)
    requires Met(downstream, k, depth, level) && k < |downstream|
    requires forall x :: x in depth ==> x in later && later[x] == depth[x]
    requires downstream[k] in later && later[downstream[k]] <= level + 1
    ensures Met(downstream, k + 1, later, level)
  {
  }

  lemma StartFrontier(rules: map<Code, Rule>, first: Code, maxDepth: nat)
    ensures var queue, depth := [(first, 0 as nat)], map[first := 0 as nat];
            && Depths(rules, first, depth, maxDepth) && Fifo(queue, depth, 0)
            && Frontiered(rules, queue, depth, 0, {}, maxDepth)
  {
    assert [(first, 0 as nat)][0].0 == first;
  }

  /** Once all its dependents are known, the popped course is expanded. */
  lemma CloseSource(rules: map<Code, Rule>, queue: Frontier, depth: map<Code, nat>, level: nat,
                    source: Code, maxDepth: nat, downstream: seq<Code>)
    requires Frontiered(rules, queue, depth, level, {source}, maxDepth)
    requires source in depth && depth[source] == level
    requires Elements(downstream) == Dependents(rules, source)
    requires downstream != [] ==> level < maxDepth
    requires Met(downstream, |downstream|, depth, level)
    ensures Frontiered(rules, queue, depth, level, {}, maxDepth)
  {
    forall c | c in Dependents(rules, source) ensures c in depth && depth[c] <= level + 1 {
      assert c in Elements(downstream);
    }
    assert Expanded(rules, depth, source, maxDepth);
  }

  /** One pass over the dependents of a popped course: new ones join the queue a level deeper. */
  method Scan(rules: map<Code, Rule>, first: Code, maxNodes: int, maxDepth: nat, source: Code, d: nat,
              downstream: seq<Code>, queue0: Frontier, seen0: set<Code>, ghost depth0: map<Code, nat>)
    returns (queue: Frontier, seen: set<Code>, ghost depth: map<Code, nat>, wide: bool)
    requires seen0 == depth0.Keys && |seen0| <= maxNodes && source in depth0 && depth0[source] == d
    requires Depths(rules, first, depth0, maxDepth) && Fifo(queue0, depth0, d)
    requires Frontiered(rules, queue0, depth0, d, {source}, maxDepth)
    requires Elements(downstream) == Dependents(rules, source) && (downstream != [] ==> d < maxDepth)
    ensures wide ==> TooWide(rules, first, maxNodes)
    ensures !wide ==>
              && seen == depth.Keys && |seen| <= maxNodes
              && Depths(rules, first, depth, maxDepth) && Fifo(queue, depth, d)
              && Frontiered(rules, queue, depth, d, {}, maxDepth)
    ensures |seen| >= |seen0| && (|seen| == |seen0| ==> |queue| == |queue0|)
  {
    hide Depths, Fifo, Frontiered, Within, Dependents;
    queue, seen, depth, wide := queue0, seen0, depth0, false;
    assert Met(downstream, 0, depth, d);
    hide Met;
    var k := 0;
    while k < |downstream|
      invariant 0 <= k <= |downstream|
      invariant seen == depth.Keys && |seen| <= maxNodes
      invariant |seen| >= |seen0| && (|seen| == |seen0| ==> |queue| == |queue0|)
      invariant Depths(rules, first, depth, maxDepth) && Fifo(queue, depth, d)
      invariant Frontiered(rules, queue, depth, d, {source}, maxDepth)
      invariant source in depth && depth[source] == d
      invariant Met(downstream, k, depth, d)
    {
      var target := downstream[k];
      assert target in Elements(downstream);
      if target !in seen {
        DiscoverDepths(rules, first, depth, source, maxDepth, target);
        DiscoverFifo(queue, depth, d, target);
        DiscoverFrontiered(rules, queue, depth, d, {source}, maxDepth, target);
        MetOneMore(downstream, k, depth, depth[target := d + 1], d);
        depth := depth[target := d + 1];
        seen := seen + {target};
        if |seen| > maxNodes {
          SeenIsReachable(rules, first, depth, maxDepth);
          wide := true;
          queue := queue + [(target, d + 1)];
          return;
        }
        queue := queue + [(target, d + 1)];
      } else {
        KnownNearby(rules, queue, depth, d, source, maxDepth, target);
        MetOneMore(downstream, k, depth, depth, d);
      }
      k := k + 1;
    }
    CloseSource(rules, queue, depth, d, source, maxDepth, downstream);
  }

  /** What the search is to answer: the downstream closure as a listing, or nothing. */
  ghost predicate Answers(rules: map<Code, Rule>, first: Code, maxNodes: int, maxDepth: nat, r: Option<seq<Code>>) {
    && (r.None? <==> TooWide(rules, first, maxNodes) || TooDeep(rules, first, maxDepth))
    && (r.Some? ==>
          && (forall x :: x in r.value <==> Reachable(rules, first, x))
          && Sorted(StrLe, r.value) && Distinct(r.value) && |r.value| <= maxNodes)
  }

  /** The search returns the whole downstream closure in order, or nothing: it refuses exactly
      when the closure is too wide or some course at the depth bound still has dependents. */
  method Downstream(rules: map<Code, Rule>, first: Code, maxNodes: int, maxDepth: nat)
    returns (r: Option<seq<Code>>)
    requires forall c :: c in rules ==> rules[c].code == c
    requires maxNodes >= 1
    ensures Answers(rules, first, maxNodes, maxDepth, r)
  {
    hide Depths, Fifo, Frontiered, Within, UsesOption, Sorted, Distinct, TooDeep, TooWide, Reachable;
    var reverse := BuildReverse(rules);
    var queue: Frontier := [(first, 0)];
    var seen := {first};
    ghost var depth: map<Code, nat> := map[first := 0];
    ghost var level: nat := 0;
    StartFrontier(rules, first, maxDepth);
    while queue != []
      invariant seen == depth.Keys && |seen| <= maxNodes
      invariant Depths(rules, first, depth, maxDepth) && Fifo(queue, depth, level)
      invariant Frontiered(rules, queue, depth, level, {}, maxDepth)
      decreases maxNodes - |seen|, |queue|
    {
      var (source, d) := queue[0];
      PopHead(rules, queue, depth, level, maxDepth);
      level := d;
      queue := queue[1..];
      var downstream := SortedList(Get(reverse, source));
      if downstream != [] && d >= maxDepth {
        assert downstream[0] in Elements(downstream);
        PoppedAtBound(rules, first, queue, depth, source, level, maxDepth);
        return None;
      }
      var wide;
      queue, seen, depth, wide := Scan(rules, first, maxNodes, maxDepth, source, d, downstream, queue, seen, depth);
      if wide { return None; }
    }
    ExhaustedIsExact(rules, first, depth, level, maxNodes, maxDepth);
    var listed := SortedList(seen);
    assert forall x :: x in listed <==> x in Elements(listed);
    return Some(listed);
  }
}
