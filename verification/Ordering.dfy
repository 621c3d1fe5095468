/** Orders and sorting shared by the models.

    Python compares strings and tuples lexicographically, so one lexicographic order over
    sequences, lifted from an order on the elements, serves course codes, evidence keys and
    candidate keys alike.
  */
module Ordering {

  /** A total preorder: ties are allowed, which is what a sort by key gives. */
  ghost predicate Preorder<T(!new)>(le: (T, T) -> bool) {
    && (forall x, y :: le(x, y) || le(y, x))
    && (forall x, y, z :: le(x, y) && le(y, z) ==> le(x, z))
  }

  ghost predicate Antisymmetric<T(!new)>(le: (T, T) -> bool) {
    forall x, y :: le(x, y) && le(y, x) ==> x == y
  }

  ghost predicate TotalOrder<T(!new)>(le: (T, T) -> bool) {
    Preorder(le) && Antisymmetric(le)
  }

  // ---- Lexicographic order ------------------------------------------------------------

  predicate LexLe<T(==)>(le: (T, T) -> bool, a: seq<T>, b: seq<T>) {
    if a == [] then true
    else if b == [] then false
    else if a[0] == b[0] then LexLe(le, a[1..], b[1..])
    else le(a[0], b[0])
  }

  lemma {:induction false} LexTotal<T(!new)>(le: (T, T) -> bool, a: seq<T>, b: seq<T>)
    requires TotalOrder(le)
    ensures LexLe(le, a, b) || LexLe(le, b, a)
    ensures LexLe(le, a, b) && LexLe(le, b, a) ==> a == b
  {
    if a != [] && b != [] && a[0] == b[0] {
      LexTotal(le, a[1..], b[1..]);
      assert a == [a[0]] + a[1..] && b == [b[0]] + b[1..];
    }
  }

  lemma {:induction false} LexTransitive<T(!new)>(le: (T, T) -> bool, a: seq<T>, b: seq<T>, c: seq<T>)
    requires TotalOrder(le)
    requires LexLe(le, a, b) && LexLe(le, b, c)
    ensures LexLe(le, a, c)
  {
    if a != [] {
      if a[0] == b[0] && b[0] == c[0] {
        LexTransitive(le, a[1..], b[1..], c[1..]);
      }
    }
  }

  function Lex<T(==)>(le: (T, T) -> bool): (seq<T>, seq<T>) -> bool {
    (a, b) => LexLe(le, a, b)
  }

  /** Lexicographic order over a totally ordered type is itself total. */
  lemma LexIsTotalOrder<T(!new)>(le: (T, T) -> bool)
    requires TotalOrder(le)
    ensures TotalOrder(Lex(le))
  {
    var lex := Lex(le);
    forall a, b ensures (lex(a, b) || lex(b, a)) && (lex(a, b) && lex(b, a) ==> a == b) {
      LexTotal(le, a, b);
    }
    forall a, b, c | lex(a, b) && lex(b, c) ensures lex(a, c) {
      LexTransitive(le, a, b, c);
    }
  }

  /** A decided first difference settles the comparison, however long the sequences are. */
  lemma {:induction false} LexDecidedAt<T(!new)>(le: (T, T) -> bool, a: seq<T>, b: seq<T>, k: nat)
    requires k < |a| && k < |b|
    requires a[..k] == b[..k] && a[k] != b[k]
    ensures LexLe(le, a, b) == le(a[k], b[k])
  {
    if k > 0 {
      assert a[0] == a[..k][0] == b[..k][0] == b[0];
      assert a[1..][..k - 1] == a[..k][1..] == b[..k][1..] == b[1..][..k - 1];
      LexDecidedAt(le, a[1..], b[1..], k - 1);
    }
  }

  // ---- Strings ------------------------------------------------------------------------

  predicate CharLe(c: char, d: char) { c <= d }

  predicate StrLe(s: string, t: string) { LexLe(CharLe, s, t) }

  lemma StrLeIsTotalOrder()
    ensures TotalOrder(StrLe)
  {
    LexIsTotalOrder(CharLe);
    var lex := Lex(CharLe);
    assert forall s, t :: StrLe(s, t) == lex(s, t);
  }

  /** Text order: a prefix comes first, otherwise the first difference decides. */
  lemma {:induction false} StrLeExactly(s: string, t: string)
    ensures StrLe(s, t) <==> s <= t || exists k :: 0 <= k < |s| && k < |t| && s[..k] == t[..k] && s[k] < t[k]
  {
    if s != [] && t != [] && s[0] == t[0] {
      StrLeExactly(s[1..], t[1..]);
      assert s == [s[0]] + s[1..] && t == [t[0]] + t[1..];
      assert s <= t <==> s[1..] <= t[1..];
      if k :| 0 <= k < |s[1..]| && k < |t[1..]| && s[1..][..k] == t[1..][..k] && s[1..][k] < t[1..][k] {
        assert s[..k + 1] == [s[0]] + s[1..][..k] && t[..k + 1] == [t[0]] + t[1..][..k];
      }
      if k :| 0 <= k < |s| && k < |t| && s[..k] == t[..k] && s[k] < t[k] {
        assert s[1..][..k - 1] == s[..k][1..] && t[1..][..k - 1] == t[..k][1..];
      }
    } else if s != [] && t != [] {
      assert s[..0] == t[..0];
      forall k | 0 < k < |s| && k < |t| ensures s[..k] == t[..k] ==> s[0] == t[0] { SamePrefixSameHead(s, t, k); }
    }
  }

  lemma SamePrefixSameHead(s: string, t: string, k: nat)
    requires 0 < k <= |s| && k <= |t|
    ensures s[..k] == t[..k] ==> s[0] == t[0]
  {
    assert s[..k][0] == s[0] && t[..k][0] == t[0];
  }

  // ---- Sorting ------------------------------------------------------------------------

  ghost predicate Sorted<T>(le: (T, T) -> bool, s: seq<T>) {
    forall i, j :: 0 <= i < j < |s| ==> le(s[i], s[j])
  }

  /** Stable insertion: `x` came before everything in `s`, so it goes in front of its ties. */
  function Insert<T>(le: (T, T) -> bool, x: T, s: seq<T>): seq<T> {
    if s == [] || le(x, s[0]) then [x] + s else [s[0]] + Insert(le, x, s[1..])
  }

  function Sort<T>(le: (T, T) -> bool, s: seq<T>): seq<T> {
    if s == [] then [] else Insert(le, s[0], Sort(le, s[1..]))
  }

  lemma InMultiset<T>(s: seq<T>, x: T)
    ensures x in s <==> x in multiset(s)
  {
  }

  lemma SortedCons<T(!new)>(le: (T, T) -> bool, x: T, t: seq<T>)
    requires Sorted(le, t) && forall y :: y in t ==> le(x, y)
    ensures Sorted(le, [x] + t)
  {
  }

  lemma {:induction false} InsertCorrect<T(!new)>(le: (T, T) -> bool, x: T, s: seq<T>)
    requires Preorder(le) && Sorted(le, s)
    ensures multiset(Insert(le, x, s)) == multiset(s) + multiset{x}
    ensures |Insert(le, x, s)| == |s| + 1
    ensures Sorted(le, Insert(le, x, s))
  {
    if s == [] || le(x, s[0]) {
      forall y | y in s ensures le(x, y) {
        var k :| 0 <= k < |s| && s[k] == y;
        assert k > 0 ==> le(s[0], s[k]);
      }
      SortedCons(le, x, s);
    } else {
      var rest := s[1..];
      assert s == [s[0]] + rest;
      InsertCorrect(le, x, rest);
      var t := Insert(le, x, rest);
      forall y | y in t ensures le(s[0], y) {
        InMultiset(t, y);
        InMultiset(rest, y);
        if y != x {
          var k :| 0 <= k < |rest| && rest[k] == y;
          assert s[k + 1] == y;
        }
      }
      SortedCons(le, s[0], t);
    }
  }

  /** Sorting permutes its input into order. */
  lemma {:induction false} SortCorrect<T(!new)>(le: (T, T) -> bool, s: seq<T>)
    requires Preorder(le)
    ensures Sorted(le, Sort(le, s))
    ensures multiset(Sort(le, s)) == multiset(s)
    ensures |Sort(le, s)| == |s|
  {
    if s != [] {
      SortCorrect(le, s[1..]);
      InsertCorrect(le, s[0], Sort(le, s[1..]));
      assert s == [s[0]] + s[1..];
    }
  }

  /** Membership survives sorting. */
  lemma SortMembers<T(!new)>(le: (T, T) -> bool, s: seq<T>, x: T)
    requires Preorder(le)
    ensures x in Sort(le, s) <==> x in s
  {
    SortCorrect(le, s);
    assert x in Sort(le, s) <==> x in multiset(Sort(le, s));
    assert x in s <==> x in multiset(s);
  }

  /** Equal multisets have the same least element. */
  lemma SameHead<T(!new)>(le: (T, T) -> bool, a: seq<T>, b: seq<T>)
    requires Preorder(le) && Sorted(le, a) && Sorted(le, b)
    requires a != [] && b != [] && multiset(a) == multiset(b)
    ensures b[0] in a && le(a[0], b[0]) && le(b[0], a[0])
  {
    InMultiset(a, b[0]);
    InMultiset(b, a[0]);
    InMultiset(b, b[0]);
    InMultiset(a, a[0]);
    var k :| 0 <= k < |b| && b[k] == a[0];
    var j :| 0 <= j < |a| && a[j] == b[0];
    assert le(a[0], a[0]) && le(b[0], b[0]);
  }

  lemma TailMultiset<T>(s: seq<T>)
    requires s != []
    ensures multiset(s[1..]) == multiset(s) - multiset{s[0]}
  {
    assert s == [s[0]] + s[1..];
  }

  lemma SortedTail<T>(le: (T, T) -> bool, s: seq<T>)
    requires s != [] && Sorted(le, s)
    ensures Sorted(le, s[1..])
  {
  }

  /** Elements that tie are equal. */
  ghost predicate NoTies<T>(le: (T, T) -> bool, s: seq<T>) {
    forall x, y :: x in s && y in s && le(x, y) && le(y, x) ==> x == y
  }

  lemma NoTiesTail<T>(le: (T, T) -> bool, s: seq<T>)
    requires s != [] && NoTies(le, s)
    ensures NoTies(le, s[1..])
  {
    assert forall x :: x in s[1..] ==> x in s;
  }

  lemma SameHeadEqual<T(!new)>(le: (T, T) -> bool, a: seq<T>, b: seq<T>)
    requires Preorder(le) && Sorted(le, a) && Sorted(le, b) && NoTies(le, a)
    requires a != [] && multiset(a) == multiset(b)
    ensures b != [] && a[0] == b[0]
  {
    InMultiset(a, a[0]);
    InMultiset(b, a[0]);
    SameHead(le, a, b);
  }

  /** Two sorted arrangements of the same elements agree whenever ties are equalities. */
  lemma {:induction false} SortedUnique<T(!new)>(le: (T, T) -> bool, a: seq<T>, b: seq<T>)
    requires Preorder(le) && Sorted(le, a) && Sorted(le, b) && NoTies(le, a)
    requires multiset(a) == multiset(b)
    ensures a == b
    decreases |a|
  {
    hide Sorted, Preorder, NoTies;
    if a == [] {
      assert |b| == |multiset(b)| == 0;
    } else {
      SameHeadEqual(le, a, b);
      TailMultiset(a);
      TailMultiset(b);
      SortedTail(le, a);
      SortedTail(le, b);
      NoTiesTail(le, a);
      SortedUnique(le, a[1..], b[1..]);
      assert a == [a[0]] + a[1..] && b == [b[0]] + b[1..];
    }
  }

  /** Sorting what is already sorted changes nothing. */
  lemma {:induction false} SortIsIdentityWhenSorted<T(!new)>(le: (T, T) -> bool, s: seq<T>)
    requires Preorder(le) && Sorted(le, s)
    ensures Sort(le, s) == s
  {
    if s != [] {
      SortIsIdentityWhenSorted(le, s[1..]);
      if |s| > 1 { assert le(s[0], s[1]); }
    }
  }

  // ---- Sets listed in order -----------------------------------------------------------

  predicate Distinct<T(==)>(s: seq<T>) {
    forall i, j :: 0 <= i < j < |s| ==> s[i] != s[j]
  }

  function Elements<T>(s: seq<T>): set<T> { set x | x in s }

  /** A duplicate-free list has one copy of each element. */
  lemma {:induction false} DistinctMultiset<T>(s: seq<T>, x: T)
    requires Distinct(s)
    ensures multiset(s)[x] == if x in s then 1 else 0
  {
    if s != [] {
      assert s == [s[0]] + s[1..];
      DistinctMultiset(s[1..], x);
      if x == s[0] { assert x !in s[1..]; }
    }
  }

  lemma RepeatedTwice<T>(s: seq<T>, i: nat, j: nat)
    requires i < j < |s| && s[i] == s[j]
    ensures multiset(s)[s[i]] >= 2
  {
    assert s == s[..j] + [s[j]] + s[j + 1..];
    assert s[i] == s[..j][i];
    InMultiset(s[..j], s[i]);
  }

  lemma {:induction false} DistinctSize<T>(s: seq<T>)
    requires Distinct(s)
    ensures |Elements(s)| == |s|
  {
    if s != [] {
      DistinctSize(s[1..]);
      assert s[0] !in s[1..];
      assert Elements(s) == {s[0]} + Elements(s[1..]);
    }
  }

  lemma DistinctSort<T(!new)>(le: (T, T) -> bool, s: seq<T>)
    requires Preorder(le) && Distinct(s)
    ensures Distinct(Sort(le, s)) && Elements(Sort(le, s)) == Elements(s)
  {
    SortCorrect(le, s);
    var r := Sort(le, s);
    forall x ensures x in r <==> x in s { SortMembers(le, s, x); }
    forall i, j | 0 <= i < j < |r| ensures r[i] != r[j] {
      if r[i] == r[j] {
        RepeatedTwice(r, i, j);
        DistinctMultiset(s, r[i]);
      }
    }
  }

  /** Duplicate-free lists with the same elements are permutations of each other. */
  lemma SameElementsSameMultiset<T>(a: seq<T>, b: seq<T>)
    requires Distinct(a) && Distinct(b) && Elements(a) == Elements(b)
    ensures multiset(a) == multiset(b)
  {
    forall x ensures multiset(a)[x] == multiset(b)[x] {
      DistinctMultiset(a, x);
      DistinctMultiset(b, x);
      assert x in a <==> x in Elements(a);
      assert x in b <==> x in Elements(b);
    }
  }

  /** A set has only one sorted, duplicate-free listing. */
  lemma ListingUnique(a: seq<string>, b: seq<string>)
    requires Sorted(StrLe, a) && Distinct(a) && Sorted(StrLe, b) && Distinct(b) && Elements(a) == Elements(b)
    ensures a == b
  {
    hide StrLe, Sorted, Distinct;
    StrLeIsTotalOrder();
    SameElementsSameMultiset(a, b);
    TotalOrderHasNoTies(StrLe, a);
    SortedUnique(StrLe, a, b);
  }

  lemma TotalOrderHasNoTies<T(!new)>(le: (T, T) -> bool, s: seq<T>)
    requires TotalOrder(le)
    ensures NoTies(le, s)
  {
  }

  /** The value of `sorted(set)`. */
  ghost function Listing(s: set<string>): (r: seq<string>)
    ensures Sorted(StrLe, r) && Distinct(r) && Elements(r) == s
  {
    if s == {} then []
    else
      var x :| x in s;
      StrLeIsTotalOrder();
      InsertDistinct(StrLe, x, Listing(s - {x}));
      Insert(StrLe, x, Listing(s - {x}))
  }

  /** `sorted(set)`. */
  method SortedList(s: set<string>) returns (r: seq<string>)
    ensures Sorted(StrLe, r) && Distinct(r) && Elements(r) == s && |r| == |s|
    ensures r == Listing(s)
  {
    StrLeIsTotalOrder();
    r := [];
    var todo := s;
    while todo != {}
      invariant todo <= s && Elements(r) == s - todo && Distinct(r) && Sorted(StrLe, r)
      decreases todo
    {
      var x :| x in todo;
      InsertDistinct(StrLe, x, r);
      r := Insert(StrLe, x, r);
      todo := todo - {x};
    }
    DistinctSize(r);
    ListingUnique(r, Listing(s));
  }

  lemma InsertDistinct<T(!new)>(le: (T, T) -> bool, x: T, r: seq<T>)
    requires Preorder(le) && Sorted(le, r) && Distinct(r) && x !in Elements(r)
    ensures Sorted(le, Insert(le, x, r)) && Distinct(Insert(le, x, r))
    ensures Elements(Insert(le, x, r)) == Elements(r) + {x}
  {
    InsertCorrect(le, x, r);
    var t := Insert(le, x, r);
    forall y ensures y in t <==> y in r || y == x {
      InMultiset(t, y);
      InMultiset(r, y);
    }
    forall i, j | 0 <= i < j < |t| ensures t[i] != t[j] {
      if t[i] == t[j] {
        RepeatedTwice(t, i, j);
        DistinctMultiset(r, t[i]);
      }
    }
  }

  // ---- Canonical lists: sorted, without repetition ------------------------------------

  /** First occurrences, in order of appearance. */
  function Dedup<T(==)>(s: seq<T>): seq<T> {
    if s == [] then []
    else
      var front, last := Dedup(s[..|s| - 1]), s[|s| - 1];
      if last in front then front else front + [last]
  }

  function Canonical<T(==)>(le: (T, T) -> bool, s: seq<T>): seq<T> { Sort(le, Dedup(s)) }

  lemma {:induction false} DedupCorrect<T>(s: seq<T>)
    ensures Distinct(Dedup(s)) && Elements(Dedup(s)) == Elements(s)
  {
    if s != [] {
      var front, last := s[..|s| - 1], s[|s| - 1];
      DedupCorrect(front);
      assert s == front + [last];
      assert Elements(s) == Elements(front) + {last};
      assert Elements(Dedup(s)) == Elements(Dedup(front)) + {last};
      assert last in Dedup(front) <==> last in Elements(Dedup(front));
    }
  }

  lemma {:induction false} DedupOfDistinct<T>(s: seq<T>)
    requires Distinct(s)
    ensures Dedup(s) == s
  {
    if s != [] { DedupOfDistinct(s[..|s| - 1]); }
  }

  lemma CanonicalCorrect<T(!new)>(le: (T, T) -> bool, s: seq<T>)
    requires Preorder(le)
    ensures Sorted(le, Canonical(le, s)) && Distinct(Canonical(le, s)) && Elements(Canonical(le, s)) == Elements(s)
  {
    DedupCorrect(s);
    SortCorrect(le, Dedup(s));
    DistinctSort(le, Dedup(s));
  }

  lemma CanonicalOfCanonical<T(!new)>(le: (T, T) -> bool, s: seq<T>)
    requires Preorder(le) && Sorted(le, s) && Distinct(s)
    ensures Canonical(le, s) == s
  {
    DedupOfDistinct(s);
    SortIsIdentityWhenSorted(le, s);
  }

  /** Order and repetition do not matter: the elements alone decide the canonical list. */
  lemma CanonicalUnique<T(!new)>(le: (T, T) -> bool, a: seq<T>, b: seq<T>)
    requires Preorder(le) && NoTies(le, a) && Elements(a) == Elements(b)
    ensures Canonical(le, a) == Canonical(le, b)
  {
    CanonicalCorrect(le, a);
    CanonicalCorrect(le, b);
    var ca, cb := Canonical(le, a), Canonical(le, b);
    SameElementsSameMultiset(ca, cb);
    forall x ensures x in ca <==> x in a { assert x in Elements(ca) <==> x in Elements(a); }
    SortedUnique(le, ca, cb);
  }
}
