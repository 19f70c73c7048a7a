/** The orderings the routes ask the database for (`.sort({ field: 1 })`,
    `.sort({ field: -1 })`) and the filters they query by. Records are
    listed in creation order, which is ascending id order; a sort is a
    stable insertion sort of that listing, so records that tie on the sort
    key keep their creation order. */
module Ordering {
  import opened Outcomes

  /** `leq` is total and transitive: a sort key order. */
  ghost predicate TotalPreorder<T(!new)>(leq: (T, T) -> bool) {
    (forall a, b :: leq(a, b) || leq(b, a))
    && (forall a, b, c :: leq(a, b) && leq(b, c) ==> leq(a, c))
  }

  /** Every earlier element is `leq` every later one. */
  ghost predicate Sorted<T>(s: seq<T>, leq: (T, T) -> bool) {
    forall i, j :: 0 <= i < j < |s| ==> leq(s[i], s[j])
  }

  /** Inserts `x` before the first element it is `leq` to. */
  function Insert<T>(x: T, s: seq<T>, leq: (T, T) -> bool): (r: seq<T>)
    ensures multiset(r) == multiset(s) + multiset{x}
    ensures |r| == |s| + 1
  {
    if s == [] then [x]
    else if leq(x, s[0]) then [x] + s
    else
      assert s == [s[0]] + s[1..];
      [s[0]] + Insert(x, s[1..], leq)
  }

  /** Insertion sort: each element is inserted into the sorted rest. */
  function SortBy<T>(s: seq<T>, leq: (T, T) -> bool): (r: seq<T>)
    ensures multiset(r) == multiset(s)
    ensures |r| == |s|
  {
    if s == [] then []
    else
      assert s == [s[0]] + s[1..];
      Insert(s[0], SortBy(s[1..], leq), leq)
  }

  lemma {:induction false} InsertSorted<T(!new)>(x: T, s: seq<T>, leq: (T, T) -> bool)
    requires TotalPreorder(leq) && Sorted(s, leq)
    ensures Sorted(Insert(x, s, leq), leq)
  {
    if s != [] {
      if leq(x, s[0]) {
        assert forall k :: 0 <= k < |s| ==> leq(s[0], s[k]) || k == 0;
        ConsSorted(x, s, leq);
      } else {
        var rest := Insert(x, s[1..], leq);
        InsertSorted(x, s[1..], leq);
        assert forall k :: 0 <= k < |s[1..]| ==> s[1..][k] == s[k + 1];
        InsertBounded(s[0], x, s[1..], leq);
        ConsSorted(s[0], rest, leq);
      }
    }
  }

  /** An element below `x` and below all of `s` is below all of
      `Insert(x, s)`. */
  lemma InsertBounded<T>(b: T, x: T, s: seq<T>, leq: (T, T) -> bool)
    requires leq(b, x) && forall k :: 0 <= k < |s| ==> leq(b, s[k])
    ensures var r := Insert(x, s, leq);
      forall k :: 0 <= k < |r| ==> leq(b, r[k])
  {
    var r := Insert(x, s, leq);
    forall k | 0 <= k < |r|
      ensures leq(b, r[k])
    {
      assert r[k] in multiset(r);
      if r[k] != x {
        assert r[k] in multiset(s);
        var m :| 0 <= m < |s| && s[m] == r[k];
      }
    }
  }

  /** Putting an element below the head of a sorted sequence in front of
      it keeps it sorted. */
  lemma ConsSorted<T(!new)>(b: T, s: seq<T>, leq: (T, T) -> bool)
    requires TotalPreorder(leq) && Sorted(s, leq)
    requires s != [] ==> leq(b, s[0])
    ensures Sorted([b] + s, leq)
  {
    var r := [b] + s;
    forall i, j | 0 <= i < j < |r|
      ensures leq(r[i], r[j])
    {
      if i == 0 {
        assert r[j] == s[j - 1];
        if j > 1 {
          assert leq(s[0], s[j - 1]);
        }
      } else {
        assert r[i] == s[i - 1] && r[j] == s[j - 1];
      }
    }
  }

  /** With a sort key order, the result of `SortBy` is sorted, and it is a
      permutation of the input (by `SortBy`'s own contract). */
  lemma {:induction false} SortBySorted<T(!new)>(s: seq<T>, leq: (T, T) -> bool)
    requires TotalPreorder(leq)
    ensures Sorted(SortBy(s, leq), leq)
  {
    if s != [] {
      SortBySorted(s[1..], leq);
      InsertSorted(s[0], SortBy(s[1..], leq), leq);
    }
  }

  /** `find({ ... })`: the elements that satisfy `keep`, in their order. */
  function Select<T(!new)>(s: seq<T>, keep: T -> bool): (r: seq<T>)
    ensures forall y :: y in r <==> y in s && keep(y)
    ensures |r| <= |s|
  {
    if s == [] then []
    else
      var rest := Select(s[1..], keep);
      assert forall y :: y in s <==> y == s[0] || y in s[1..];
      if keep(s[0]) then [s[0]] + rest else rest
  }

  /** Filters that agree on every element select the same elements. */
  lemma {:induction false} SelectAgree<T(!new)>(s: seq<T>, keep1: T -> bool, keep2: T -> bool)
    requires forall k :: 0 <= k < |s| ==> keep1(s[k]) == keep2(s[k])
    ensures Select(s, keep1) == Select(s, keep2)
  {
    if s != [] {
      SelectAgree(s[1..], keep1, keep2);
    }
  }

  /** Comparisons that agree on the elements sort them alike. */
  lemma {:induction false} InsertAgree<T>(x: T, s: seq<T>, leq1: (T, T) -> bool, leq2: (T, T) -> bool)
    requires forall k :: 0 <= k < |s| ==> leq1(x, s[k]) == leq2(x, s[k])
    ensures Insert(x, s, leq1) == Insert(x, s, leq2)
  {
    if s != [] && !leq1(x, s[0]) {
      InsertAgree(x, s[1..], leq1, leq2);
    }
  }

  lemma {:induction false} SortByAgree<T>(s: seq<T>, leq1: (T, T) -> bool, leq2: (T, T) -> bool)
    requires forall i, j :: 0 <= i < |s| && 0 <= j < |s| ==> leq1(s[i], s[j]) == leq2(s[i], s[j])
    ensures SortBy(s, leq1) == SortBy(s, leq2)
  {
    if s != [] {
      SortByAgree(s[1..], leq1, leq2);
      var rest := SortBy(s[1..], leq1);
      forall k | 0 <= k < |rest|
        ensures leq1(s[0], rest[k]) == leq2(s[0], rest[k])
      {
        assert rest[k] in multiset(SortBy(s[1..], leq1));
        var m :| 0 <= m < |s[1..]| && s[1..][m] == rest[k];
        assert s[m + 1] == rest[k];
      }
      InsertAgree(s[0], rest, leq1, leq2);
    }
  }

  /** Strictly ascending numbers (so also free of duplicates). */
  ghost predicate Increasing(s: seq<nat>) {
    forall i, j :: 0 <= i < j < |s| ==> s[i] < s[j]
  }

  /** Strictly descending numbers. */
  ghost predicate Decreasing(s: seq<nat>) {
    forall i, j :: 0 <= i < j < |s| ==> s[i] > s[j]
  }

  /** An element of an ascending sequence occurs in it exactly once. */
  lemma {:induction false} IncreasingCountsOnce(s: seq<nat>, x: nat)
    requires Increasing(s) && x in s
    ensures multiset(s)[x] == 1
  {
    assert s == [s[0]] + s[1..];
    assert multiset(s) == multiset{s[0]} + multiset(s[1..]);
    if s[0] == x {
      assert forall k :: 0 <= k < |s[1..]| ==> s[1..][k] == s[k + 1] != x;
    } else {
      assert Increasing(s[1..]);
      IncreasingCountsOnce(s[1..], x);
    }
  }

  /** An element at two positions occurs at least twice. */
  lemma RepeatCountsTwice<T>(s: seq<T>, i: int, j: int)
    requires 0 <= i < j < |s| && s[i] == s[j]
    ensures multiset(s)[s[i]] >= 2
  {
    var front, back := s[..j], s[j..];
    assert s == front + back;
    assert front[i] == s[i] && back[0] == s[i];
    assert s[i] in multiset(front) && s[i] in multiset(back);
  }

  /** Selecting from an ascending sequence keeps it ascending. */
  lemma {:induction false} SelectIncreasing(s: seq<nat>, keep: nat -> bool)
    requires Increasing(s)
    ensures Increasing(Select(s, keep))
  {
    if s != [] {
      SelectIncreasing(s[1..], keep);
      var rest := Select(s[1..], keep);
      if keep(s[0]) {
        forall j | 0 <= j < |rest|
          ensures s[0] < rest[j]
        {
          assert rest[j] in rest;
          var k :| 0 <= k < |s[1..]| && s[1..][k] == rest[j];
          assert s[k + 1] == rest[j];
        }
        var r := [s[0]] + rest;
        forall i, j | 0 <= i < j < |r|
          ensures r[i] < r[j]
        {
          if i > 0 {
            assert r[i] == rest[i - 1] && r[j] == rest[j - 1];
          } else {
            assert r[j] == rest[j - 1];
          }
        }
      }
    }
  }

  /** Turning the filter on for one more element, which occurs once,
      selects exactly one more element. */
  lemma {:induction false} SelectOneMore(s: seq<nat>, keep1: nat -> bool, keep2: nat -> bool, x: nat)
    requires Increasing(s) && x in s
    requires !keep1(x) && keep2(x)
    requires forall k :: 0 <= k < |s| && s[k] != x ==> keep1(s[k]) == keep2(s[k])
    ensures |Select(s, keep2)| == |Select(s, keep1)| + 1
  {
    if s[0] == x {
      forall k | 0 <= k < |s[1..]|
        ensures keep1(s[1..][k]) == keep2(s[1..][k])
      {
        assert s[1..][k] == s[k + 1] && s[0] < s[k + 1];
      }
      SelectAgree(s[1..], keep1, keep2);
    } else {
      assert Increasing(s[1..]);
      SelectOneMore(s[1..], keep1, keep2, x);
    }
  }

  /** Nothing is selected when the filter holds of no element. */
  lemma SelectNone<T(!new)>(s: seq<T>, keep: T -> bool)
    requires forall k :: 0 <= k < |s| ==> !keep(s[k])
    ensures Select(s, keep) == []
  {
    var r := Select(s, keep);
    assert forall y :: y !in r;
  }

  /** The members of `ids` below `bound`, ascending: the creation-order
      listing of a collection whose ids are all below `bound`. */
  function IdsBelow(ids: set<nat>, bound: nat): (r: seq<nat>)
    ensures forall x :: x in r <==> x in ids && x < bound
    ensures forall k :: 0 <= k < |r| ==> r[k] < bound
  {
    if bound == 0 then []
    else IdsBelow(ids, bound - 1) + (if bound - 1 in ids then [bound - 1] else [])
  }

  lemma {:induction false} IdsBelowIncreasing(ids: set<nat>, bound: nat)
    ensures Increasing(IdsBelow(ids, bound))
  {
    if bound > 0 {
      IdsBelowIncreasing(ids, bound - 1);
    }
  }

  /** Selecting from a concatenation selects from each part. */
  lemma {:induction false} SelectAppend<T(!new)>(s: seq<T>, t: seq<T>, keep: T -> bool)
    ensures Select(s + t, keep) == Select(s, keep) + Select(t, keep)
  {
    if s != [] {
      assert (s + t)[0] == s[0] && (s + t)[1..] == s[1..] + t;
      SelectAppend(s[1..], t, keep);
    } else {
      assert s + t == t;
    }
  }

  /** Id sets that agree below `bound` list the same ids below it. */
  /** Selecting from a sequence extended by a kept element, with a filter
      that agrees on the old elements. */
  lemma SelectExtendTop<T(!new)>(s: seq<T>, x: T, keep1: T -> bool, keep2: T -> bool)
    requires keep2(x) && forall k :: 0 <= k < |s| ==> keep1(s[k]) == keep2(s[k])
    ensures Select(s + [x], keep2) == Select(s, keep1) + [x]
  {
    SelectAppend(s, [x], keep2);
    assert Select([x], keep2) == [x];
    SelectAgree(s, keep2, keep1);
  }

  lemma {:induction false} IdsBelowSame(ids1: set<nat>, ids2: set<nat>, bound: nat)
    requires forall x :: x < bound ==> (x in ids1 <==> x in ids2)
    ensures IdsBelow(ids1, bound) == IdsBelow(ids2, bound)
  {
    if bound > 0 {
      IdsBelowSame(ids1, ids2, bound - 1);
    }
  }

  /** Adding the id `bound` to a set of ids below it appends it to the
      listing: a record created last is listed last. */
  lemma IdsBelowAddTop(ids: set<nat>, bound: nat)
    requires forall x :: x in ids ==> x < bound
    ensures IdsBelow(ids + {bound}, bound + 1) == IdsBelow(ids, bound) + [bound]
  {
    IdsBelowSame(ids + {bound}, ids, bound);
  }

  /** The reverse of a sequence: newest first. */
  function Reverse<T>(s: seq<T>): (r: seq<T>)
    ensures |r| == |s|
    ensures forall k :: 0 <= k < |s| ==> r[k] == s[|s| - 1 - k]
  {
    if s == [] then [] else Reverse(s[1..]) + [s[0]]
  }

  /** Reversing keeps the same elements, each as often. */
  lemma {:induction false} ReverseMultiset<T>(s: seq<T>)
    ensures multiset(Reverse(s)) == multiset(s)
  {
    if s != [] {
      ReverseMultiset(s[1..]);
      assert s == [s[0]] + s[1..];
    }
  }

  /** Reversing a sequence with one more element last puts it first. */
  lemma ReverseAppendOne<T>(s: seq<T>, x: T)
    ensures Reverse(s + [x]) == [x] + Reverse(s)
  {
    var r := Reverse(s + [x]);
    assert r[0] == x;
    forall k | 1 <= k < |r|
      ensures r[k] == Reverse(s)[k - 1]
    {
      assert (s + [x])[|s| - k] == s[|s| - 1 - (k - 1)];
    }
  }

  lemma ReverseIncreasing(s: seq<nat>)
    requires Increasing(s)
    ensures Decreasing(Reverse(s))
    ensures forall x :: x in Reverse(s) <==> x in s
  {
    var r := Reverse(s);
    forall x | x in s
      ensures x in r
    {
      var k :| 0 <= k < |s| && s[k] == x;
      assert r[|s| - 1 - k] == x;
    }
  }

  /** Ascending order of nullable numbers, with null first, as the
      database orders a missing value before every number. */
  predicate NullFirstLeq(a: Option<int>, b: Option<int>) {
    a.None? || (b.Some? && a.value <= b.value)
  }

  /** Code-point order on strings (binary string comparison). */
  predicate StringLeq(a: string, b: string) {
    if a == [] then true
    else if b == [] then false
    else if a[0] != b[0] then a[0] < b[0]
    else StringLeq(a[1..], b[1..])
  }

  lemma {:induction false} StringLeqTotal(a: string, b: string)
    ensures StringLeq(a, b) || StringLeq(b, a)
  {
    if a != [] && b != [] && a[0] == b[0] {
      StringLeqTotal(a[1..], b[1..]);
    }
  }

  lemma {:induction false} StringLeqTransitive(a: string, b: string, c: string)
    requires StringLeq(a, b) && StringLeq(b, c)
    ensures StringLeq(a, c)
  {
    if a != [] && b != [] && c != [] && a[0] == b[0] && b[0] == c[0] {
      StringLeqTransitive(a[1..], b[1..], c[1..]);
    }
  }

  /** Strings compared equal in both directions are equal. */
  lemma {:induction false} StringLeqAntisymmetric(a: string, b: string)
    requires StringLeq(a, b) && StringLeq(b, a)
    ensures a == b
  {
    if a != [] && b != [] {
      StringLeqAntisymmetric(a[1..], b[1..]);
      assert a == [a[0]] + a[1..] && b == [b[0]] + b[1..];
    }
  }
}
