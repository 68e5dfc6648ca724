/** Stable sorting by an order that is total but need not tell all elements apart. */
module Sorting {

  ghost predicate Orders<T>(atMost: (T, T) -> bool, s: seq<T>) {
    && (forall a, b :: a in s && b in s ==> atMost(a, b) || atMost(b, a))
    && (forall a, b, c :: a in s && b in s && c in s && atMost(a, b) && atMost(b, c) ==> atMost(a, c))
  }

  ghost predicate SortedBy<T>(atMost: (T, T) -> bool, s: seq<T>) {
    forall i, j :: 0 <= i < j < |s| ==> atMost(s[i], s[j])
  }

  function Insert<T>(atMost: (T, T) -> bool, e: T, sorted: seq<T>): (r: seq<T>)
    ensures |r| == |sorted| + 1
  {
    if sorted == [] || atMost(e, sorted[0]) then [e] + sorted
    else [sorted[0]] + Insert(atMost, e, sorted[1..])
  }

  function SortBy<T>(atMost: (T, T) -> bool, s: seq<T>): (r: seq<T>)
    ensures |r| == |s|
  {
    if s == [] then [] else Insert(atMost, s[0], SortBy(atMost, s[1..]))
  }

  /** The elements that are neither below nor above `x`, in order. */
  function Ties<T>(atMost: (T, T) -> bool, s: seq<T>, x: T): seq<T> {
    if s == [] then []
    else (if atMost(s[0], x) && atMost(x, s[0]) then [s[0]] else []) + Ties(atMost, s[1..], x)
  }

  lemma {:induction false} InsertElements<T>(atMost: (T, T) -> bool, e: T, sorted: seq<T>)
    ensures multiset(Insert(atMost, e, sorted)) == multiset{e} + multiset(sorted)
  {
    if sorted != [] && !atMost(e, sorted[0]) {
      InsertElements(atMost, e, sorted[1..]);
      assert sorted == [sorted[0]] + sorted[1..];
    }
  }

  lemma {:induction false} InsertSorted<T>(atMost: (T, T) -> bool, e: T, sorted: seq<T>)
    requires Orders(atMost, [e] + sorted) && SortedBy(atMost, sorted)
    ensures SortedBy(atMost, Insert(atMost, e, sorted))
  {
    if sorted != [] {
      assert e in [e] + sorted && sorted[0] in [e] + sorted;
      if atMost(e, sorted[0]) {
        forall k | 0 <= k < |sorted| ensures atMost(e, sorted[k]) {
          assert sorted[k] in [e] + sorted;
        }
      } else {
        var rest := Insert(atMost, e, sorted[1..]);
        assert forall x :: x in [e] + sorted[1..] ==> x in [e] + sorted;
        InsertSorted(atMost, e, sorted[1..]);
        InsertElements(atMost, e, sorted[1..]);
        forall k | 0 <= k < |rest| ensures atMost(sorted[0], rest[k]) {
          assert rest[k] in multiset(rest);
          assert rest[k] == e || rest[k] in sorted[1..];
        }
      }
    }
  }

  /** Sorted, and nothing lost. */
  lemma {:induction false} SortByKeeps<T>(atMost: (T, T) -> bool, s: seq<T>)
    requires Orders(atMost, s)
    ensures SortedBy(atMost, SortBy(atMost, s))
    ensures multiset(SortBy(atMost, s)) == multiset(s)
  {
    if s != [] {
      var sorted := SortBy(atMost, s[1..]);
      SortByKeeps(atMost, s[1..]);
      InsertElements(atMost, s[0], sorted);
      assert s == [s[0]] + s[1..];
      forall x | x in [s[0]] + sorted ensures x in s {
        assert x == s[0] || x in multiset(sorted);
      }
      InsertSorted(atMost, s[0], sorted);
    }
  }

  lemma {:induction false} InsertStable<T>(atMost: (T, T) -> bool, e: T, sorted: seq<T>, x: T)
    requires Orders(atMost, [x, e] + sorted)
    ensures Ties(atMost, Insert(atMost, e, sorted), x) == Ties(atMost, [e] + sorted, x)
  {
    assert ([e] + sorted)[1..] == sorted;
    if sorted != [] && !atMost(e, sorted[0]) {
      assert forall y :: y in [x, e] + sorted[1..] ==> y in [x, e] + sorted;
      InsertStable(atMost, e, sorted[1..], x);
      assert ([e] + sorted[1..])[1..] == sorted[1..];
      assert x in [x, e] + sorted && e in [x, e] + sorted && sorted[0] in [x, e] + sorted;
    }
  }

  /** Elements that tie stay in the order they came in. */
  lemma {:induction false} SortByStable<T>(atMost: (T, T) -> bool, s: seq<T>, x: T)
    requires Orders(atMost, [x] + s)
    ensures Ties(atMost, SortBy(atMost, s), x) == Ties(atMost, s, x)
  {
    if s != [] {
      var sorted := SortBy(atMost, s[1..]);
      assert forall y :: y in [x] + s[1..] ==> y in [x] + s;
      assert forall y :: y in s[1..] ==> y in [x] + s;
      SortByKeeps(atMost, s[1..]);
      SortByStable(atMost, s[1..], x);
      forall y | y in [x, s[0]] + sorted ensures y in [x] + s {
        assert y == x || y == s[0] || y in multiset(sorted);
      }
      InsertStable(atMost, s[0], sorted, x);
      assert ([s[0]] + sorted)[1..] == sorted;
    }
  }
}
