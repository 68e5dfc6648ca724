/** The result types and the elementary counting facts the other modules share. */
module Wrappers {

  datatype Option<+T> = None | Some(value: T)

  /** True iff no element occurs twice in `s`. */
  ghost predicate Distinct<T>(s: seq<T>) {
    forall i, j :: 0 <= i < j < |s| ==> s[i] != s[j]
  }

  /** The numbers below `n`. */
  function Below(n: nat): (r: set<nat>)
    ensures forall i :: i in r <==> 0 <= i < n
  {
    if n == 0 then {} else Below(n - 1) + {n - 1}
  }

  lemma BelowSize(n: nat)
    ensures |Below(n)| == n
  {
    if n > 0 {
      BelowSize(n - 1);
      assert Below(n) == Below(n - 1) + {n - 1};
    }
  }

  function Elements<T(!new)>(s: seq<T>): (r: set<T>)
    ensures forall x :: x in r <==> x in s
  {
    set x | x in s
  }

  lemma DistinctSize<T(!new)>(s: seq<T>)
    requires Distinct(s)
    ensures |Elements(s)| == |s|
  {
    if s == [] {
      assert Elements(s) == {};
    } else {
      var last := |s| - 1;
      DistinctSize(s[..last]);
      assert s == s[..last] + [s[last]];
      assert Elements(s) == Elements(s[..last]) + {s[last]};
    }
  }

  lemma SubsetSize<T>(a: set<T>, b: set<T>)
    requires a <= b
    ensures |a| <= |b|
    ensures |a| == |b| ==> a == b
  {
    assert b == a + (b - a);
  }

  /** `n` distinct numbers below `n` are all of them: the step from a count to a set. */
  lemma Pigeonhole(s: seq<nat>, n: nat)
    requires Distinct(s)
    requires forall x :: x in s ==> x < n
    ensures |s| <= n
    ensures |s| == n ==> forall i: nat :: i < n ==> i in s
  {
    DistinctSize(s);
    BelowSize(n);
    SubsetSize(Elements(s), Below(n));
    if |s| == n {
      forall i: nat | i < n ensures i in s {
        assert i in Below(n);
      }
    }
  }

  /** A sequence holding every number below `n` is at least that long. */
  lemma CoversBelow(s: seq<nat>, n: nat)
    requires Distinct(s)
    requires forall i: nat :: i < n ==> i in s
    ensures |s| >= n
  {
    DistinctSize(s);
    BelowSize(n);
    SubsetSize(Below(n), Elements(s));
  }
}
