/** Counting facts about sets and sequences of natural numbers. */
module Counting {
  function Elements(xs: seq<nat>): set<nat> {
    set x | x in xs
  }

  predicate AllDistinct(xs: seq<nat>) {
    forall i, j :: 0 <= i < j < |xs| ==> xs[i] != xs[j]
  }

  lemma {:induction false} DistinctCount(xs: seq<nat>)
    requires AllDistinct(xs)
    ensures |Elements(xs)| == |xs|
  {
    if xs == [] {
      assert Elements(xs) == {};
    } else {
      var front, last := xs[..|xs| - 1], xs[|xs| - 1];
      DistinctCount(front);
      assert last !in front;
      assert Elements(xs) == Elements(front) + {last};
    }
  }

  lemma {:induction false} BoundedCount(s: set<nat>, n: nat)
    requires forall p :: p in s ==> p < n
    ensures |s| <= n
  {
    if n == 0 {
      assert s == {};
    } else if n - 1 in s {
      BoundedCount(s - {n - 1}, n - 1);
    } else {
      BoundedCount(s, n - 1);
    }
  }

  /** A set of n numbers below n is all of them. */
  lemma {:induction false} SubsetOfRange(s: set<nat>, n: nat)
    requires forall p :: p in s ==> p < n
    requires |s| == n
    ensures forall p: nat :: p < n ==> p in s
  {
    if n > 0 {
      if n - 1 in s {
        SubsetOfRange(s - {n - 1}, n - 1);
      } else {
        BoundedCount(s, n - 1);
      }
    }
  }

  lemma FillsRange(a: set<nat>, b: set<nat>, n: nat)
    requires a !! b && |a| + |b| == n && forall p :: p in a || p in b ==> p < n
    ensures forall p: nat :: p < n ==> p in a || p in b
  {
    assert |a + b| == |a| + |b|;
    SubsetOfRange(a + b, n);
  }

  /** Distinct numbers below n: at most n, and if n then all. */
  lemma DistinctFits(xs: seq<nat>, n: nat)
    requires AllDistinct(xs) && forall x :: x in xs ==> x < n
    ensures |xs| <= n
    ensures |xs| == n ==> forall p: nat :: p < n ==> p in xs
  {
    DistinctCount(xs);
    BoundedCount(Elements(xs), n);
    if |xs| == n {
      SubsetOfRange(Elements(xs), n);
      forall p: nat | p < n ensures p in xs { assert p in Elements(xs); }
    }
  }

  lemma Pigeonhole(xs: seq<nat>, n: nat) returns (i: nat, j: nat)
    requires |xs| > n && forall x :: x in xs ==> x < n
    ensures i < j < |xs| && xs[i] == xs[j]
  {
    if AllDistinct(xs) { DistinctFits(xs, n); }
    i, j :| 0 <= i < j < |xs| && xs[i] == xs[j];
  }

  ghost function Below(n: nat): (r: set<nat>)
    ensures forall i: nat :: i in r <==> i < n
    ensures |r| == n
  {
    if n == 0 then {} else Below(n - 1) + {n - 1}
  }

  lemma SubsetCount(a: set<nat>, b: set<nat>)
    requires a <= b
    ensures |a| <= |b|
  {
    assert b == a + (b - a);
  }

  /** Fewer than n distinct numbers miss one below n. */
  lemma Missing(xs: seq<nat>, n: nat) returns (v: nat)
    requires AllDistinct(xs) && |xs| < n
    ensures v < n && v !in xs
  {
    DistinctCount(xs);
    if Below(n) <= Elements(xs) { SubsetCount(Below(n), Elements(xs)); }
    v :| v in Below(n) && v !in Elements(xs);
  }

  lemma DistinctAppend(xs: seq<nat>, x: nat)
    requires AllDistinct(xs) && x !in xs
    ensures AllDistinct(xs + [x])
  {
  }
}
