/** A table sorted by a key, cut into one contiguous range per identifier. */
module Partitions {
  ghost predicate Increasing(ids: seq<nat>) {
    forall i, j :: 0 <= i < j < |ids| ==> ids[i] < ids[j]
  }

  lemma {:induction false} IncreasingFrom(ids: seq<nat>, i: nat, j: nat)
    requires (forall k: nat :: StepUp(ids, k)) && i < j < |ids|
    ensures ids[i] < ids[j]
    decreases j
  {
    assert StepUp(ids, j);
    if i < j - 1 { IncreasingFrom(ids, i, j - 1); }
  }

  predicate StepUp(ids: seq<nat>, k: nat) {
    0 < k < |ids| ==> ids[k - 1] < ids[k]
  }

  lemma StepsIncrease(ids: seq<nat>)
    requires forall k: nat :: StepUp(ids, k)
    ensures Increasing(ids)
  {
    forall i, j | 0 <= i < j < |ids| ensures ids[i] < ids[j] { IncreasingFrom(ids, i, j); }
  }

  ghost predicate NonDecreasing(keys: seq<nat>) {
    forall i, j :: 0 <= i < j < |keys| ==> keys[i] <= keys[j]
  }

  datatype Range = Range(start: nat, count: nat)

  function End(r: Range): nat {
    r.start + r.count
  }

  /** Range `i` starts where range `i - 1` ends. */
  predicate StartsAt(ranges: seq<Range>, i: nat)
    requires i < |ranges|
  {
    ranges[i].start == if i == 0 then 0 else End(ranges[i - 1])
  }

  function LastEnd(ranges: seq<Range>): nat {
    if ranges == [] then 0 else End(ranges[|ranges| - 1])
  }

  ghost predicate Holds(keys: seq<nat>, r: Range, id: nat) {
    End(r) <= |keys| && forall j :: r.start <= j < End(r) ==> keys[j] == id
  }

  ghost predicate RangeFits(ids: seq<nat>, ranges: seq<Range>, keys: seq<nat>, i: nat)
    requires i < |ids| == |ranges|
  {
    StartsAt(ranges, i) && Holds(keys, ranges[i], ids[i])
  }

  /** The ranges tile the table, and range `i` holds exactly the entries of identifier `i`. */
  ghost predicate Partition(ids: seq<nat>, ranges: seq<Range>, keys: seq<nat>) {
    && |ranges| == |ids|
    && (forall i: nat :: i < |ids| ==> RangeFits(ids, ranges, keys, i))
    && LastEnd(ranges) == |keys|
  }

  /** How many entries have a key below `x`. */
  function Lower(keys: seq<nat>, x: nat): (n: nat)
    ensures n <= |keys|
  {
    if keys == [] then 0 else Lower(keys[..|keys| - 1], x) + if keys[|keys| - 1] < x then 1 else 0
  }

  /** In a table cut at `n`, the count of smaller keys is `n`. */
  lemma {:induction false} LowerIs(keys: seq<nat>, x: nat, n: nat)
    requires n <= |keys| && (forall j :: 0 <= j < n ==> keys[j] < x) && (forall j :: n <= j < |keys| ==> keys[j] >= x)
    ensures Lower(keys, x) == n
    decreases |keys|
  {
    if keys != [] {
      var front := keys[..|keys| - 1];
      LowerIs(front, x, if n == |keys| then n - 1 else n);
    }
  }

  lemma {:induction false} LowerCuts(keys: seq<nat>, x: nat, j: nat)
    requires NonDecreasing(keys) && j < |keys|
    ensures keys[j] < x <==> j < Lower(keys, x)
    decreases |keys|
  {
    var front, last := keys[..|keys| - 1], keys[|keys| - 1];
    if j < |front| { LowerCuts(front, x, j); }
    if last < x {
      AllBelow(front, x);
    }
  }

  lemma {:induction false} AllBelow(keys: seq<nat>, x: nat)
    requires forall j :: 0 <= j < |keys| ==> keys[j] < x
    ensures Lower(keys, x) == |keys|
    decreases |keys|
  {
    if keys != [] { AllBelow(keys[..|keys| - 1], x); }
  }

  /** The range of an identifier in a sorted table. */
  function RangeOf(keys: seq<nat>, id: nat): Range {
    LowerGrows(keys, id, id + 1);
    Range(Lower(keys, id), Lower(keys, id + 1) - Lower(keys, id))
  }

  lemma {:induction false} LowerGrows(keys: seq<nat>, x: nat, y: nat)
    requires x <= y
    ensures Lower(keys, x) <= Lower(keys, y)
    decreases |keys|
  {
    if keys != [] { LowerGrows(keys[..|keys| - 1], x, y); }
  }

  // ------------------------------------------------- from ranges to a sorted table

  lemma {:induction false} BeforeRange(ids: seq<nat>, ranges: seq<Range>, keys: seq<nat>, i: nat, j: nat)
    requires Increasing(ids) && Partition(ids, ranges, keys) && i < |ids| && j < ranges[i].start
    ensures j < |keys| && keys[j] < ids[i]
    decreases i
  {
    assert RangeFits(ids, ranges, keys, i);
    if i > 0 {
      assert RangeFits(ids, ranges, keys, i - 1);
      if j < ranges[i - 1].start { BeforeRange(ids, ranges, keys, i - 1, j); }
    }
  }

  lemma {:induction false} FromRange(ids: seq<nat>, ranges: seq<Range>, keys: seq<nat>, i: nat, j: nat)
    requires Increasing(ids) && Partition(ids, ranges, keys) && i < |ids| && ranges[i].start <= j < |keys|
    ensures keys[j] >= ids[i] && (j >= End(ranges[i]) ==> keys[j] > ids[i]) && keys[j] in ids
    decreases |ids| - i
  {
    assert RangeFits(ids, ranges, keys, i);
    if j >= End(ranges[i]) {
      assert i + 1 < |ids|;
      assert RangeFits(ids, ranges, keys, i + 1);
      FromRange(ids, ranges, keys, i + 1, j);
    }
  }

  /** The ranges of a partition are the ranges of the identifiers. */
  lemma PartitionRanges(ids: seq<nat>, ranges: seq<Range>, keys: seq<nat>, i: nat)
    requires Increasing(ids) && Partition(ids, ranges, keys) && i < |ids|
    ensures ranges[i] == RangeOf(keys, ids[i])
  {
    var r := ranges[i];
    assert RangeFits(ids, ranges, keys, i);
    forall j | 0 <= j < |keys| ensures (j < r.start ==> keys[j] < ids[i]) && (j >= r.start ==> keys[j] >= ids[i])
      ensures (j < End(r) ==> keys[j] < ids[i] + 1) && (j >= End(r) ==> keys[j] >= ids[i] + 1)
    {
      if j < r.start { BeforeRange(ids, ranges, keys, i, j); } else { FromRange(ids, ranges, keys, i, j); }
    }
    LowerIs(keys, ids[i], r.start);
    LowerIs(keys, ids[i] + 1, End(r));
  }

  lemma {:induction false} RangeOfKey(ids: seq<nat>, ranges: seq<Range>, keys: seq<nat>, j: nat, n: nat) returns (i: nat)
    requires Partition(ids, ranges, keys) && n <= |ids| && j < (if n == 0 then 0 else End(ranges[n - 1]))
    ensures i < n && ranges[i].start <= j < End(ranges[i])
    decreases n
  {
    assert RangeFits(ids, ranges, keys, n - 1);
    if j >= ranges[n - 1].start {
      i := n - 1;
    } else {
      i := RangeOfKey(ids, ranges, keys, j, n - 1);
    }
  }

  /** A partitioned table is sorted, and its keys are identifiers. */
  lemma PartitionSorted(ids: seq<nat>, ranges: seq<Range>, keys: seq<nat>)
    requires Increasing(ids) && Partition(ids, ranges, keys)
    ensures NonDecreasing(keys) && forall j :: 0 <= j < |keys| ==> keys[j] in ids
  {
    forall j | 0 <= j < |keys| ensures keys[j] in ids {
      var i := RangeOfKey(ids, ranges, keys, j, |ids|);
      assert RangeFits(ids, ranges, keys, i);
    }
    forall j, k | 0 <= j < k < |keys| ensures keys[j] <= keys[k] {
      var i := RangeOfKey(ids, ranges, keys, j, |ids|);
      assert RangeFits(ids, ranges, keys, i);
      FromRange(ids, ranges, keys, i, k);
    }
  }

  predicate Contains(r: Range, j: nat) {
    r.start <= j < End(r)
  }

  /** Entry `j` lies in the range of identifier `i` and in no other. */
  ghost predicate OnlyIn(ranges: seq<Range>, i: nat, j: nat) {
    forall k :: 0 <= k < |ranges| ==> (Contains(ranges[k], j) <==> k == i)
  }

  /** Entry `j` lies in exactly one range, that of its own key. */
  ghost predicate InOneRange(ids: seq<nat>, ranges: seq<Range>, keys: seq<nat>, j: nat)
    requires j < |keys|
  {
    exists i: nat :: i < |ids| && ids[i] == keys[j] && OnlyIn(ranges, i, j)
  }

  lemma PartitionAssigns(ids: seq<nat>, ranges: seq<Range>, keys: seq<nat>, j: nat)
    requires Increasing(ids) && Partition(ids, ranges, keys) && j < |keys|
    ensures InOneRange(ids, ranges, keys, j)
  {
    var i := RangeOfKey(ids, ranges, keys, j, |ids|);
    forall k: nat | k < |ranges| && Contains(ranges[k], j) ensures ids[k] == keys[j] { assert RangeFits(ids, ranges, keys, k); }
    assert Contains(ranges[i], j);
    assert OnlyIn(ranges, i, j);
  }

  // ------------------------------------------------- from a sorted table to ranges

  function Ranges(ids: seq<nat>, keys: seq<nat>): (r: seq<Range>)
    ensures |r| == |ids| && forall i :: 0 <= i < |ids| ==> r[i] == RangeOf(keys, ids[i])
  {
    seq(|ids|, i requires 0 <= i < |ids| => RangeOf(keys, ids[i]))
  }

  lemma RangeHolds(keys: seq<nat>, id: nat)
    requires NonDecreasing(keys)
    ensures Holds(keys, RangeOf(keys, id), id)
  {
    var r := RangeOf(keys, id);
    forall j | r.start <= j < End(r) ensures keys[j] == id {
      LowerCuts(keys, id, j);
      LowerCuts(keys, id + 1, j);
    }
  }

  /** No key lies strictly between `x` and `y`. */
  lemma LowerSame(keys: seq<nat>, x: nat, y: nat)
    requires NonDecreasing(keys) && x <= y && forall j :: 0 <= j < |keys| ==> keys[j] < x || keys[j] >= y
    ensures Lower(keys, x) == Lower(keys, y)
  {
    forall j | 0 <= j < |keys| ensures j < Lower(keys, x) <==> keys[j] < y { LowerCuts(keys, x, j); }
    LowerIs(keys, y, Lower(keys, x));
  }

  /** A sorted table whose keys are identifiers is partitioned by their ranges. */
  lemma SortedPartitions(ids: seq<nat>, keys: seq<nat>)
    requires Increasing(ids) && NonDecreasing(keys) && forall j :: 0 <= j < |keys| ==> keys[j] in ids
    ensures Partition(ids, Ranges(ids, keys), keys)
  {
    var ranges := Ranges(ids, keys);
    forall i: nat | i < |ids| ensures RangeFits(ids, ranges, keys, i) {
      RangeHolds(keys, ids[i]);
      Adjacent(ids, keys, i);
    }
    if ids != [] {
      forall j | 0 <= j < |keys| ensures keys[j] < ids[|ids| - 1] + 1 {
        var i :| 0 <= i < |ids| && ids[i] == keys[j];
      }
      AllBelow(keys, ids[|ids| - 1] + 1);
    }
  }

  lemma Adjacent(ids: seq<nat>, keys: seq<nat>, i: nat)
    requires Increasing(ids) && NonDecreasing(keys) && i < |ids| && forall j :: 0 <= j < |keys| ==> keys[j] in ids
    ensures Lower(keys, ids[i]) == if i == 0 then 0 else Lower(keys, ids[i - 1] + 1)
  {
    forall j | 0 <= j < |keys| ensures (i == 0 ==> keys[j] >= ids[i])
      ensures i > 0 ==> keys[j] < ids[i - 1] + 1 || keys[j] >= ids[i]
    {
      var k :| 0 <= k < |ids| && ids[k] == keys[j];
    }
    if i == 0 { LowerIs(keys, ids[i], 0); } else { LowerSame(keys, ids[i - 1] + 1, ids[i]); }
  }
}
