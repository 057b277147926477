/** Ring positions are unbounded counts seen through 16-bit indices and a power-of-two ring. */
module Wrap {
  import opened Bytes
  import opened Channel
  import opened Endpoint

  function Index16(n: nat): u16 {
    n % U16
  }

  lemma NextIndex(n: nat)
    ensures Next16(Index16(n)) == Index16(n + 1)
  {
  }

  lemma PreviousIndex(n: nat)
    requires n > 0
    ensures Previous16(Index16(n)) == Index16(n - 1)
  {
    NextIndex(n - 1);
  }

  /** The 16-bit difference of two counts less than 65536 apart is their difference. */
  lemma DistanceIsExact(a: nat, b: nat)
    requires b <= a < b + U16
    ensures Minus16(Index16(a), Index16(b)) == a - b
  {
  }

  /** The count an index stands for: the next one from `count` on that has this index. */
  lemma IndexStandsFor(count: nat, index: u16)
    ensures Index16(count + Minus16(index, Index16(count))) == index
  {
  }

  /** The last count a peer may have reached: no further than the chains outstanding, and for the driver no further than
      what it published. */
  function Limit(q: Queue, side: Side, produced: nat, consumed: nat): nat {
    if side.Driver? && produced < consumed + q.maxOutstanding then produced else consumed + q.maxOutstanding
  }

  /** What the peer's index means, in true counts: nothing new at the count consumed, something up to the limit, a fault
      everywhere else. */
  lemma PendingExactly(q: Queue, side: Side, e: State, produced: nat, consumed: nat, index: u16)
    requires q.maxOutstanding < U16 && e.produced == Index16(produced) && e.consumed == Index16(consumed)
    requires side.Driver? ==> consumed <= produced < consumed + U16
    ensures Pending(q, side, e, index).NothingPending? <==> index == Index16(consumed)
    ensures Pending(q, side, e, index).Ok? <==>
              exists n: nat :: consumed < n <= Limit(q, side, produced, consumed) && Index16(n) == index
    ensures Pending(q, side, e, index) in {Ok, NothingPending, Faulted}
  {
    var n := consumed + Minus16(index, e.consumed);
    IndexStandsFor(consumed, index);
    if side.Driver? { DistanceIsExact(produced, consumed); }
    forall k: nat | consumed <= k < consumed + U16 && Index16(k) == index ensures k == n { DistanceIsExact(k, consumed); }
  }

  lemma RemainderIs(x: int, n: nat, q: int, r: nat)
    requires n > 0 && x == q * n + r && r < n
    ensures x % n == r
  {
    QuotientUnique(n, x / n, x % n, q, r);
  }

  lemma {:induction false} PowersDivide(n: nat, m: nat) returns (c: nat)
    requires PowerOfTwo(n) && PowerOfTwo(m) && n <= m
    ensures m == c * n
    decreases n
  {
    if n == 1 {
      c := m;
    } else {
      c := PowersDivide(n / 2, m / 2);
      assert c * n == 2 * (c * (n / 2));
    }
  }

  lemma WordIsPower()
    ensures PowerOfTwo(65536)
  {
    assert PowerOfTwo(16) && PowerOfTwo(256) && PowerOfTwo(4096);
  }

  /** Truncating an index to 16 bits does not change its ring position. */
  lemma PositionIsExact(n: nat, size: nat)
    requires PowerOfTwo(size) && size <= 32768
    ensures Index16(n) % size == n % size
  {
    WordIsPower();
    var c := PowersDivide(size, 65536);
    Reposition(n / U16, c, size, Index16(n));
    assert n == (n / U16) * U16 + Index16(n);
  }

  lemma Reposition(k: nat, c: nat, size: nat, i: nat)
    requires size > 0
    ensures (k * (c * size) + i) % size == i % size
  {
    var q, r := i / size, i % size;
    assert i == q * size + r;
    Rescale(k, c, size, q, r);
    RemainderIs(k * (c * size) + i, size, k * c + q, r);
  }

  lemma Rescale(k: nat, c: nat, size: nat, q: nat, r: nat)
    ensures k * (c * size) + (q * size + r) == (k * c + q) * size + r
  {
  }

  /** Two counts less than a ring apart are at different positions. */
  lemma PositionsDiffer(i: nat, j: nat, size: nat)
    requires i < j < i + size
    ensures i % size != j % size
  {
    if i % size == j % size {
      var a, b := i / size, j / size;
      if a < b { NextMultiple(size, a, b); }
      if b < a { NextMultiple(size, b, a); }
    }
  }
}
