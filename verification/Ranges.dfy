/** Address ranges as the transport tests them, and what those tests mean.

    The transport adds 64-bit addresses and lengths without widening; the tests are exact
    only because every range is first checked not to wrap.
 */
module Ranges {
  import opened Bytes

  /** A nonempty range that does not run past the top of the address space. */
  predicate RangeValid(a: u64, n: u64) {
    n != 0 && a <= U64 - 1 - n
  }

  /** 64-bit addition, with its wrap-around. */
  function Sum64(a: u64, n: u64): u64 {
    if a + n < U64 then a + n else a + n - U64
  }

  /** The overlap test of the validators, in 64-bit arithmetic. */
  predicate Overlap64(a: u64, n: u64, b: u64, m: u64) {
    a < Sum64(b, m) && b < Sum64(a, n)
  }

  /** The overlap test of the queue engine: an empty range overlaps nothing. */
  predicate OverlapNonEmpty64(a: u64, n: u64, b: u64, m: u64) {
    n != 0 && m != 0 && Overlap64(a, n, b, m)
  }

  /** Two ranges share an address. */
  predicate Meets(a: int, n: int, b: int, m: int) {
    n > 0 && m > 0 && a < b + m && b < a + n
  }

  predicate Inside(a: int, n: int, b: int, m: int) {
    b <= a && a + n <= b + m
  }

  ghost predicate In(x: int, a: int, n: int) {
    a <= x < a + n
  }

  lemma MeetsMeansCommonAddress(a: int, n: int, b: int, m: int)
    ensures Meets(a, n, b, m) <==> exists x :: In(x, a, n) && In(x, b, m)
  {
    if Meets(a, n, b, m) {
      var x := if a < b then b else a;
      assert In(x, a, n) && In(x, b, m);
    }
  }

  /** On ranges that do not wrap, the 64-bit test is exact. */
  lemma OverlapIsExact(a: u64, n: u64, b: u64, m: u64)
    requires RangeValid(a, n) && RangeValid(b, m)
    ensures Overlap64(a, n, b, m) <==> Meets(a, n, b, m)
  {}

  lemma OverlapNonEmptyIsExact(a: u64, n: u64, b: u64, m: u64)
    requires n == 0 || RangeValid(a, n)
    requires m == 0 || RangeValid(b, m)
    ensures OverlapNonEmpty64(a, n, b, m) <==> Meets(a, n, b, m)
  {
    if n != 0 && m != 0 { OverlapIsExact(a, n, b, m); }
  }
}
