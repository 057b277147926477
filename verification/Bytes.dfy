/** Byte strings, little-endian fields and a flat byte memory.

    Every wire structure of the system is little-endian and is read and written
    field by field; shared memory is a total map from transport addresses to bytes.
 */
module Bytes {
  type byte = b: int | 0 <= b < 256

  /** Contents of shared memory, by transport address. */
  type Memory = int -> byte

  const U16: nat := 0x1_0000
  const U32: nat := 0x1_0000_0000
  const U64: nat := 0x1_0000_0000_0000_0000

  type u16 = x: int | 0 <= x < 0x1_0000
  type u32 = x: int | 0 <= x < 0x1_0000_0000
  type u64 = x: int | 0 <= x < 0x1_0000_0000_0000_0000

  /** The low `n` bytes of `v`, least significant first. */
  function Le(v: nat, n: nat): (s: seq<byte>)
    ensures |s| == n
  {
    if n == 0 then [] else [v % 256] + Le(v / 256, n - 1)
  }

  /** The value of a little-endian byte string. */
  function Value(s: seq<byte>): (v: nat)
  {
    if s == [] then 0 else s[0] + 256 * Value(s[1..])
  }

  function Pow256(n: nat): (p: nat)
    ensures p > 0
  {
    if n == 0 then 1 else 256 * Pow256(n - 1)
  }

  lemma Pow256Values()
    ensures Pow256(2) == U16 && Pow256(4) == U32 && Pow256(8) == U64
  {
    assert Pow256(2) == 256 * Pow256(1);
    assert Pow256(4) == 256 * (256 * Pow256(2));
    assert Pow256(6) == 256 * (256 * Pow256(4));
    assert Pow256(8) == 256 * (256 * Pow256(6));
  }

  lemma {:induction false} ValueOfLe(v: nat, n: nat)
    requires v < Pow256(n)
    ensures Value(Le(v, n)) == v
  {
    if n > 0 {
      assert Pow256(n) == 256 * Pow256(n - 1);
      ValueOfLe(v / 256, n - 1);
      assert Le(v, n)[1..] == Le(v / 256, n - 1);
    }
  }

  lemma {:induction false} LeOfValue(s: seq<byte>)
    ensures Value(s) < Pow256(|s|)
    ensures Le(Value(s), |s|) == s
  {
    if s != [] {
      LeOfValue(s[1..]);
      var v := Value(s[1..]);
      assert Value(s) == s[0] + 256 * v;
      assert Value(s) % 256 == s[0] && Value(s) / 256 == v;
      assert s == [s[0]] + s[1..];
    }
  }

  /** Quotient and remainder are unique. */
  lemma QuotientUnique(n: nat, q: int, r: nat, p: int, t: nat)
    requires r < n && t < n && q * n + r == p * n + t
    ensures q == p && r == t
  {
    if q < p { NextMultiple(n, q, p); }
    if p < q { NextMultiple(n, p, q); }
  }

  lemma NextMultiple(n: nat, q: int, p: int)
    requires q < p
    ensures p * n >= q * n + n
  {
    assert p * n == q * n + (p - q) * n;
    assert (p - q) * n == n + (p - q - 1) * n;
  }

  lemma DivideTwice(v: nat, p: nat)
    requires p > 0
    ensures (v / 256) / p == v / (256 * p)
  {
    var q, r := v / 256, v % 256;
    var a, b := q / p, q % p;
    assert q == p * a + b;
    assert 256 * q == a * (256 * p) + 256 * b;
    QuotientUnique(256 * p, v / (256 * p), v % (256 * p), a, 256 * b + r);
  }

  /** Byte `i` is the digit of weight 256^i: the least significant byte comes first. */
  lemma {:induction false} LeDigit(v: nat, n: nat, i: nat)
    requires i < n
    ensures Le(v, n)[i] == (v / Pow256(i)) % 256
    decreases n
  {
    if i > 0 {
      LeDigit(v / 256, n - 1, i - 1);
      DivideTwice(v, Pow256(i - 1));
    }
  }

  lemma ValueDigit(s: seq<byte>, i: nat)
    requires i < |s|
    ensures s[i] == (Value(s) / Pow256(i)) % 256
  {
    LeOfValue(s);
    LeDigit(Value(s), |s|, i);
  }

  /** A field of the three widths used on the wire survives encoding. */
  lemma FieldRoundTrip(v: nat)
    ensures v < U16 ==> Value(Le(v, 2)) == v
    ensures v < U32 ==> Value(Le(v, 4)) == v
    ensures v < U64 ==> Value(Le(v, 8)) == v
  {
    Pow256Values();
    if v < U16 { ValueOfLe(v, 2); }
    if v < U32 { ValueOfLe(v, 4); }
    if v < U64 { ValueOfLe(v, 8); }
  }

  /** Decoding a field gives a value of its width, and encoding that value gives the field back. */
  lemma FieldCanonical(s: seq<byte>)
    ensures |s| == 2 ==> Value(s) < U16 && Le(Value(s), 2) == s
    ensures |s| == 4 ==> Value(s) < U32 && Le(Value(s), 4) == s
    ensures |s| == 8 ==> Value(s) < U64 && Le(Value(s), 8) == s
  {
    Pow256Values();
    LeOfValue(s);
  }

  // ---------------------------------------------------------------- memory

  function ReadMem(m: Memory, a: int, n: nat): (s: seq<byte>)
    ensures |s| == n
  {
    seq(n, i requires 0 <= i < n => m(a + i))
  }

  function WriteMem(m: Memory, a: int, s: seq<byte>): (m': Memory)
  {
    x => if a <= x < a + |s| then s[x - a] else m(x)
  }

  /** The bytes of `s` are stored at `a`. */
  ghost predicate Holds(m: Memory, a: int, s: seq<byte>) {
    ReadMem(m, a, |s|) == s
  }

  ghost predicate SameOn(m: Memory, m': Memory, a: int, n: nat) {
    forall x :: a <= x < a + n ==> m'(x) == m(x)
  }

  lemma ReadSame(m: Memory, m': Memory, a: int, n: nat)
    requires SameOn(m, m', a, n)
    ensures ReadMem(m', a, n) == ReadMem(m, a, n)
  {
    forall i | 0 <= i < n ensures ReadMem(m', a, n)[i] == ReadMem(m, a, n)[i] {
      assert m'(a + i) == m(a + i);
    }
  }

  lemma WriteHolds(m: Memory, a: int, s: seq<byte>)
    ensures Holds(WriteMem(m, a, s), a, s)
  {
    var m' := WriteMem(m, a, s);
    forall i | 0 <= i < |s| ensures ReadMem(m', a, |s|)[i] == s[i] {
      assert m'(a + i) == s[i];
    }
  }
}
