/** 32-bit words as the numbers their bytes spell, high byte first. */
module BigEndian {
  import opened Bytes

  function Big(s: seq<byte>): nat {
    if s == [] then 0 else 256 * Big(s[..|s| - 1]) + s[|s| - 1]
  }

  /** The weighed sum of four bytes. */
  function Weigh(a: int, b: int, c: int, d: int): int {
    256 * (256 * (256 * a + b) + c) + d
  }

  lemma BigOfFour(s: seq<byte>)
    requires |s| == 4
    ensures Big(s) == Weigh(s[0], s[1], s[2], s[3])
  {
    assert s[..3][..2] == s[..2] && s[..2][..1] == s[..1] && s[..1][..0] == [];
    assert Big(s[..1]) == s[0];
    assert Big(s[..2]) == 256 * Big(s[..1]) + s[1];
    assert Big(s[..3]) == 256 * Big(s[..2]) + s[2];
  }

  lemma LastByte(p: int, b: byte, q: int, c: byte)
    requires 256 * p + b == 256 * q + c
    ensures p == q && b == c
  {
  }

  /** Byte strings of one length are determined by the number they spell. */
  lemma {:induction false} BigOnce(s: seq<byte>, t: seq<byte>)
    requires |s| == |t| && Big(s) == Big(t)
    ensures s == t
    decreases |s|
  {
    if s != [] {
      var n := |s| - 1;
      LastByte(Big(s[..n]), s[n], Big(t[..n]), t[n]);
      BigOnce(s[..n], t[..n]);
      assert s == s[..n] + [s[n]] && t == t[..n] + [t[n]];
    }
  }

  // ---------------------------------------------------------- bits as numbers

  function N8(x: bv8): nat { x as nat }
  function N16(x: bv16): nat { x as nat }
  function N24(x: bv24): nat { x as nat }
  function N32(x: bv32): nat { x as nat }

  lemma Increment(x: bv8)
    requires x < 0xff
    ensures (x + 1) as int == x as int + 1
  {
  }

  lemma NumberOfBits(x: bv8)
    ensures (x as int) as bv8 == x
  {
  }

  /** Eight bits hold a byte. */
  lemma {:induction false} ByteBits(b: byte)
    ensures N8(b as bv8) == b
  {
    if b > 0 {
      ByteBits(b - 1);
      var x := (b - 1) as bv8;
      assert x < 0xff;
      Increment(x);
      NumberOfBits(x + 1);
    }
  }

  lemma WidenByte(b: byte)
    ensures b as bv32 == (b as bv8) as bv32
  {
  }

  lemma WidenNumber(x: bv8)
    ensures N32(x as bv32) == N8(x)
  {
  }

  // ---------------------------------------------------------- joining bytes

  function Two(a: bv8, b: bv8): bv16 { ((a as bv16) << 8) | b as bv16 }
  function Three(x: bv16, c: bv8): bv24 { ((x as bv24) << 8) | c as bv24 }
  function Four(x: bv24, d: bv8): bv32 { ((x as bv32) << 8) | d as bv32 }

  lemma JoinTwo(a: bv8, b: bv8)
    ensures N16(Two(a, b)) == 256 * N8(a) + N8(b)
  {
  }

  lemma JoinThree(x: bv16, c: bv8)
    ensures N24(Three(x, c)) == 256 * N16(x) + N8(c)
  {
  }

  lemma JoinFour(x: bv24, d: bv8)
    ensures N32(Four(x, d)) == 256 * N24(x) + N8(d)
  {
  }

  function Join(a: bv8, b: bv8, c: bv8, d: bv8): bv32 {
    Four(Three(Two(a, b), c), d)
  }

  /** Four bytes joined are the number they spell. */
  lemma JoinIs(a: bv8, b: bv8, c: bv8, d: bv8)
    ensures N32(Join(a, b, c, d)) == Weigh(N8(a), N8(b), N8(c), N8(d))
  {
    hide N8, N16, N24, N32, Two, Three, Four;
    JoinTwo(a, b);
    JoinThree(Two(a, b), c);
    JoinFour(Three(Two(a, b), c), d);
  }

  /** Shifting each byte to its place joins them. */
  lemma ShiftsJoin(a: bv8, b: bv8, c: bv8, d: bv8)
    ensures ((a as bv32) << 24) | ((b as bv32) << 16) | ((c as bv32) << 8) | d as bv32 == Join(a, b, c, d)
  {
  }

  /** The four bytes of a word, the highest first. */
  function Part3(v: bv32): bv8 { ((v >> 24) & 0xff) as bv8 }
  function Part2(v: bv32): bv8 { ((v >> 16) & 0xff) as bv8 }
  function Part1(v: bv32): bv8 { ((v >> 8) & 0xff) as bv8 }
  function Part0(v: bv32): bv8 { (v & 0xff) as bv8 }

  lemma PartsJoin(v: bv32)
    ensures Join(Part3(v), Part2(v), Part1(v), Part0(v)) == v
  {
  }

  /** A word below 256 is the same byte read as eight bits. */
  lemma PartNumber(v: bv32)
    requires v <= 0xff
    ensures v as byte == N8(v as bv8)
  {
    assert (v as bv8) as bv32 == v;
    hide N8;
    WidenNumber(v as bv8);
  }
}
