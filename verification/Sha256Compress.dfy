/** The SHA-256 compression function, section 6.2.2 of FIPS 180-4. */
module Sha256Compress {
  import opened Bytes
  import opened BigEndian

  datatype Hash = Hash(a: bv32, b: bv32, c: bv32, d: bv32, e: bv32, f: bv32, g: bv32, h: bv32)

  const INITIAL := Hash(0x6a09e667, 0xbb67ae85, 0x3c6ef372, 0xa54ff53a, 0x510e527f, 0x9b05688c, 0x1f83d9ab, 0x5be0cd19)

  const K0: seq<bv32> := [0x428a2f98, 0x71374491, 0xb5c0fbcf, 0xe9b5dba5, 0x3956c25b, 0x59f111f1, 0x923f82a4, 0xab1c5ed5]
  const K1: seq<bv32> := [0xd807aa98, 0x12835b01, 0x243185be, 0x550c7dc3, 0x72be5d74, 0x80deb1fe, 0x9bdc06a7, 0xc19bf174]
  const K2: seq<bv32> := [0xe49b69c1, 0xefbe4786, 0x0fc19dc6, 0x240ca1cc, 0x2de92c6f, 0x4a7484aa, 0x5cb0a9dc, 0x76f988da]
  const K3: seq<bv32> := [0x983e5152, 0xa831c66d, 0xb00327c8, 0xbf597fc7, 0xc6e00bf3, 0xd5a79147, 0x06ca6351, 0x14292967]
  const K4: seq<bv32> := [0x27b70a85, 0x2e1b2138, 0x4d2c6dfc, 0x53380d13, 0x650a7354, 0x766a0abb, 0x81c2c92e, 0x92722c85]
  const K5: seq<bv32> := [0xa2bfe8a1, 0xa81a664b, 0xc24b8b70, 0xc76c51a3, 0xd192e819, 0xd6990624, 0xf40e3585, 0x106aa070]
  const K6: seq<bv32> := [0x19a4c116, 0x1e376c08, 0x2748774c, 0x34b0bcb5, 0x391c0cb3, 0x4ed8aa4a, 0x5b9cca4f, 0x682e6ff3]
  const K7: seq<bv32> := [0x748f82ee, 0x78a5636f, 0x84c87814, 0x8cc70208, 0x90befffa, 0xa4506ceb, 0xbef9a3f7, 0xc67178f2]
  const K: seq<bv32> := (K0 + K1 + K2 + K3) + (K4 + K5 + K6 + K7)

  // ---------------------------------------------------------- the standard's functions

  function LargeSigma0(x: bv32): bv32 { x.RotateRight(2) ^ x.RotateRight(13) ^ x.RotateRight(22) }
  function LargeSigma1(x: bv32): bv32 { x.RotateRight(6) ^ x.RotateRight(11) ^ x.RotateRight(25) }
  function SmallSigma0(x: bv32): bv32 { x.RotateRight(7) ^ x.RotateRight(18) ^ (x >> 3) }
  function SmallSigma1(x: bv32): bv32 { x.RotateRight(17) ^ x.RotateRight(19) ^ (x >> 10) }
  function Choice(x: bv32, y: bv32, z: bv32): bv32 { (x & y) ^ (!x & z) }
  function Majority(x: bv32, y: bv32, z: bv32): bv32 { (x & y) ^ (x & z) ^ (y & z) }
  function Add(x: bv32, y: bv32): bv32 { x + y }
  function Sum(a: bv32, b: bv32, c: bv32, d: bv32): bv32 { a + b + c + d }

  function LoadBe32(s: seq<byte>, at: nat): bv32
    requires at + 4 <= |s|
  {
    (s[at] as bv32 << 24) | (s[at + 1] as bv32 << 16) | (s[at + 2] as bv32 << 8) | s[at + 3] as bv32
  }

  /** Word t of the message schedule. */
  function Word(block: seq<byte>, t: nat): bv32
    requires |block| == 64 && t < 64
  {
    if t < 16 then LoadBe32(block, 4 * t)
    else Mix(Word(block, t - 16), Word(block, t - 15), Word(block, t - 7), Word(block, t - 2))
  }

  function Mix(w16: bv32, w15: bv32, w7: bv32, w2: bv32): bv32 {
    Sum(SmallSigma1(w2), w7, SmallSigma0(w15), w16)
  }

  function Temporary1(e: bv32, f: bv32, g: bv32, h: bv32, k: bv32, w: bv32): bv32 {
    Add(Sum(h, LargeSigma1(e), Choice(e, f, g), k), w)
  }

  function Temporary2(a: bv32, b: bv32, c: bv32): bv32 {
    Add(LargeSigma0(a), Majority(a, b, c))
  }

  function Round(s: Hash, k: bv32, w: bv32): Hash {
    var t1, t2 := Temporary1(s.e, s.f, s.g, s.h, k, w), Temporary2(s.a, s.b, s.c);
    Hash(Add(t1, t2), s.a, s.b, s.c, Add(s.d, t1), s.e, s.f, s.g)
  }

  function Rounds(s: Hash, block: seq<byte>, t: nat): Hash
    requires |block| == 64 && t <= 64
  {
    if t == 0 then s else Round(Rounds(s, block, t - 1), K[t - 1], Word(block, t - 1))
  }

  function Plus(s: Hash, r: Hash): Hash {
    Hash(Add(s.a, r.a), Add(s.b, r.b), Add(s.c, r.c), Add(s.d, r.d), Add(s.e, r.e), Add(s.f, r.f), Add(s.g, r.g), Add(s.h, r.h))
  }

  function Compress(s: Hash, block: seq<byte>): Hash
    requires |block| == 64
  {
    Plus(s, Rounds(s, block, 64))
  }

  // ---------------------------------------------------------------- the loops

  // Rotations are two shifts and an or.

  function Sum0(x: bv32): (r: bv32)
    ensures r == LargeSigma0(x)
  {
    ((x >> 2) | (x << 30)) ^ ((x >> 13) | (x << 19)) ^ ((x >> 22) | (x << 10))
  }

  function Sum1(x: bv32): (r: bv32)
    ensures r == LargeSigma1(x)
  {
    ((x >> 6) | (x << 26)) ^ ((x >> 11) | (x << 21)) ^ ((x >> 25) | (x << 7))
  }

  function Extend0(x: bv32): (r: bv32)
    ensures r == SmallSigma0(x)
  {
    ((x >> 7) | (x << 25)) ^ ((x >> 18) | (x << 14)) ^ (x >> 3)
  }

  function Extend1(x: bv32): (r: bv32)
    ensures r == SmallSigma1(x)
  {
    ((x >> 17) | (x << 15)) ^ ((x >> 19) | (x << 13)) ^ (x >> 10)
  }

  /** The loop adds the schedule terms in the opposite order. */
  function Upwards(a: bv32, b: bv32, c: bv32, d: bv32): (r: bv32)
    ensures r == Sum(a, b, c, d)
  {
    d + c + b + a
  }

  function MixUp(w16: bv32, w15: bv32, w7: bv32, w2: bv32): (r: bv32)
    ensures r == Mix(w16, w15, w7, w2)
  {
    hide SmallSigma0, SmallSigma1, Extend0, Extend1, Sum, Upwards;
    Upwards(Extend1(w2), w7, Extend0(w15), w16)
  }

  function First(e: bv32, f: bv32, g: bv32, h: bv32, k: bv32, w: bv32): (r: bv32)
    ensures r == Temporary1(e, f, g, h, k, w)
  {
    hide LargeSigma1, Sum1, Add, Sum;
    Add(Sum(h, Sum1(e), (e & f) ^ (!e & g), k), w)
  }

  function Second(a: bv32, b: bv32, c: bv32): (r: bv32)
    ensures r == Temporary2(a, b, c)
  {
    hide LargeSigma0, Sum0, Add;
    Add(Sum0(a), (a & b) ^ (a & c) ^ (b & c))
  }

  lemma WordIs(block: seq<byte>, t: nat)
    requires |block| == 64 && t < 64
    ensures t < 16 ==> Word(block, t) == LoadBe32(block, 4 * t)
    ensures t >= 16 ==> Word(block, t) == Mix(Word(block, t - 16), Word(block, t - 15), Word(block, t - 7), Word(block, t - 2))
  {
    hide LoadBe32, Mix;
  }

  method Schedule(block: array<byte>) returns (words: array<bv32>)
    requires block.Length == 64
    ensures fresh(words) && words.Length == 64 && forall t :: 0 <= t < 64 ==> words[t] == Word(block[..], t)
  {
    hide LoadBe32, Mix, MixUp, Word;
    words := new bv32[64](_ => 0);
    for t := 0 to 16
      invariant forall i :: 0 <= i < t ==> words[i] == Word(block[..], i)
    {
      WordIs(block[..], t);
      words[t] := LoadBe32(block[..], 4 * t);
    }
    for t := 16 to 64
      invariant forall i :: 0 <= i < t ==> words[i] == Word(block[..], i)
    {
      WordIs(block[..], t);
      words[t] := MixUp(words[t - 16], words[t - 15], words[t - 7], words[t - 2]);
    }
  }

  /** transform: mix one block into the state. */
  method Transform(state: Hash, block: array<byte>) returns (next: Hash)
    requires block.Length == 64
    ensures next == Compress(state, block[..])
  {
    hide Word, Temporary1, Temporary2, First, Second, Add;
    var words := Schedule(block);
    var a, b, c, d := state.a, state.b, state.c, state.d;
    var e, f, g, h := state.e, state.f, state.g, state.h;
    for t := 0 to 64
      invariant Hash(a, b, c, d, e, f, g, h) == Rounds(state, block[..], t)
    {
      var temporary1, temporary2 := First(e, f, g, h, K[t], words[t]), Second(a, b, c);
      h, g, f, e, d, c, b, a := g, f, e, Add(d, temporary1), c, b, a, Add(temporary1, temporary2);
    }
    next := Hash(Add(state.a, a), Add(state.b, b), Add(state.c, c), Add(state.d, d),
                 Add(state.e, e), Add(state.f, f), Add(state.g, g), Add(state.h, h));
  }

  function StoreBe32(v: bv32): (s: seq<byte>)
    ensures |s| == 4
  {
    [((v >> 24) & 0xff) as byte, ((v >> 16) & 0xff) as byte, ((v >> 8) & 0xff) as byte, (v & 0xff) as byte]
  }

  function HashWords(s: Hash): (w: seq<bv32>)
    ensures |w| == 8
  {
    [s.a, s.b, s.c, s.d, s.e, s.f, s.g, s.h]
  }

  function StoreWords(w: seq<bv32>): (d: seq<byte>)
    ensures |d| == 4 * |w|
  {
    if w == [] then [] else StoreWords(w[..|w| - 1]) + StoreBe32(w[|w| - 1])
  }

  function Digest(s: Hash): (d: seq<byte>)
    ensures |d| == 32
  {
    StoreWords(HashWords(s))
  }

  // ------------------------------------------------------- words as numbers

  /** A word is loaded as the number its four bytes spell. */
  lemma LoadIsBig(s: seq<byte>, at: nat)
    requires at + 4 <= |s|
    ensures N32(LoadBe32(s, at)) == Big(s[at..at + 4])
  {
    hide Big, Weigh, N32;
    BytesLoad(s[at], s[at + 1], s[at + 2], s[at + 3]);
    BigOfFour(s[at..at + 4]);
  }

  lemma BytesLoad(a: byte, b: byte, c: byte, d: byte)
    ensures N32((a as bv32 << 24) | (b as bv32 << 16) | (c as bv32 << 8) | d as bv32) == Weigh(a, b, c, d)
  {
    hide Join, Weigh, N8, N32;
    WidenByte(a);
    WidenByte(b);
    WidenByte(c);
    WidenByte(d);
    ByteBits(a);
    ByteBits(b);
    ByteBits(c);
    ByteBits(d);
    ShiftsJoin(a as bv8, b as bv8, c as bv8, d as bv8);
    JoinIs(a as bv8, b as bv8, c as bv8, d as bv8);
  }

  lemma StoredBytes(v: bv32)
    ensures StoreBe32(v) == [N8(Part3(v)), N8(Part2(v)), N8(Part1(v)), N8(Part0(v))]
  {
    hide N8;
    PartNumber((v >> 24) & 0xff);
    PartNumber((v >> 16) & 0xff);
    PartNumber((v >> 8) & 0xff);
    PartNumber(v & 0xff);
  }

  /** A word is stored as the four bytes that spell it. */
  lemma StoreIsBig(v: bv32)
    ensures Big(StoreBe32(v)) == N32(v)
  {
    hide Big, Join, Weigh, Part3, Part2, Part1, Part0, StoreBe32, N8, N32;
    StoredBytes(v);
    PartsJoin(v);
    JoinIs(Part3(v), Part2(v), Part1(v), Part0(v));
    BigOfFour(StoreBe32(v));
  }

  /** The i-th four bytes spell the i-th word, for all eight words. */
  ghost predicate Spells(digest: seq<byte>, s: Hash) {
    |digest| == 32 && forall i :: 0 <= i < 8 ==> Big(digest[4 * i..4 * i + 4]) == N32(HashWords(s)[i])
  }

  lemma {:induction false} StoredWord(w: seq<bv32>, i: nat)
    requires i < |w|
    ensures StoreWords(w)[4 * i..4 * i + 4] == StoreBe32(w[i])
  {
    hide StoreBe32;
    var front := w[..|w| - 1];
    if i < |w| - 1 {
      StoredWord(front, i);
      assert StoreWords(w)[4 * i..4 * i + 4] == StoreWords(front)[4 * i..4 * i + 4];
    }
  }

  lemma DigestSpells(s: Hash)
    ensures Spells(Digest(s), s)
  {
    hide StoreBe32, Big, StoreWords, HashWords;
    forall i | 0 <= i < 8 ensures Big(Digest(s)[4 * i..4 * i + 4]) == N32(HashWords(s)[i]) {
      StoreIsBig(HashWords(s)[i]);
      StoredWord(HashWords(s), i);
    }
  }

  /** Eight words are spelled in one way. */
  lemma SpelledOnce(d: seq<byte>, e: seq<byte>, s: Hash)
    requires Spells(d, s) && Spells(e, s)
    ensures d == e
  {
    hide Big, HashWords, N32, Weigh;
    forall k | 0 <= k < 32 ensures d[k] == e[k] {
      var i := k / 4;
      assert Big(d[4 * i..4 * i + 4]) == N32(HashWords(s)[i]) == Big(e[4 * i..4 * i + 4]);
      BigOnce(d[4 * i..4 * i + 4], e[4 * i..4 * i + 4]);
      assert d[k] == d[4 * i..4 * i + 4][k % 4] && e[k] == e[4 * i..4 * i + 4][k % 4];
    }
  }

  /** The first sixteen words of the schedule are the numbers the block spells. */
  lemma BlockWords(block: seq<byte>, t: nat)
    requires |block| == 64 && t < 16
    ensures N32(Word(block, t)) == Big(block[4 * t..4 * t + 4])
  {
    hide LoadBe32, Big, N32;
    LoadIsBig(block, 4 * t);
  }
}
