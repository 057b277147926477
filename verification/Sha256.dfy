/** SHA-256 over a message that arrives in pieces: buffering and the padding of section 5.1.1 of FIPS 180-4. */
module Sha256 {
  import opened Bytes
  import opened Fields
  import opened Sha256Compress

  /** Messages of 2^61 bytes have 2^64 bits. */
  const MESSAGE_LIMIT: nat := 0x2000_0000_0000_0000

  // ------------------------------------------------------------------- padding

  /** The hash after the first `n` blocks. */
  function Fold(data: seq<byte>, n: nat): Hash
    requires 64 * n <= |data|
  {
    hide Compress;
    if n == 0 then INITIAL else Compress(Fold(data, n - 1), data[64 * (n - 1)..64 * n])
  }

  lemma {:induction false} FoldPrefix(data: seq<byte>, more: seq<byte>, n: nat)
    requires 64 * n <= |data|
    ensures Fold(data + more, n) == Fold(data, n)
  {
    hide Compress;
    if n > 0 {
      FoldPrefix(data, more, n - 1);
      assert (data + more)[64 * (n - 1)..64 * n] == data[64 * (n - 1)..64 * n];
    }
  }

  function Reverse(s: seq<byte>): (r: seq<byte>)
    ensures |r| == |s| && forall i :: 0 <= i < |s| ==> r[i] == s[|s| - 1 - i]
  {
    seq(|s|, i requires 0 <= i < |s| => s[|s| - 1 - i])
  }

  /** Zeros between the 1 bit and the length: the least number that fills a block. */
  function Filler(n: nat): (k: nat)
    ensures (n + 1 + k + 8) % 64 == 0 && k < 64
  {
    if n % 64 <= 55 then 55 - n % 64 else 119 - n % 64
  }

  /** The bit length as a 64-bit number, high byte first. */
  function LengthField(n: nat): (s: seq<byte>)
    ensures |s| == 8
  {
    Reverse(Le((8 * n) % U64, 8))
  }

  /** The message, a 1 bit, zeros, and the length in bits. */
  function Padded(m: seq<byte>): (p: seq<byte>)
    ensures |p| % 64 == 0
  {
    m + [0x80] + Zeros(Filler(|m|)) + LengthField(|m|)
  }

  /** The length field is the bit length exactly for the messages the standard admits. */
  lemma LengthFieldExact(n: nat)
    ensures Value(Reverse(LengthField(n))) == 8 * n <==> n < MESSAGE_LIMIT
  {
    var bits := (8 * n) % U64;
    assert Reverse(Reverse(Le(bits, 8))) == Le(bits, 8);
    FieldRoundTrip(bits);
  }

  function HashOf(m: seq<byte>): Hash {
    Fold(Padded(m), |Padded(m)| / 64)
  }

  // ----------------------------------------------------------------- streaming

  /** The state has absorbed all whole blocks of `m`; the rest waits at the front of `block`. */
  ghost predicate Absorbed(state: Hash, block: seq<byte>, size: nat, m: seq<byte>) {
    && |block| == 64 && size == |m| % 64
    && state == Fold(m, |m| / 64)
    && block[..size] == m[|m| - size..]
  }

  /** Adding a part that stays within the block, and compressing when the block is full. */
  lemma AbsorbPart(state: Hash, block: seq<byte>, size: nat, m: seq<byte>, block': seq<byte>, part: seq<byte>)
    requires Absorbed(state, block, size, m) && |block'| == 64 && size + |part| <= 64
    requires block'[..size] == block[..size] && block'[size..size + |part|] == part
    ensures size + |part| < 64 ==> Absorbed(state, block', size + |part|, m + part)
    ensures size + |part| == 64 ==> Absorbed(Compress(state, block'), block', 0, m + part)
  {
    hide Compress;
    var n, whole := |m| / 64, m + part;
    FoldPrefix(m, part, n);
    assert block'[..size + |part|] == block'[..size] + part;
    assert whole[|m| - size..] == m[|m| - size..] + part;
    if size + |part| < 64 {
      assert |whole| / 64 == n;
      assert whole[|whole| - (size + |part|)..] == whole[|m| - size..];
    } else {
      assert |whole| == 64 * (n + 1);
      assert whole[64 * n..64 * (n + 1)] == whole[|m| - size..] == block'[..64] == block';
    }
  }

  class Context {
    var state: Hash
    var byteCount: nat
    const block: array<byte>
    var blockSize: nat
    ghost var message: seq<byte>

    ghost predicate Valid()
      reads this, block
    {
      block.Length == 64 && byteCount == |message| < U64 && Absorbed(state, block[..], blockSize, message)
    }

    constructor ()
      ensures Valid() && message == [] && fresh(block)
    {
      state, byteCount, blockSize, message := INITIAL, 0, 0, [];
      block := new byte[64](_ => 0);
    }

    /** memcpy into the block. */
    method Copy(at: nat, bytes: seq<byte>)
      requires block.Length == 64 && at + |bytes| <= 64
      modifies block
      ensures block[..at] == old(block[..at]) && block[at..at + |bytes|] == bytes
    {
      for i := 0 to |bytes|
        invariant block[..at] == old(block[..at])
        invariant forall j :: 0 <= j < i ==> block[at + j] == bytes[j]
      {
        block[at + i] := bytes[i];
      }
    }

    /** The length bytes, low byte last. */
    method StoreLength(bits: nat)
      requires block.Length == 64
      modifies block
      ensures block[..56] == old(block[..56]) && block[56..] == Reverse(Le(bits, 8))
    {
      var shifted := bits;
      for index := 0 to 8
        invariant block[..56] == old(block[..56])
        invariant forall j :: 0 <= j < index ==> block[63 - j] == Le(bits, 8)[j]
        invariant Le(bits, 8)[index..] == Le(shifted, 8 - index)
      {
        block[63 - index] := shifted % 256;
        shifted := shifted / 256;
      }
    }

    /** Add one part that fits in the block. */
    method Take(part: seq<byte>)
      requires Valid() && blockSize + |part| <= 64 && |message| + |part| < U64
      modifies this, block
      ensures Valid() && message == old(message) + part
    {
      hide Absorbed, Compress;
      ghost var before := block[..];
      Copy(blockSize, part);
      AbsorbPart(state, before, blockSize, message, block[..], part);
      byteCount, message := byteCount + |part|, message + part;
      blockSize := blockSize + |part|;
      if blockSize == 64 {
        state := Transform(state, block);
        blockSize := 0;
      }
    }

    lemma SizeBounded()
      requires Valid()
      ensures blockSize < 64 && blockSize == byteCount % 64
    {
      hide Compress;
    }

    /** Absorb more of the message; a message of 2^64 bytes or more is refused. */
    method Update(data: seq<byte>)
      requires Valid()
      modifies this, block
      ensures Valid()
      ensures message == if |old(message)| + |data| < U64 then old(message) + data else old(message)
    {
      hide Absorbed, Compress;
      if |data| > U64 - 1 - byteCount { return; }
      var done := 0;
      while done < |data|
        invariant Valid() && done <= |data| && message == old(message) + data[..done]
        decreases |data| - done
      {
        SizeBounded();
        var available := 64 - blockSize;
        var take := if |data| - done < available then |data| - done else available;
        Take(data[done..done + take]);
        assert data[..done + take] == data[..done] + data[done..done + take];
        done := done + take;
      }
      assert data[..|data|] == data;
    }

    /** Pad the message and return its digest; the context is spent. */
    method Finish() returns (digest: seq<byte>)
      requires Valid()
      modifies this, block
      ensures digest == Digest(HashOf(old(message))) && Spells(digest, HashOf(old(message)))
    {
      hide Absorbed, Compress, Digest, Spells;
      SizeBounded();
      ghost var m, initial, before := message, state, block[..];
      var bits := (8 * byteCount) % U64;
      var size := blockSize;
      Copy(size, [0x80]);
      size := size + 1;
      ghost var marked, first := block[..size], before;
      assert marked == before[..blockSize] + [0x80];
      if size > 56 {
        Copy(size, Zeros(64 - size));
        assert block[..] == marked + Zeros(64 - size);
        first := block[..];
        state := Transform(state, block);
        size, marked := 0, [];
      }
      Copy(size, Zeros(56 - size));
      assert block[..56] == marked + Zeros(56 - size);
      StoreLength(bits);
      assert block[..] == marked + Zeros(56 - size) + LengthField(|m|);
      if |m| % 64 <= 55 {
        ShortTail(initial, before, m, block[..]);
      } else {
        LongTail(initial, before, m, first, block[..]);
      }
      state := Transform(state, block);
      digest := Digest(state);
      DigestSpells(state);
      blockSize, byteCount, message := 0, 0, [];
    }
  }

  lemma {:induction false} ZerosAppend(a: nat, b: nat)
    ensures Zeros(a) + Zeros(b) == Zeros(a + b)
  {
  }

  lemma Regroup(a: seq<byte>, b: seq<byte>, c: seq<byte>, d: seq<byte>, e: seq<byte>)
    ensures a + b + c + d == a + (b + c + d)
    ensures a + b + (c + d) + e == a + (b + c) + (d + e)
  {
  }

  lemma PaddedShort(m: seq<byte>)
    requires |m| % 64 <= 55
    ensures Padded(m) == m + ([0x80] + Zeros(55 - |m| % 64) + LengthField(|m|))
  {
    hide LengthField, Zeros;
    Regroup(m, [0x80], Zeros(Filler(|m|)), LengthField(|m|), []);
  }

  lemma PaddedLong(m: seq<byte>)
    requires |m| % 64 >= 56
    ensures Padded(m) == m + ([0x80] + Zeros(63 - |m| % 64)) + (Zeros(56) + LengthField(|m|))
  {
    hide LengthField, Zeros;
    ZerosAppend(63 - |m| % 64, 56);
    Regroup(m, [0x80], Zeros(63 - |m| % 64), Zeros(56), LengthField(|m|));
  }

  lemma AllAbsorbed(state: Hash, block: seq<byte>, m: seq<byte>)
    requires Absorbed(state, block, 0, Padded(m))
    ensures state == HashOf(m)
  {
    hide Padded, Fold;
  }

  /** The padding fits in the block that was being filled. */
  lemma ShortTail(state: Hash, block: seq<byte>, m: seq<byte>, last: seq<byte>)
    requires Absorbed(state, block, |m| % 64, m) && |block| == 64 && |m| % 64 <= 55
    requires last == block[..|m| % 64] + [0x80] + Zeros(55 - |m| % 64) + LengthField(|m|)
    ensures Compress(state, last) == HashOf(m)
  {
    hide Compress, Absorbed, Fold, LengthField, Zeros, HashOf, Padded;
    var r := |m| % 64;
    var part := [0x80] + Zeros(55 - r) + LengthField(|m|);
    assert last == block[..r] + part;
    AbsorbPart(state, block, r, m, last, part);
    PaddedShort(m);
    AllAbsorbed(Compress(state, last), last, m);
  }

  /** The padding takes one more block. */
  lemma LongTail(state: Hash, block: seq<byte>, m: seq<byte>, first: seq<byte>, last: seq<byte>)
    requires Absorbed(state, block, |m| % 64, m) && |block| == 64 && |m| % 64 >= 56
    requires first == block[..|m| % 64] + [0x80] + Zeros(63 - |m| % 64) && last == Zeros(56) + LengthField(|m|)
    ensures Compress(Compress(state, first), last) == HashOf(m)
  {
    hide Compress, Absorbed, Fold, LengthField, Zeros, HashOf, Padded;
    var r := |m| % 64;
    var part := [0x80] + Zeros(63 - r);
    assert first == block[..r] + part;
    AbsorbPart(state, block, r, m, first, part);
    AbsorbPart(Compress(state, first), first, 0, m + part, last, last);
    PaddedLong(m);
    AllAbsorbed(Compress(Compress(state, first), last), last, m);
  }

  function Concat(parts: seq<seq<byte>>): seq<byte> {
    if parts == [] then [] else Concat(parts[..|parts| - 1]) + parts[|parts| - 1]
  }

  /** However the message is split into updates, the digest is that of the whole. */
  method HashParts(parts: seq<seq<byte>>) returns (digest: seq<byte>)
    requires |Concat(parts)| < U64
    ensures digest == Digest(HashOf(Concat(parts))) && Spells(digest, HashOf(Concat(parts)))
  {
    hide Digest, HashOf, Absorbed, Spells;
    var context := new Context();
    for i := 0 to |parts|
      invariant fresh(context) && fresh(context.block) && context.Valid() && context.message == Concat(parts[..i])
    {
      ConcatPrefix(parts, i + 1);
      assert parts[..i + 1][..i] == parts[..i];
      context.Update(parts[i]);
    }
    assert parts[..|parts|] == parts;
    digest := context.Finish();
  }

  lemma {:induction false} ConcatPrefix(parts: seq<seq<byte>>, i: nat)
    requires i <= |parts|
    ensures |Concat(parts[..i])| <= |Concat(parts)|
    decreases |parts| - i
  {
    if i < |parts| {
      ConcatPrefix(parts, i + 1);
      assert parts[..i + 1][..i] == parts[..i];
    } else {
      assert parts[..i] == parts;
    }
  }
}
