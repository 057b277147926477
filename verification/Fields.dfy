/** Fields of wire records: numbers at offsets, reserved bytes, and the parts of a concatenation. */
module Fields {
  import opened Bytes

  /** How a codec ends. */
  datatype Status = Okay | BufferTooSmall | Overflow | SchemaMismatch | Malformed

  predicate Zero(s: seq<byte>) {
    forall i :: 0 <= i < |s| ==> s[i] == 0
  }

  function Zeros(n: nat): (z: seq<byte>)
    ensures |z| == n && Zero(z)
  {
    if n == 0 then [] else Zeros(n - 1) + [0]
  }

  lemma ZeroIs(s: seq<byte>)
    ensures Zero(s) <==> s == Zeros(|s|)
  {
  }

  function U32At(b: seq<byte>, o: nat): (v: u32)
    requires o + 4 <= |b|
  {
    FieldCanonical(b[o..o + 4]);
    Value(b[o..o + 4])
  }

  function U64At(b: seq<byte>, o: nat): (v: u64)
    requires o + 8 <= |b|
  {
    FieldCanonical(b[o..o + 8]);
    Value(b[o..o + 8])
  }

  /** A field holds a number exactly when its bytes are the number's encoding. */
  lemma FieldIs(b: seq<byte>, o: nat, v: nat)
    ensures o + 4 <= |b| && v < U32 ==> (U32At(b, o) == v <==> b[o..o + 4] == Le(v, 4))
    ensures o + 8 <= |b| && v < U64 ==> (U64At(b, o) == v <==> b[o..o + 8] == Le(v, 8))
  {
    FieldRoundTrip(v);
    if o + 4 <= |b| { FieldCanonical(b[o..o + 4]); }
    if o + 8 <= |b| { FieldCanonical(b[o..o + 8]); }
  }

  lemma SliceOf(b: seq<byte>, o: nat, n: nat, i: nat, j: nat)
    requires i <= j <= n && o + n <= |b|
    ensures b[o..o + n][i..j] == b[o + i..o + j]
  {
    var x, y := b[o..o + n][i..j], b[o + i..o + j];
    assert |x| == |y|;
    forall k | 0 <= k < |x| ensures x[k] == y[k] { assert b[o..o + n][i + k] == b[o + i + k]; }
  }

  /** A concatenation is its head and its tail. */
  lemma HeadTail(x: seq<byte>, a: seq<byte>, rest: seq<byte>)
    ensures x == a + rest <==> |x| >= |a| && x[..|a|] == a && x[|a|..] == rest
  {
    if |x| >= |a| { assert x == x[..|a|] + x[|a|..]; }
  }

  /** The bytes at `o` are `a` and then `rest`. */
  lemma PartsAt(b: seq<byte>, o: nat, n: nat, a: seq<byte>, rest: seq<byte>)
    requires o + n <= |b| && n == |a| + |rest|
    ensures b[o..o + n] == a + rest <==> b[o..o + |a|] == a && b[o + |a|..o + n] == rest
  {
    HeadTail(b[o..o + n], a, rest);
    SliceOf(b, o, n, 0, |a|);
    SliceOf(b, o, n, |a|, n);
  }

  /** A slice of the middle part of a concatenation. */
  lemma MiddleSlice(a: seq<byte>, b: seq<byte>, c: seq<byte>, i: nat, j: nat)
    requires i <= j <= |b|
    ensures (a + b + c)[|a| + i..|a| + j] == b[i..j]
  {
  }

  lemma Longer(done: seq<byte>, x: seq<byte>, y: seq<byte>)
    ensures done + x + y == done + (x + y)
  {
  }

  /** memcpy: store `x` at `at`. */
  method Store(buffer: array<byte>, at: nat, x: seq<byte>)
    requires at + |x| <= buffer.Length
    modifies buffer
    ensures buffer[..at + |x|] == old(buffer[..at]) + x && buffer[at + |x|..] == old(buffer[at + |x|..])
  {
    for i := 0 to |x|
      invariant buffer[..at + i] == old(buffer[..at]) + x[..i] && buffer[at + |x|..] == old(buffer[at + |x|..])
    {
      buffer[at + i] := x[i];
    }
    assert x[..|x|] == x;
  }

  /** memset: clear the first `n` bytes. */
  method Clear(buffer: array<byte>, n: nat)
    requires n <= buffer.Length
    modifies buffer
    ensures buffer[..n] == Zeros(n) && buffer[n..] == old(buffer[n..])
  {
    for i := 0 to n
      invariant buffer[..i] == Zeros(i) && buffer[n..] == old(buffer[n..])
    {
      buffer[i] := 0;
    }
  }
}
