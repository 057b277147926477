/** Payload copies: the bytes of one direction of a chain are one virtual string, scattered
    over the chain's segments in order.
 */
module ScatterGather {
  import opened Bytes
  import opened Ranges
  import opened Chains

  function Span(a: int, n: nat): (r: seq<int>)
    ensures |r| == n
  {
    seq(n, i requires 0 <= i < n => a + i)
  }

  lemma SpanIsRange(x: int, a: int, n: nat)
    ensures x in Span(a, n) <==> In(x, a, n)
  {
    if In(x, a, n) { assert Span(a, n)[x - a] == x; }
  }

  /** Addresses of the bytes of one direction in the first `n` segments, in order. */
  function PlacesUpto(ss: seq<Segment>, b: bool, n: nat): (r: seq<int>)
    requires n <= |ss|
    ensures |r| == Upto(ss, b, n)
  {
    if n == 0 then [] else
    PlacesUpto(ss, b, n - 1) + if Selected(ss[n - 1], b) then Span(ss[n - 1].address, ss[n - 1].length) else []
  }

  /** Addresses of the bytes of one direction, in order. */
  function Places(ss: seq<Segment>, b: bool): (r: seq<int>)
    ensures |r| == Total(ss, b)
  {
    PlacesUpto(ss, b, |ss|)
  }

  /** The virtual string of one direction. */
  function Gather(m: Memory, ss: seq<Segment>, b: bool): (r: seq<byte>)
    ensures |r| == Total(ss, b)
  {
    var p := Places(ss, b);
    seq(|p|, i requires 0 <= i < |p| => m(p[i]))
  }

  ghost predicate Distinct(p: seq<int>) {
    forall i: nat, j: nat :: Differ(p, i, j)
  }

  ghost predicate Differ(p: seq<int>, i: nat, j: nat) {
    i < j < |p| ==> p[i] != p[j]
  }

  /** Byte `j` of segment `i` is at virtual position Upto(ss, b, i) + j. */
  lemma SegmentPlace(ss: seq<Segment>, b: bool, i: nat, j: nat)
    requires i < |ss| && Selected(ss[i], b) && j < ss[i].length
    ensures Upto(ss, b, i) + j < Total(ss, b)
    ensures Places(ss, b)[Upto(ss, b, i) + j] == ss[i].address + j
  {
    SegmentPlaceIn(ss, b, i, j, |ss|);
  }

  lemma {:induction false} SegmentPlaceIn(ss: seq<Segment>, b: bool, i: nat, j: nat, n: nat)
    requires i < n <= |ss| && Selected(ss[i], b) && j < ss[i].length
    ensures Upto(ss, b, i) + j < Upto(ss, b, n)
    ensures PlacesUpto(ss, b, n)[Upto(ss, b, i) + j] == ss[i].address + j
    decreases n
  {
    if i < n - 1 { SegmentPlaceIn(ss, b, i, j, n - 1); }
  }

  /** Every place lies in a segment of that direction. */
  lemma {:induction false} PlaceInSegment(ss: seq<Segment>, b: bool, n: nat, i: nat) returns (k: nat)
    requires n <= |ss| && i < Upto(ss, b, n)
    ensures k < n && Selected(ss[k], b) && In(PlacesUpto(ss, b, n)[i], ss[k].address, ss[k].length)
    decreases n
  {
    if i < Upto(ss, b, n - 1) {
      k := PlaceInSegment(ss, b, n - 1, i);
    } else {
      k := n - 1;
    }
  }

  /** Segments of the direction do not overlap. */
  ghost predicate Unaliased(ss: seq<Segment>, b: bool) {
    forall j, i :: 0 <= j < i < |ss| && Selected(ss[j], b) && Selected(ss[i], b) ==>
      !Meets(ss[j].address, ss[j].length, ss[i].address, ss[i].length)
  }

  lemma {:induction false} PlacesDistinct(ss: seq<Segment>, b: bool, n: nat)
    requires n <= |ss| && Unaliased(ss, b)
    ensures Distinct(PlacesUpto(ss, b, n))
    decreases n
  {
    if n > 0 {
      PlacesDistinct(ss, b, n - 1);
      var p, f, last := PlacesUpto(ss, b, n), PlacesUpto(ss, b, n - 1), ss[n - 1];
      forall i: nat, j: nat ensures Differ(p, i, j) {
        assert Differ(f, i, j);
        if i < |f| <= j < |p| {
          var k := PlaceInSegment(ss, b, n - 1, i);
          assert f[i] == p[i] && p[j] == last.address + (j - |f|);
          assert !Meets(ss[k].address, ss[k].length, last.address, last.length);
        }
      }
    }
  }

  /** The writable segments of a valid chain are pairwise disjoint, so the response area has no alias. */
  lemma ResponseUnaliased(l: Lane, w: Wire)
    requires l.index < |l.queues| && ValidWire(l, w)
    ensures Unaliased(w.segments, true) && Distinct(Places(w.segments, true))
  {
    forall j, i | 0 <= j < i < |w.segments| && Selected(w.segments[j], true) && Selected(w.segments[i], true)
      ensures !Meets(w.segments[j].address, w.segments[j].length, w.segments[i].address, w.segments[i].length)
    {
      assert PairOk(w, j, i);
    }
    PlacesDistinct(w.segments, true, |w.segments|);
  }

  /** A copy that went through: all the bytes, or the failing access. */
  datatype Outcome = Done | Failed | Short

  /** `bytes` is the part of the virtual string that starts at `offset`. */
  ghost predicate Gathered(m: Memory, ss: seq<Segment>, b: bool, offset: nat, bytes: seq<byte>) {
    forall j :: 0 <= j < |bytes| ==> At(m, ss, b, offset + j, bytes[j])
  }

  ghost predicate At(m: Memory, ss: seq<Segment>, b: bool, position: nat, value: byte) {
    position < Total(ss, b) && m(Places(ss, b)[position]) == value
  }

  /** One access of the copy extends what was gathered. */
  lemma GatherPart(m: Memory, ss: seq<Segment>, b: bool, offset: nat, bytes: seq<byte>, i: nat, off: nat, part: nat)
    requires i < |ss| && Selected(ss[i], b) && off + part <= ss[i].length
    requires Gathered(m, ss, b, offset, bytes) && Upto(ss, b, i) + off == offset + |bytes|
    ensures Gathered(m, ss, b, offset, bytes + ReadMem(m, ss[i].address + off, part))
  {
    var r := bytes + ReadMem(m, ss[i].address + off, part);
    forall j | 0 <= j < |r| ensures At(m, ss, b, offset + j, r[j]) {
      if j >= |bytes| { SegmentPlace(ss, b, i, off + (j - |bytes|)); }
    }
  }

  lemma GatheredNothing(m: Memory, ss: seq<Segment>, b: bool, offset: nat)
    ensures Gathered(m, ss, b, offset, [])
  {
  }

  /** What was gathered is a slice of the virtual string. */
  lemma GatheredIs(m: Memory, ss: seq<Segment>, b: bool, offset: nat, bytes: seq<byte>)
    requires Gathered(m, ss, b, offset, bytes) && bytes != []
    ensures offset + |bytes| <= Total(ss, b) && bytes == Gather(m, ss, b)[offset..offset + |bytes|]
  {
    assert At(m, ss, b, offset + (|bytes| - 1), bytes[|bytes| - 1]);
  }

  /** copy_data reading: `size` bytes of one direction from `offset`.
      `ok(k)` says whether the k-th access of the call succeeds. */
  method CopyOut(m: Memory, ss: seq<Segment>, b: bool, offset: nat, size: nat, ok: nat -> bool)
    returns (result: Outcome, bytes: seq<byte>)
    ensures result.Done? && size > 0 ==> offset + size <= Total(ss, b) && bytes == Gather(m, ss, b)[offset..offset + size]
    ensures result.Done? && size == 0 ==> bytes == []
    ensures result.Failed? ==> exists k :: !ok(k)
    ensures result.Short? ==> Total(ss, b) < offset + size
  {
    hide Gathered, Gather, Places;
    bytes := [];
    GatheredNothing(m, ss, b, offset);
    var off: nat, left: nat, k: nat, i: nat := offset, size, 0, 0;
    while i < |ss| && left > 0
      invariant 0 <= i <= |ss| && 0 <= left <= size && |bytes| == size - left
      invariant left > 0 ==> Upto(ss, b, i) + off == offset + |bytes|
      invariant Gathered(m, ss, b, offset, bytes)
      decreases |ss| - i
    {
      if !Selected(ss[i], b) {
      } else if off >= ss[i].length {
        off := off - ss[i].length;
      } else {
        var part := if ss[i].length - off > left then left else ss[i].length - off;
        if !ok(k) { return Failed, bytes; }
        GatherPart(m, ss, b, offset, bytes, i, off, part);
        bytes := bytes + ReadMem(m, ss[i].address + off, part);
        left, off, k := left - part, 0, k + 1;
      }
      i := i + 1;
    }
    if left > 0 {
      return Short, bytes;
    }
    if size > 0 { GatheredIs(m, ss, b, offset, bytes); }
    return Done, bytes;
  }

  // --------------------------------------------------------------- storing

  /** Address `x` is one of the `n` virtual positions from `offset`. */
  ghost predicate Covers(ss: seq<Segment>, b: bool, offset: nat, n: nat, x: int) {
    exists j :: offset <= j < offset + n && j < Total(ss, b) && Places(ss, b)[j] == x
  }

  /** `m'` is `m` with `bytes` stored at the virtual positions from `offset`, and nothing else changed. */
  ghost predicate Stored(m: Memory, m': Memory, ss: seq<Segment>, b: bool, offset: nat, bytes: seq<byte>) {
    && Gathered(m', ss, b, offset, bytes)
    && (forall x :: m'(x) != m(x) ==> Covers(ss, b, offset, |bytes|, x))
  }

  lemma StorePart(m: Memory, m': Memory, ss: seq<Segment>, b: bool, offset: nat, bytes: seq<byte>,
                  i: nat, off: nat, part: seq<byte>)
    requires Distinct(Places(ss, b))
    requires i < |ss| && Selected(ss[i], b) && off + |part| <= ss[i].length
    requires Stored(m, m', ss, b, offset, bytes) && Upto(ss, b, i) + off == offset + |bytes|
    ensures Stored(m, WriteMem(m', ss[i].address + off, part), ss, b, offset, bytes + part)
  {
    PartGathered(m', ss, b, offset, bytes, i, off, part);
    var m'' := WriteMem(m', ss[i].address + off, part);
    forall x | m''(x) != m(x) ensures Covers(ss, b, offset, |bytes + part|, x) {
      if m'(x) != m(x) {
        assert Covers(ss, b, offset, |bytes|, x);
      } else {
        PartCovers(ss, b, offset + |bytes|, i, off, |part|, x);
      }
    }
  }

  lemma PartGathered(m: Memory, ss: seq<Segment>, b: bool, offset: nat, bytes: seq<byte>,
                     i: nat, off: nat, part: seq<byte>)
    requires Distinct(Places(ss, b))
    requires i < |ss| && Selected(ss[i], b) && off + |part| <= ss[i].length
    requires Gathered(m, ss, b, offset, bytes) && Upto(ss, b, i) + off == offset + |bytes|
    ensures Gathered(WriteMem(m, ss[i].address + off, part), ss, b, offset, bytes + part)
  {
    var r := bytes + part;
    forall j | 0 <= j < |r| ensures At(WriteMem(m, ss[i].address + off, part), ss, b, offset + j, r[j]) {
      if j >= |bytes| {
        NewByte(m, ss, b, i, off, part, j - |bytes|);
      } else {
        assert At(m, ss, b, offset + j, bytes[j]);
        NotWithin(ss, b, offset + j, i, off, |part|);
      }
    }
  }

  lemma NewByte(m: Memory, ss: seq<Segment>, b: bool, i: nat, off: nat, part: seq<byte>, j: nat)
    requires i < |ss| && Selected(ss[i], b) && off + |part| <= ss[i].length && j < |part|
    ensures At(WriteMem(m, ss[i].address + off, part), ss, b, Upto(ss, b, i) + off + j, part[j])
  {
    SegmentPlace(ss, b, i, off + j);
  }

  lemma PartCovers(ss: seq<Segment>, b: bool, position: nat, i: nat, off: nat, n: nat, x: int)
    requires i < |ss| && Selected(ss[i], b) && off + n <= ss[i].length
    requires Upto(ss, b, i) + off == position && In(x, ss[i].address + off, n)
    ensures Covers(ss, b, position, n, x)
  {
    SegmentPlace(ss, b, i, x - ss[i].address);
    assert Places(ss, b)[position + (x - ss[i].address - off)] == x;
  }

  /** An earlier virtual position is not in the part of segment `i` that starts at `off`. */
  lemma NotWithin(ss: seq<Segment>, b: bool, position: nat, i: nat, off: nat, n: nat)
    requires Distinct(Places(ss, b)) && i < |ss| && Selected(ss[i], b) && off + n <= ss[i].length
    requires position < Total(ss, b) && position < Upto(ss, b, i) + off
    ensures !In(Places(ss, b)[position], ss[i].address + off, n)
  {
    var x := Places(ss, b)[position];
    var span := Span(ss[i].address + off, n);
    forall t | 0 <= t < n ensures x != span[t] {
      SegmentPlace(ss, b, i, off + t);
      assert Differ(Places(ss, b), position, Upto(ss, b, i) + (off + t));
    }
    SpanIsRange(x, ss[i].address + off, n);
  }

  /** copy_data writing: store `bytes` into one direction from `offset`. */
  method CopyIn(m: Memory, ss: seq<Segment>, b: bool, offset: nat, bytes: seq<byte>, ok: nat -> bool)
    returns (result: Outcome, m': Memory, ghost done: nat)
    requires Distinct(Places(ss, b))
    ensures done <= |bytes| && Stored(m, m', ss, b, offset, bytes[..done])
    ensures result.Done? ==> done == |bytes|
    ensures result.Failed? ==> exists k :: !ok(k)
    ensures result.Short? ==> Total(ss, b) < offset + |bytes|
  {
    hide WriteMem, Distinct, Places;
    m' := m;
    var off: nat, copied: nat, k: nat, i: nat := offset, 0, 0, 0;
    while i < |ss| && copied < |bytes|
      invariant 0 <= i <= |ss| && copied <= |bytes|
      invariant copied < |bytes| ==> Upto(ss, b, i) + off == offset + copied
      invariant Stored(m, m', ss, b, offset, bytes[..copied])
      decreases |ss| - i
    {
      if !Selected(ss[i], b) {
      } else if off >= ss[i].length {
        off := off - ss[i].length;
      } else {
        var n := if ss[i].length - off > |bytes| - copied then |bytes| - copied else ss[i].length - off;
        if !ok(k) { return Failed, m', copied; }
        var part := bytes[copied..copied + n];
        StorePart(m, m', ss, b, offset, bytes[..copied], i, off, part);
        assert bytes[..copied] + part == bytes[..copied + n];
        m' := WriteMem(m', ss[i].address + off, part);
        copied, off, k := copied + n, 0, k + 1;
      }
      i := i + 1;
    }
    if copied < |bytes| {
      return Short, m', copied;
    }
    return Done, m', copied;
  }

  /** Appending: after a store at `n`, the first `n + |bytes|` bytes are the old ones and then `bytes`. */
  lemma StoreAppends(m: Memory, m': Memory, ss: seq<Segment>, b: bool, n: nat, bytes: seq<byte>)
    requires Distinct(Places(ss, b)) && n + |bytes| <= Total(ss, b) && Stored(m, m', ss, b, n, bytes)
    ensures Gather(m', ss, b)[..n + |bytes|] == Gather(m, ss, b)[..n] + bytes
  {
    var p := Places(ss, b);
    forall j | 0 <= j < n + |bytes|
      ensures Gather(m', ss, b)[j] == (Gather(m, ss, b)[..n] + bytes)[j]
    {
      if j >= n { assert At(m', ss, b, n + (j - n), bytes[j - n]); }
      else {
        forall k | n <= k < n + |bytes| ensures p[k] != p[j] { assert Differ(p, j, k); }
        assert !Covers(ss, b, n, |bytes|, p[j]);
      }
    }
  }

  /** The memory after a store at the virtual positions from `offset`. */
  function Scatter(m: Memory, ss: seq<Segment>, b: bool, offset: nat, bytes: seq<byte>): Memory
    requires offset + |bytes| <= Total(ss, b)
    decreases |bytes|
  {
    if bytes == [] then m else
    var n := |bytes| - 1;
    WriteMem(Scatter(m, ss, b, offset, bytes[..n]), Places(ss, b)[offset + n], [bytes[n]])
  }

  lemma {:induction false} ScatterStores(m: Memory, ss: seq<Segment>, b: bool, offset: nat, bytes: seq<byte>)
    requires offset + |bytes| <= Total(ss, b) && Distinct(Places(ss, b))
    ensures Stored(m, Scatter(m, ss, b, offset, bytes), ss, b, offset, bytes)
    decreases |bytes|
  {
    if bytes != [] {
      var n := |bytes| - 1;
      var m1, p := Scatter(m, ss, b, offset, bytes[..n]), Places(ss, b);
      ScatterStores(m, ss, b, offset, bytes[..n]);
      var m2 := Scatter(m, ss, b, offset, bytes);
      forall j | 0 <= j < |bytes| ensures At(m2, ss, b, offset + j, bytes[j]) {
        if j < n {
          assert At(m1, ss, b, offset + j, bytes[..n][j]);
          assert Differ(p, offset + j, offset + n);
        }
      }
      forall x | m2(x) != m(x) ensures Covers(ss, b, offset, |bytes|, x) {
        if x == p[offset + n] { assert Covers(ss, b, offset, |bytes|, p[offset + n]); }
        else { assert Covers(ss, b, offset, n, x); }
      }
    }
  }
}
