/** Descriptor chains of one lane: what makes a chain valid, which memory it may touch,
    and the checks the queue engine runs before it takes ownership of one.
 */
module Chains {
  import opened Bytes
  import opened Ranges
  import opened Channel

  const DESC_SIZE: nat := 16

  /** One lane of an admitted channel. `policy` is the host's payload authorization,
      immutable and the same at both endpoints. */
  datatype Lane = Lane(
    identity: Identity, queues: seq<Queue>, regions: seq<Region>, index: nat,
    policy: (u32, u64, u64, bv32) -> bool)
  {
    ghost predicate Valid() {
      ChannelValid(identity, queues, regions) && index < |queues|
    }
    function Queue(): Queue
      requires index < |queues|
    {
      queues[index]
    }
  }

  lemma LaneQueueOk(l: Lane)
    requires l.Valid()
    ensures QueueFieldsOk(l.Queue())
  {
    assert QueueFits(l.queues, l.regions, l.index);
  }

  datatype Segment = Segment(address: u64, length: u32, descriptor: u16, writable: u16)

  /** The part of a chain that is shared through descriptors. */
  datatype Wire = Wire(
    head: u16, segments: seq<Segment>,
    indirect: u64, indirectLength: u32, indirectDescriptor: u16, indirectFirst: nat)

  datatype ChainState = Free | Submitted | Accepted | Returned

  datatype Chain = Chain(
    wire: Wire, capacity: nat,
    readable: nat, writable: nat, written: nat, usedLength: nat, state: ChainState)

  /** An entry of the slot table. `handle` names the caller's chain object. */
  datatype Slot = Empty | Held(handle: nat, chain: Chain)

  // ----------------------------------------------------------- payload ranges

  /** The range shares no byte with any ring of any lane. */
  ghost predicate ClearOfRings(qs: seq<Queue>, a: int, n: int) {
    forall i, r :: 0 <= i < |qs| ==> !Meets(a, n, RingBase(qs[i], r), RingLength(qs[i], r))
  }

  ghost predicate PayloadAllowed(l: Lane, a: u64, n: u64, need: bv32)
    requires l.index < |l.queues|
  {
    n == 0 ||
    (Covered(a, n, need, l.regions) && ClearOfRings(l.queues, a, n) && l.policy(l.Queue().id, a, n, need))
  }

  method PayloadRange(l: Lane, a: u64, n: u64, need: bv32) returns (ok: bool)
    requires l.Valid()
    ensures ok <==> PayloadAllowed(l, a, n, need)
  {
    if n == 0 { return true; }
    if !RangeValid(a, n) { return false; }
    var found := false;
    for i := 0 to |l.regions|
      invariant found <==> exists j :: 0 <= j < i && Covers(l.regions[j], a, n, need)
    {
      var r := l.regions[i];
      assert RegionFits(l.regions, i);
      if a >= r.base && Sum64(a, n) <= Sum64(r.base, r.length) && HasRights(r.rights, need) {
        assert Covers(l.regions[i], a, n, need);
        found := true;
      }
    }
    if !found { return false; }
    for i := 0 to |l.queues|
      invariant forall j, r :: 0 <= j < i ==> !Meets(a, n, RingBase(l.queues[j], r), RingLength(l.queues[j], r))
    {
      var q := l.queues[i];
      for k := 0 to 3
        invariant forall m :: 0 <= m < k ==> !Meets(a, n, RingBase(q, RINGS[m]), RingLength(q, RINGS[m]))
      {
        assert QueueFits(l.queues, l.regions, i);
        OverlapNonEmptyIsExact(a, n, RingBase(q, RINGS[k]), RingLength(q, RINGS[k]));
        if OverlapNonEmpty64(a, n, RingBase(q, RINGS[k]), RingLength(q, RINGS[k])) {
          assert !ClearOfRings(l.queues, a, n);
          return false;
        }
      }
      forall r: Ring ensures !Meets(a, n, RingBase(q, r), RingLength(q, r)) {
        assert r == RINGS[Position(r)];
      }
    }
    return l.policy(l.Queue().id, a, n, need);
  }

  // ----------------------------------------------------------- chain shape

  /** Segments described by the main table; the rest are in the indirect table. */
  function Direct(w: Wire): nat {
    if w.indirectLength != 0 then w.indirectFirst else |w.segments|
  }

  function Need(s: Segment): bv32 {
    if s.writable != 0 then RIGHT_WRITE else RIGHT_READ
  }

  /** A range allowed for a segment lies in one region, with the read bit or the write bit the segment needs. */
  lemma NeedMeans(l: Lane, s: Segment) returns (k: nat)
    requires l.index < |l.queues| && s.length > 0 && PayloadAllowed(l, s.address, s.length, Need(s))
    ensures k < |l.regions| && Inside(s.address, s.length, l.regions[k].base, l.regions[k].length)
    ensures if s.writable != 0 then l.regions[k].rights & 2 != 0 else l.regions[k].rights & 1 != 0
  {
    k :| 0 <= k < |l.regions| && Covers(l.regions[k], s.address, s.length, Need(s));
    RightsMean(l.regions[k].rights);
    hide HasRights;
  }

  ghost predicate IndirectOk(l: Lane, w: Wire)
    requires l.index < |l.queues|
  {
    if w.indirectLength == 0 then
      w.indirect == 0 && w.indirectFirst == 0 && w.indirectDescriptor == 0
    else
      && w.indirect % DESC_SIZE == 0 && w.indirectLength % DESC_SIZE == 0
      && w.indirectLength / DESC_SIZE <= l.Queue().maxIndirect
      && w.indirectFirst < |w.segments|
      && w.indirectDescriptor < l.Queue().size
      && w.segments[w.indirectFirst].descriptor == 0
      && PayloadAllowed(l, w.indirect, w.indirectLength, RIGHT_READ)
  }

  ghost predicate SegmentOk(l: Lane, w: Wire, i: nat)
    requires l.index < |l.queues| && i < |w.segments|
  {
    var s := w.segments[i];
    && s.writable <= 1
    && PayloadAllowed(l, s.address, s.length, Need(s))
    && !Meets(s.address, s.length, w.indirect, w.indirectLength)
    && if i >= Direct(w) then s.descriptor < w.indirectLength / DESC_SIZE
       else s.descriptor < l.Queue().size && (w.indirectLength != 0 ==> s.descriptor != w.indirectDescriptor)
  }

  /** Every nonempty segment of an admissible chain lies in one region that may be used the way the device will. */
  lemma SegmentRights(l: Lane, w: Wire, i: nat) returns (k: nat)
    requires l.index < |l.queues| && ValidWire(l, w) && i < |w.segments| && w.segments[i].length > 0
    ensures var s := w.segments[i];
            && k < |l.regions| && Inside(s.address, s.length, l.regions[k].base, l.regions[k].length)
            && (if s.writable != 0 then l.regions[k].rights & 2 != 0 else l.regions[k].rights & 1 != 0)
  {
    assert SegmentOk(l, w, i);
    hide PayloadAllowed, Need;
    k := NeedMeans(l, w.segments[i]);
  }

  predicate SegmentsApart(s: Segment, t: Segment) {
    (s.writable == 0 && t.writable == 0) || !Meets(s.address, s.length, t.address, t.length)
  }

  /** Readable segments come first; no table entry is used twice; nothing writable is aliased. */
  predicate PairOk(w: Wire, j: nat, i: nat)
    requires j < i < |w.segments|
  {
    var s, p := w.segments[i], w.segments[j];
    && (p.writable != 0 ==> s.writable != 0)
    && !((j >= Direct(w)) == (i >= Direct(w)) && s.descriptor == p.descriptor)
    && SegmentsApart(s, p)
  }

  predicate Selected(s: Segment, writable: bool) {
    (s.writable != 0) == writable
  }

  /** Bytes of one direction in the first `n` segments. */
  function Upto(ss: seq<Segment>, writable: bool, n: nat): (t: nat)
    requires n <= |ss|
    ensures t <= n * U32
  {
    if n == 0 then 0 else Upto(ss, writable, n - 1) + if Selected(ss[n - 1], writable) then ss[n - 1].length else 0
  }

  /** Bytes of one direction. */
  function Total(ss: seq<Segment>, writable: bool): (t: nat)
    ensures t <= |ss| * U32
  {
    Upto(ss, writable, |ss|)
  }

  predicate TotalsOk(l: Lane, w: Wire)
    requires l.index < |l.queues|
  {
    && Total(w.segments, true) != 0
    && (l.Queue().role == ROLE_REQUEST <==> Total(w.segments, false) != 0)
  }

  ghost predicate ValidWire(l: Lane, w: Wire)
    requires l.index < |l.queues|
  {
    && 0 < |w.segments| <= l.Queue().maxChain && w.head < l.Queue().size
    && IndirectOk(l, w)
    && w.head == (if Direct(w) != 0 then w.segments[0].descriptor else w.indirectDescriptor)
    && (forall i :: 0 <= i < |w.segments| ==> SegmentOk(l, w, i))
    && (forall j, i :: 0 <= j < i < |w.segments| ==> PairOk(w, j, i))
    && TotalsOk(l, w)
  }

  /** The chain occupies main-table descriptor `d`. */
  predicate Uses(w: Wire, d: nat) {
    (w.indirectLength != 0 && d == w.indirectDescriptor)
    || exists i :: 0 <= i < Direct(w) && i < |w.segments| && w.segments[i].descriptor == d
  }

  // ----------------------------------------------------------- two chains

  /** The chains share no byte that either side may write, and no table byte at all. */
  predicate WiresApart(a: Wire, b: Wire) {
    && !Meets(a.indirect, a.indirectLength, b.indirect, b.indirectLength)
    && (forall i :: 0 <= i < |a.segments| ==> OffTable(a.segments[i], b))
    && (forall j :: 0 <= j < |b.segments| ==> OffTable(b.segments[j], a))
    && (forall i, j :: 0 <= i < |a.segments| && 0 <= j < |b.segments| ==> SegmentsApart(a.segments[i], b.segments[j]))
  }

  predicate OffTable(s: Segment, w: Wire) {
    !Meets(s.address, s.length, w.indirect, w.indirectLength)
  }

  lemma WiresApartSymmetric(a: Wire, b: Wire)
    requires WiresApart(a, b)
    ensures WiresApart(b, a)
  {
    forall i, j | 0 <= i < |b.segments| && 0 <= j < |a.segments| ensures SegmentsApart(b.segments[i], a.segments[j]) {
      assert SegmentsApart(a.segments[j], b.segments[i]);
    }
  }

  /** The ranges of a chain do not wrap, so 64-bit overlap tests on them are exact. */
  ghost predicate RangesOk(w: Wire) {
    && (w.indirectLength == 0 || RangeValid(w.indirect, w.indirectLength))
    && forall i :: 0 <= i < |w.segments| ==> w.segments[i].length == 0 || RangeValid(w.segments[i].address, w.segments[i].length)
  }

  lemma ValidRanges(l: Lane, w: Wire)
    requires l.index < |l.queues| && ValidWire(l, w)
    ensures RangesOk(w)
  {
    forall i | 0 <= i < |w.segments|
      ensures w.segments[i].length == 0 || RangeValid(w.segments[i].address, w.segments[i].length)
    {
      assert SegmentOk(l, w, i);
    }
  }

  method ChainsOverlap(a: Wire, b: Wire) returns (overlap: bool)
    requires RangesOk(a) && RangesOk(b)
    ensures overlap <==> !WiresApart(a, b)
  {
    OverlapNonEmptyIsExact(a.indirect, a.indirectLength, b.indirect, b.indirectLength);
    if OverlapNonEmpty64(a.indirect, a.indirectLength, b.indirect, b.indirectLength) { return true; }
    for i := 0 to |a.segments|
      invariant forall k :: 0 <= k < i ==> OffTable(a.segments[k], b)
      invariant forall k, j :: 0 <= k < i && 0 <= j < |b.segments| ==> SegmentsApart(a.segments[k], b.segments[j])
    {
      var left := a.segments[i];
      OverlapNonEmptyIsExact(left.address, left.length, b.indirect, b.indirectLength);
      if OverlapNonEmpty64(left.address, left.length, b.indirect, b.indirectLength) { return true; }
      for j := 0 to |b.segments|
        invariant forall k :: 0 <= k < j ==> SegmentsApart(left, b.segments[k])
      {
        var right := b.segments[j];
        OverlapNonEmptyIsExact(left.address, left.length, right.address, right.length);
        if (left.writable != 0 || right.writable != 0)
           && OverlapNonEmpty64(left.address, left.length, right.address, right.length) {
          assert !SegmentsApart(a.segments[i], b.segments[j]);
          return true;
        }
      }
    }
    for i := 0 to |b.segments|
      invariant forall k :: 0 <= k < i ==> OffTable(b.segments[k], a)
    {
      var s := b.segments[i];
      OverlapNonEmptyIsExact(a.indirect, a.indirectLength, s.address, s.length);
      if OverlapNonEmpty64(a.indirect, a.indirectLength, s.address, s.length) {
        assert !OffTable(b.segments[i], a);
        return true;
      }
    }
    return false;
  }

  // ----------------------------------------------------------- admission

  ghost predicate DescriptorsFree(owner: seq<u16>, w: Wire) {
    forall d: nat :: Uses(w, d) ==> d < |owner| && owner[d] == 0
  }

  /** Nothing the chain needs is in use: its slot, its main descriptors, its memory. */
  ghost predicate Unclaimed(slots: seq<Slot>, owner: seq<u16>, w: Wire) {
    && w.head < |slots| && slots[w.head].Empty?
    && DescriptorsFree(owner, w)
    && (forall h :: 0 <= h < |slots| && slots[h].Held? ==> WiresApart(w, slots[h].chain.wire))
  }

  ghost predicate Admissible(l: Lane, slots: seq<Slot>, owner: seq<u16>, w: Wire, capacity: nat)
    requires l.index < |l.queues|
  {
    ValidWire(l, w) && |w.segments| <= capacity && Unclaimed(slots, owner, w)
  }

  /** What one pass of the segment loop checks. */
  ghost predicate SegmentFits(l: Lane, owner: seq<u16>, w: Wire, i: nat)
    requires l.index < |l.queues| && i < |w.segments|
  {
    && SegmentOk(l, w, i)
    && (forall j :: 0 <= j < i ==> PairOk(w, j, i))
    && (i < Direct(w) ==> w.segments[i].descriptor < |owner| && owner[w.segments[i].descriptor] == 0)
  }

  ghost predicate SegmentsFit(l: Lane, owner: seq<u16>, w: Wire)
    requires l.index < |l.queues|
  {
    forall i :: 0 <= i < |w.segments| ==> SegmentFits(l, owner, w, i)
  }

  predicate AnyWritable(ss: seq<Segment>, n: nat)
    requires n <= |ss|
  {
    exists j :: 0 <= j < n && ss[j].writable != 0
  }

  method CheckSegment(l: Lane, owner: seq<u16>, w: Wire, i: nat, seenWritable: bool) returns (ok: bool)
    requires l.Valid() && |owner| == l.Queue().size && i < |w.segments|
    requires w.indirectLength == 0 || RangeValid(w.indirect, w.indirectLength)
    requires forall j :: 0 <= j < i ==> SegmentFits(l, owner, w, j)
    requires seenWritable <==> AnyWritable(w.segments, i)
    ensures ok <==> SegmentFits(l, owner, w, i)
  {
    var s := w.segments[i];
    var inTable := i >= Direct(w);
    if s.writable > 1 { return false; }
    if s.writable == 0 && seenWritable {
      var j :| 0 <= j < i && w.segments[j].writable != 0;
      assert !PairOk(w, j, i);
      return false;
    }
    var allowed := PayloadRange(l, s.address, s.length, Need(s));
    if !allowed { return false; }
    OverlapNonEmptyIsExact(s.address, s.length, w.indirect, w.indirectLength);
    if OverlapNonEmpty64(s.address, s.length, w.indirect, w.indirectLength) { return false; }
    if inTable {
      if s.descriptor >= w.indirectLength / DESC_SIZE { return false; }
    } else if s.descriptor >= l.Queue().size || owner[s.descriptor] != 0
              || (w.indirectLength != 0 && s.descriptor == w.indirectDescriptor) {
      return false;
    }
    for j := 0 to i
      invariant forall k :: 0 <= k < j ==> PairOk(w, k, i)
    {
      var previous := w.segments[j];
      assert SegmentFits(l, owner, w, j);
      OverlapNonEmptyIsExact(s.address, s.length, previous.address, previous.length);
      if ((j >= Direct(w)) == inTable && s.descriptor == previous.descriptor)
         || ((s.writable != 0 || previous.writable != 0)
             && OverlapNonEmpty64(s.address, s.length, previous.address, previous.length)) {
        assert !PairOk(w, j, i);
        return false;
      }
    }
    return true;
  }

  lemma UsedAreFree(l: Lane, owner: seq<u16>, w: Wire)
    requires l.index < |l.queues| && |owner| == l.Queue().size && IndirectOk(l, w)
    requires w.indirectLength != 0 ==> owner[w.indirectDescriptor] == 0
    requires SegmentsFit(l, owner, w)
    ensures DescriptorsFree(owner, w)
  {
    forall d: nat | Uses(w, d) ensures d < |owner| && owner[d] == 0 {
      if !(w.indirectLength != 0 && d == w.indirectDescriptor) {
        var i :| 0 <= i < Direct(w) && i < |w.segments| && w.segments[i].descriptor == d;
        assert SegmentFits(l, owner, w, i);
      }
    }
  }

  /** What is checked before the segments are walked. */
  ghost predicate HeaderOk(l: Lane, slots: seq<Slot>, owner: seq<u16>, w: Wire, capacity: nat)
    requires l.index < |l.queues| && |slots| == |owner| == l.Queue().size
  {
    && 0 < |w.segments| <= l.Queue().maxChain && |w.segments| <= capacity
    && w.head < l.Queue().size && slots[w.head].Empty? && owner[w.head] == 0
    && IndirectOk(l, w)
    && (w.indirectLength != 0 ==> owner[w.indirectDescriptor] == 0)
    && w.head == (if Direct(w) != 0 then w.segments[0].descriptor else w.indirectDescriptor)
  }

  method CheckHeader(l: Lane, slots: seq<Slot>, owner: seq<u16>, w: Wire, capacity: nat) returns (ok: bool)
    requires l.Valid() && |slots| == |owner| == l.Queue().size
    ensures ok <==> HeaderOk(l, slots, owner, w, capacity)
  {
    var q := l.Queue();
    if |w.segments| == 0 || |w.segments| > capacity || |w.segments| > q.maxChain || w.head >= q.size
       || slots[w.head].Held? || owner[w.head] != 0 { return false; }
    if w.indirectLength != 0 {
      var allowed := PayloadRange(l, w.indirect, w.indirectLength, RIGHT_READ);
      if w.indirect % DESC_SIZE != 0 || w.indirectLength % DESC_SIZE != 0
         || w.indirectLength / DESC_SIZE > q.maxIndirect || Direct(w) >= |w.segments|
         || w.indirectDescriptor >= q.size || owner[w.indirectDescriptor] != 0
         || w.segments[Direct(w)].descriptor != 0 || !allowed { return false; }
    } else if w.indirect != 0 || w.indirectFirst != 0 || w.indirectDescriptor != 0 { return false; }
    return w.head == (if Direct(w) != 0 then w.segments[0].descriptor else w.indirectDescriptor);
  }

  method CheckSegments(l: Lane, owner: seq<u16>, w: Wire) returns (ok: bool, readable: u64, writable: u64)
    requires l.Valid() && |owner| == l.Queue().size && |w.segments| <= l.Queue().maxChain
    requires w.indirectLength == 0 || RangeValid(w.indirect, w.indirectLength)
    ensures ok <==> SegmentsFit(l, owner, w)
    ensures ok ==> readable == Total(w.segments, false) && writable == Total(w.segments, true)
  {
    readable, writable := 0, 0;
    var seenWritable := false;
    for i := 0 to |w.segments|
      invariant forall k :: 0 <= k < i ==> SegmentFits(l, owner, w, k)
      invariant seenWritable <==> AnyWritable(w.segments, i)
      invariant readable == Upto(w.segments, false, i) && writable == Upto(w.segments, true, i)
    {
      var fits := CheckSegment(l, owner, w, i, seenWritable);
      if !fits { return false, 0, 0; }
      seenWritable := seenWritable || w.segments[i].writable != 0;
      readable, writable := AddLength(l, w, i, readable, writable);
    }
    ok := true;
  }

  /** The running totals stay far below the 64-bit limit. */
  method AddLength(l: Lane, w: Wire, i: nat, readable: u64, writable: u64) returns (readable': u64, writable': u64)
    requires l.Valid() && i < |w.segments| <= l.Queue().maxChain
    requires readable == Upto(w.segments, false, i) && writable == Upto(w.segments, true, i)
    ensures readable' == Upto(w.segments, false, i + 1) && writable' == Upto(w.segments, true, i + 1)
  {
    LaneQueueOk(l);
    readable', writable' := readable, writable;
    if w.segments[i].writable != 0 {
      writable' := Sum64(writable, w.segments[i].length);
    } else {
      readable' := Sum64(readable, w.segments[i].length);
    }
  }

  method CheckOwned(l: Lane, slots: seq<Slot>, w: Wire) returns (ok: bool)
    requires l.Valid() && |slots| == l.Queue().size && ValidWire(l, w)
    requires forall h :: 0 <= h < |slots| && slots[h].Held? ==> ValidWire(l, slots[h].chain.wire)
    ensures ok <==> forall h :: 0 <= h < |slots| && slots[h].Held? ==> WiresApart(w, slots[h].chain.wire)
  {
    ValidRanges(l, w);
    for h := 0 to l.Queue().size
      invariant forall k :: 0 <= k < h && slots[k].Held? ==> WiresApart(w, slots[k].chain.wire)
    {
      if slots[h].Held? {
        ValidRanges(l, slots[h].chain.wire);
        var overlap := ChainsOverlap(w, slots[h].chain.wire);
        if overlap { return false; }
      }
    }
    return true;
  }

  /** validate_chain: no shared write happens before this has accepted the whole chain. */
  method ValidateChain(l: Lane, slots: seq<Slot>, owner: seq<u16>, w: Wire, capacity: nat)
    returns (ok: bool, readable: u64, writable: u64)
    requires l.Valid() && |slots| == |owner| == l.Queue().size
    requires forall h :: 0 <= h < |slots| && slots[h].Held? ==> ValidWire(l, slots[h].chain.wire)
    ensures ok <==> Admissible(l, slots, owner, w, capacity)
    ensures ok ==> readable == Total(w.segments, false) && writable == Total(w.segments, true)
  {
    AdmissibleParts(l, slots, owner, w, capacity);
    readable, writable := 0, 0;
    ok := CheckHeader(l, slots, owner, w, capacity);
    if !ok { return; }
    ok, readable, writable := CheckSegments(l, owner, w);
    if !ok { return; }
    if writable == 0 || (if l.Queue().role == ROLE_REQUEST then readable == 0 else readable != 0) {
      ok := false;
      return;
    }
    ok := CheckOwned(l, slots, w);
  }

  lemma AdmissibleParts(l: Lane, slots: seq<Slot>, owner: seq<u16>, w: Wire, capacity: nat)
    requires l.index < |l.queues| && |slots| == |owner| == l.Queue().size
    ensures Admissible(l, slots, owner, w, capacity) <==>
            && HeaderOk(l, slots, owner, w, capacity)
            && SegmentsFit(l, owner, w)
            && TotalsOk(l, w)
            && (forall h :: 0 <= h < |slots| && slots[h].Held? ==> WiresApart(w, slots[h].chain.wire))
    ensures HeaderOk(l, slots, owner, w, capacity) && SegmentsFit(l, owner, w) && TotalsOk(l, w) ==> ValidWire(l, w)
  {
    if Admissible(l, slots, owner, w, capacity) {
      assert Uses(w, w.head);
      assert w.indirectLength != 0 ==> Uses(w, w.indirectDescriptor);
      forall i | 0 <= i < |w.segments| ensures SegmentFits(l, owner, w, i) {
        assert i < Direct(w) ==> Uses(w, w.segments[i].descriptor);
      }
    }
    if HeaderOk(l, slots, owner, w, capacity) && SegmentsFit(l, owner, w) && TotalsOk(l, w) {
      forall i | 0 <= i < |w.segments| ensures SegmentOk(l, w, i) { assert SegmentFits(l, owner, w, i); }
      forall j, i | 0 <= j < i < |w.segments| ensures PairOk(w, j, i) { assert SegmentFits(l, owner, w, i); }
      UsedAreFree(l, owner, w);
    }
  }
}
