/** Which bytes of shared memory belong to whom: the descriptor records and segments of a
    chain, the entries and words of the rings, and why a store to one leaves the others alone.
 */
module Footprint {
  import opened Bytes
  import opened Ranges
  import opened Channel
  import opened Chains
  import opened Descriptors
  import opened ScatterGather

  ghost predicate InRing(q: Queue, r: Ring, x: int) {
    In(x, RingBase(q, r), RingLength(q, r))
  }

  ghost predicate InMain(q: Queue, d: nat, x: int) {
    In(x, q.descriptors + d * DESC_SIZE, DESC_SIZE)
  }

  ghost predicate InTable(w: Wire, x: int) {
    In(x, w.indirect, w.indirectLength)
  }

  ghost predicate OnSegment(ss: seq<Segment>, b: bool, x: int) {
    exists i :: 0 <= i < |ss| && Selected(ss[i], b) && In(x, ss[i].address, ss[i].length)
  }

  ghost predicate OnRecord(q: Queue, w: Wire, x: int)
    requires Direct(w) <= |w.segments|
  {
    exists k :: 0 <= k < RecordCount(w) && In(x, RecordAt(q, w, k).at, DESC_SIZE)
  }

  /** Outside every ring of the lane. */
  ghost predicate OffRings(q: Queue, x: int) {
    forall r: Ring :: !InRing(q, r, x)
  }

  // ------------------------------------------------------------- placement

  lemma RingsDisjoint(l: Lane, r: Ring, s: Ring, x: int)
    requires l.Valid() && r != s && InRing(l.Queue(), r, x)
    ensures !InRing(l.Queue(), s, x)
  {
    assert QueueFits(l.queues, l.regions, l.index);
    assert RingsApart(l.Queue(), r, l.Queue(), s);
  }

  lemma PayloadOffRings(l: Lane, a: int, n: int, x: int)
    requires l.Valid() && ClearOfRings(l.queues, a, n) && In(x, a, n)
    ensures OffRings(l.Queue(), x)
  {
    assert QueueFits(l.queues, l.regions, l.index);
    forall r: Ring ensures !InRing(l.Queue(), r, x) {
      assert !Meets(a, n, RingBase(l.queues[l.index], r), RingLength(l.queues[l.index], r));
    }
  }

  lemma TableOffRings(l: Lane, w: Wire, x: int)
    requires l.Valid() && ValidWire(l, w) && InTable(w, x)
    ensures OffRings(l.Queue(), x)
  {
    PayloadOffRings(l, w.indirect, w.indirectLength, x);
  }

  lemma SegmentOffRings(l: Lane, w: Wire, b: bool, x: int)
    requires l.Valid() && ValidWire(l, w) && OnSegment(w.segments, b, x)
    ensures OffRings(l.Queue(), x)
  {
    var i :| 0 <= i < |w.segments| && Selected(w.segments[i], b) && In(x, w.segments[i].address, w.segments[i].length);
    assert SegmentOk(l, w, i);
    PayloadOffRings(l, w.segments[i].address, w.segments[i].length, x);
  }

  lemma MainInRing(q: Queue, d: nat, x: int)
    requires d < q.size && InMain(q, d, x)
    ensures InRing(q, Descriptors, x)
  {
  }

  /** A record is a main descriptor of the chain or an entry of its indirect table. */
  lemma RecordPlace(l: Lane, w: Wire, k: nat, x: int)
    requires l.Valid() && ValidWire(l, w) && k < RecordCount(w)
    requires In(x, RecordAt(l.Queue(), w, k).at, DESC_SIZE)
    ensures InTable(w, x) || exists d: nat :: Uses(w, d) && d < l.Queue().size && InMain(l.Queue(), d, x)
  {
    if w.indirectLength != 0 && k == Direct(w) {
      assert Uses(w, w.indirectDescriptor) && InMain(l.Queue(), w.indirectDescriptor, x);
    } else {
      var i := if w.indirectLength == 0 || k < Direct(w) then k else k - 1;
      assert SegmentOk(l, w, i);
      if i < Direct(w) {
        assert Uses(w, w.segments[i].descriptor) && InMain(l.Queue(), w.segments[i].descriptor, x);
      } else {
        EntryInTable(w, w.segments[i].descriptor, x);
      }
    }
  }

  lemma EntryInTable(w: Wire, d: nat, x: int)
    requires d < w.indirectLength / DESC_SIZE && In(x, w.indirect + d * DESC_SIZE, DESC_SIZE)
    ensures InTable(w, x)
  {
  }

  // ---------------------------------------------------------------- frames

  lemma LaidKept(m: Memory, m': Memory, q: Queue, w: Wire)
    requires Direct(w) <= |w.segments| && Laid(m, q, w)
    requires forall x :: OnRecord(q, w, x) ==> m'(x) == m(x)
    ensures Laid(m', q, w)
  {
    forall k | 0 <= k < RecordCount(w) ensures LaidAt(m', q, w, k) {
      assert LaidAt(m, q, w, k);
      var r := RecordAt(q, w, k);
      forall x | r.at <= x < r.at + DESC_SIZE ensures m'(x) == m(x) {
        assert In(x, RecordAt(q, w, k).at, DESC_SIZE);
        assert OnRecord(q, w, x);
      }
      ReadSame(m, m', r.at, DESC_SIZE);
    }
  }

  lemma GatherKept(m: Memory, m': Memory, ss: seq<Segment>, b: bool)
    requires forall x :: OnSegment(ss, b, x) ==> m'(x) == m(x)
    ensures Gather(m', ss, b) == Gather(m, ss, b)
  {
    forall i | 0 <= i < Total(ss, b) ensures Gather(m', ss, b)[i] == Gather(m, ss, b)[i] {
      var k := PlaceInSegment(ss, b, |ss|, i);
      assert OnSegment(ss, b, Places(ss, b)[i]);
    }
  }

  lemma HoldsKept(m: Memory, m': Memory, a: int, s: seq<byte>)
    requires Holds(m, a, s)
    requires forall x :: In(x, a, |s|) ==> m'(x) == m(x)
    ensures Holds(m', a, s)
  {
    ReadSame(m, m', a, |s|);
  }

  // ------------------------------------------------------ chains and stores

  /** The chain's records and segments are the same in both memories. */
  ghost predicate Spared(m: Memory, m': Memory, q: Queue, w: Wire)
    requires Direct(w) <= |w.segments|
  {
    && (forall x :: OnRecord(q, w, x) ==> m'(x) == m(x))
    && (forall x :: OnSegment(w.segments, false, x) ==> m'(x) == m(x))
    && (forall x :: OnSegment(w.segments, true, x) ==> m'(x) == m(x))
  }

  /** A store into the available or used ring spares every chain. */
  lemma RingStoreSpares(l: Lane, w: Wire, m: Memory, a: int, s: seq<byte>, r: Ring)
    requires l.Valid() && ValidWire(l, w) && r != Descriptors
    requires Inside(a, |s|, RingBase(l.Queue(), r), RingLength(l.Queue(), r))
    ensures Spared(m, WriteMem(m, a, s), l.Queue(), w)
  {
    var q, m' := l.Queue(), WriteMem(m, a, s);
    forall x | OnRecord(q, w, x) ensures m'(x) == m(x) {
      var k :| 0 <= k < RecordCount(w) && In(x, RecordAt(q, w, k).at, DESC_SIZE);
      RecordOffRing(l, w, k, r, x);
    }
    forall b, x | OnSegment(w.segments, b, x) ensures m'(x) == m(x) {
      SegmentOffRings(l, w, b, x);
      assert !InRing(q, r, x);
    }
  }

  lemma RecordOffRing(l: Lane, w: Wire, k: nat, r: Ring, x: int)
    requires l.Valid() && ValidWire(l, w) && r != Descriptors && k < RecordCount(w)
    requires In(x, RecordAt(l.Queue(), w, k).at, DESC_SIZE)
    ensures !InRing(l.Queue(), r, x)
  {
    RecordPlace(l, w, k, x);
    if InTable(w, x) {
      TableOffRings(l, w, x);
    } else {
      var d: nat :| Uses(w, d) && d < l.Queue().size && InMain(l.Queue(), d, x);
      MainInRing(l.Queue(), d, x);
      RingsDisjoint(l, Descriptors, r, x);
    }
  }

  /** The two chains share no main descriptor and no conflicting memory. */
  ghost predicate Separate(v: Wire, w: Wire) {
    WiresApart(v, w) && forall d: nat :: Uses(v, d) ==> !Uses(w, d)
  }

  /** Writing a record of one chain spares every separate chain. */
  lemma RecordStoreSpares(l: Lane, v: Wire, k: nat, w: Wire, m: Memory, s: seq<byte>)
    requires l.Valid() && ValidWire(l, v) && ValidWire(l, w) && k < RecordCount(v) && Separate(v, w)
    requires |s| == DESC_SIZE
    ensures Spared(m, WriteMem(m, RecordAt(l.Queue(), v, k).at, s), l.Queue(), w)
  {
    var q := l.Queue();
    var at := RecordAt(q, v, k).at;
    var m' := WriteMem(m, at, s);
    forall x | OnRecord(q, w, x) ensures m'(x) == m(x) {
      var j :| 0 <= j < RecordCount(w) && In(x, RecordAt(q, w, j).at, DESC_SIZE);
      if In(x, at, DESC_SIZE) { RecordsDisjoint(l, v, k, w, j, x); }
    }
    forall b, x | OnSegment(w.segments, b, x) ensures m'(x) == m(x) {
      if In(x, at, DESC_SIZE) { RecordOffSegment(l, v, k, w, b, x); }
    }
  }

  lemma RecordsDisjoint(l: Lane, v: Wire, k: nat, w: Wire, j: nat, x: int)
    requires l.Valid() && ValidWire(l, v) && ValidWire(l, w) && Separate(v, w)
    requires k < RecordCount(v) && j < RecordCount(w)
    requires In(x, RecordAt(l.Queue(), v, k).at, DESC_SIZE)
    ensures !In(x, RecordAt(l.Queue(), w, j).at, DESC_SIZE)
  {
    forall d: nat | d < l.Queue().size && InMain(l.Queue(), d, x) ensures InRing(l.Queue(), Descriptors, x) {
      MainInRing(l.Queue(), d, x);
    }
    RecordPlace(l, v, k, x);
    if InTable(v, x) { TableOffRings(l, v, x); }
    if InTable(w, x) { TableOffRings(l, w, x); }
    if In(x, RecordAt(l.Queue(), w, j).at, DESC_SIZE) { RecordPlace(l, w, j, x); }
  }

  lemma RecordOffSegment(l: Lane, v: Wire, k: nat, w: Wire, b: bool, x: int)
    requires l.Valid() && ValidWire(l, v) && ValidWire(l, w) && k < RecordCount(v)
    requires forall i :: 0 <= i < |w.segments| ==> OffTable(w.segments[i], v)
    requires In(x, RecordAt(l.Queue(), v, k).at, DESC_SIZE)
    ensures !OnSegment(w.segments, b, x)
  {
    forall d: nat | d < l.Queue().size && InMain(l.Queue(), d, x) ensures InRing(l.Queue(), Descriptors, x) {
      MainInRing(l.Queue(), d, x);
    }
    RecordPlace(l, v, k, x);
    if OnSegment(w.segments, b, x) {
      var i :| 0 <= i < |w.segments| && Selected(w.segments[i], b) && In(x, w.segments[i].address, w.segments[i].length);
      assert OffTable(w.segments[i], v);
      SegmentOffRings(l, w, b, x);
    }
  }

  /** Two records of one chain are at different places. */
  lemma OwnRecordsDisjoint(l: Lane, w: Wire, k: nat, j: nat, x: int)
    requires l.Valid() && ValidWire(l, w) && k < j < RecordCount(w)
    ensures !In(x, RecordAt(l.Queue(), w, k).at, DESC_SIZE) || !In(x, RecordAt(l.Queue(), w, j).at, DESC_SIZE)
  {
    if InTableSide(w, k) == InTableSide(w, j) {
      EntriesDiffer(l, w, k, j);
    } else if In(x, RecordAt(l.Queue(), w, k).at, DESC_SIZE) && In(x, RecordAt(l.Queue(), w, j).at, DESC_SIZE) {
      RecordSides(l, w, k, x);
      RecordSides(l, w, j, x);
      TableOffRings(l, w, x);
    }
  }

  predicate InTableSide(w: Wire, k: nat)
    requires k < RecordCount(w)
  {
    SegmentIndex(w, k) >= Direct(w) && SegmentIndex(w, k) != |w.segments|
  }

  /** Index of the table entry that record `k` occupies. */
  function Entry(w: Wire, k: nat): nat
    requires k < RecordCount(w)
  {
    var i := SegmentIndex(w, k);
    if i < |w.segments| then w.segments[i].descriptor else w.indirectDescriptor
  }

  lemma EntriesDiffer(l: Lane, w: Wire, k: nat, j: nat)
    requires l.Valid() && ValidWire(l, w) && k < j < RecordCount(w) && InTableSide(w, k) == InTableSide(w, j)
    ensures Entry(w, k) != Entry(w, j)
    ensures RecordAt(l.Queue(), w, j).at - RecordAt(l.Queue(), w, k).at == (Entry(w, j) - Entry(w, k)) * DESC_SIZE
  {
    var i, h := SegmentIndex(w, k), SegmentIndex(w, j);
    if i < |w.segments| && h < |w.segments| { assert PairOk(w, i, h); }
    else if i < |w.segments| { assert SegmentOk(l, w, i); }
  }

  /** The segment that record `k` describes, or the segment count for the indirect reference. */
  function SegmentIndex(w: Wire, k: nat): nat
    requires k < RecordCount(w)
  {
    if w.indirectLength == 0 || k < Direct(w) then k else if k == Direct(w) then |w.segments| else k - 1
  }

  /** A direct record or the reference is in the descriptor ring; any other is in the table. */
  lemma RecordSides(l: Lane, w: Wire, k: nat, x: int)
    requires l.Valid() && ValidWire(l, w) && k < RecordCount(w)
    requires In(x, RecordAt(l.Queue(), w, k).at, DESC_SIZE)
    ensures InTableSide(w, k) ==> InTable(w, x)
    ensures !InTableSide(w, k) ==> InRing(l.Queue(), Descriptors, x)
  {
    var i := SegmentIndex(w, k);
    if i == |w.segments| {
      MainInRing(l.Queue(), w.indirectDescriptor, x);
    } else {
      assert SegmentOk(l, w, i);
      if i < Direct(w) { MainInRing(l.Queue(), w.segments[i].descriptor, x); }
      else { EntryInTable(w, w.segments[i].descriptor, x); }
    }
  }

  /** Record stores and payload stores leave the available and used rings alone. */
  lemma RecordStoreOffRing(l: Lane, v: Wire, k: nat, m: Memory, s: seq<byte>, r: Ring, x: int)
    requires l.Valid() && ValidWire(l, v) && k < RecordCount(v) && |s| == DESC_SIZE && r != Descriptors
    requires InRing(l.Queue(), r, x)
    ensures WriteMem(m, RecordAt(l.Queue(), v, k).at, s)(x) == m(x)
  {
    if In(x, RecordAt(l.Queue(), v, k).at, DESC_SIZE) { RecordOffRing(l, v, k, r, x); }
  }

  // --------------------------------------------------------------- responses

  /** Only writable bytes of the chain differ. */
  ghost predicate OnlyResponse(m: Memory, m': Memory, v: Wire) {
    forall x :: m'(x) != m(x) ==> OnSegment(v.segments, true, x)
  }

  lemma ResponseSpares(l: Lane, v: Wire, w: Wire, m: Memory, m': Memory)
    requires l.Valid() && ValidWire(l, v) && ValidWire(l, w) && WiresApart(v, w) && OnlyResponse(m, m', v)
    ensures Spared(m, m', l.Queue(), w)
  {
    var q := l.Queue();
    forall x | OnRecord(q, w, x) ensures m'(x) == m(x) {
      var j :| 0 <= j < RecordCount(w) && In(x, RecordAt(q, w, j).at, DESC_SIZE);
      RecordOffSegment(l, w, j, v, true, x);
    }
    forall b, x | OnSegment(w.segments, b, x) ensures m'(x) == m(x) {
      if OnSegment(v.segments, true, x) { ResponseOffOther(v, w, b, x); }
    }
  }

  lemma ResponseOffOther(v: Wire, w: Wire, b: bool, x: int)
    requires WiresApart(v, w) && OnSegment(v.segments, true, x)
    ensures !OnSegment(w.segments, b, x)
  {
    var i :| 0 <= i < |v.segments| && Selected(v.segments[i], true) && In(x, v.segments[i].address, v.segments[i].length);
    forall j | 0 <= j < |w.segments| ensures !In(x, w.segments[j].address, w.segments[j].length) {
      assert SegmentsApart(v.segments[i], w.segments[j]);
    }
  }

  lemma ResponseOffRequest(l: Lane, v: Wire, x: int)
    requires l.index < |l.queues| && ValidWire(l, v) && OnSegment(v.segments, true, x)
    ensures !OnSegment(v.segments, false, x)
  {
    var i :| 0 <= i < |v.segments| && Selected(v.segments[i], true) && In(x, v.segments[i].address, v.segments[i].length);
    forall j | 0 <= j < |v.segments| && Selected(v.segments[j], false) ensures !In(x, v.segments[j].address, v.segments[j].length) {
      assert if i < j then PairOk(v, i, j) else PairOk(v, j, i);
    }
  }

  /** A response leaves the chain's own records and request alone. */
  lemma ResponseOwn(l: Lane, v: Wire, m: Memory, m': Memory)
    requires l.Valid() && ValidWire(l, v) && OnlyResponse(m, m', v)
    ensures forall x :: OnRecord(l.Queue(), v, x) ==> m'(x) == m(x)
    ensures forall x :: OnSegment(v.segments, false, x) ==> m'(x) == m(x)
  {
    var q := l.Queue();
    forall i | 0 <= i < |v.segments| ensures OffTable(v.segments[i], v) { assert SegmentOk(l, v, i); }
    forall x | OnRecord(q, v, x) ensures m'(x) == m(x) {
      var j :| 0 <= j < RecordCount(v) && In(x, RecordAt(q, v, j).at, DESC_SIZE);
      RecordOffSegment(l, v, j, v, true, x);
    }
    forall x | OnSegment(v.segments, false, x) ensures m'(x) == m(x) {
      if OnSegment(v.segments, true, x) { ResponseOffRequest(l, v, x); }
    }
  }

  lemma ResponseOffRings(l: Lane, v: Wire, m: Memory, m': Memory, r: Ring, x: int)
    requires l.Valid() && ValidWire(l, v) && OnlyResponse(m, m', v) && InRing(l.Queue(), r, x)
    ensures m'(x) == m(x)
  {
    if OnSegment(v.segments, true, x) { SegmentOffRings(l, v, true, x); }
  }

  /** Response bytes of a valid chain lie in no ring of any lane of the channel, so writing them
      leaves every index, entry, event word and descriptor as it was. */
  lemma ResponseOffAllRings(l: Lane, v: Wire, m: Memory, m': Memory, i: nat, r: Ring, x: int)
    requires l.Valid() && ValidWire(l, v) && OnlyResponse(m, m', v)
    requires i < |l.queues| && InRing(l.queues[i], r, x)
    ensures m'(x) == m(x)
  {
    forall k | 0 <= k < |v.segments| ensures !In(x, v.segments[k].address, v.segments[k].length) {
      assert SegmentOk(l, v, k);
    }
  }
}
