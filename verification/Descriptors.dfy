/** Split-ring descriptors (section 2.7.5 of Virtio 1.2): how a chain is laid out in the
    descriptor tables, and the walk that reads one back.
 */
module Descriptors {
  import opened Bytes
  import opened Channel
  import opened Chains

  const FLAG_NEXT: u16 := 1
  const FLAG_WRITE: u16 := 2
  const FLAG_INDIRECT: u16 := 4

  datatype Desc = Desc(address: u64, length: u32, flags: u16, next: u16)

  function Encode(d: Desc): (s: seq<byte>)
    ensures |s| == DESC_SIZE
  {
    Le(d.address, 8) + Le(d.length, 4) + Le(d.flags, 2) + Le(d.next, 2)
  }

  function Decode(s: seq<byte>): Desc
    requires |s| == DESC_SIZE
  {
    FieldCanonical(s[..8]);
    FieldCanonical(s[8..12]);
    FieldCanonical(s[12..14]);
    FieldCanonical(s[14..]);
    Desc(Value(s[..8]), Value(s[8..12]), Value(s[12..14]), Value(s[14..]))
  }

  lemma DecodeEncode(d: Desc)
    ensures Decode(Encode(d)) == d
  {
    FieldRoundTrip(d.address);
    FieldRoundTrip(d.length);
    FieldRoundTrip(d.flags);
    FieldRoundTrip(d.next);
    FieldsOf(Le(d.address, 8), Le(d.length, 4), Le(d.flags, 2), Le(d.next, 2));
  }

  lemma FieldsOf(a: seq<byte>, b: seq<byte>, c: seq<byte>, d: seq<byte>)
    requires |a| == 8 && |b| == 4 && |c| == 2 && |d| == 2
    ensures var s := a + b + c + d; s[..8] == a && s[8..12] == b && s[12..14] == c && s[14..] == d
  {
  }

  predicate HasNext(flags: u16) { flags % 2 == 1 }
  predicate HasWrite(flags: u16) { flags / 2 % 2 == 1 }
  predicate HasIndirect(flags: u16) { flags / 4 % 2 == 1 }
  predicate KnownFlags(flags: u16) { flags < 8 }

  function Flags(write: bool, next: bool): (f: u16)
    ensures KnownFlags(f) && !HasIndirect(f) && (HasNext(f) <==> next) && (HasWrite(f) <==> write)
  {
    (if write then FLAG_WRITE else 0) + (if next then FLAG_NEXT else 0)
  }

  // --------------------------------------------------------------- writing

  /** One descriptor record: where it goes and what it says. */
  datatype Record = Record(at: int, desc: Desc)

  function SegmentRecord(q: Queue, w: Wire, i: nat): Record
    requires i < |w.segments|
  {
    var s := w.segments[i];
    var table := if i >= Direct(w) then w.indirect else q.descriptors;
    var more := i + 1 < |w.segments|;
    var flags := Flags(s.writable != 0, more);
    var next: u16 := if !more then 0
                     else if i + 1 == Direct(w) then w.indirectDescriptor else w.segments[i + 1].descriptor;
    Record(table + s.descriptor * DESC_SIZE, Desc(s.address, s.length, flags, next))
  }

  function ReferenceRecord(q: Queue, w: Wire): Record {
    Record(q.descriptors + w.indirectDescriptor * DESC_SIZE, Desc(w.indirect, w.indirectLength, FLAG_INDIRECT, 0))
  }

  /** Records of a chain, in the order a reader meets them. */
  function RecordCount(w: Wire): nat {
    |w.segments| + if w.indirectLength != 0 then 1 else 0
  }

  function RecordAt(q: Queue, w: Wire, k: nat): Record
    requires k < RecordCount(w) && Direct(w) <= |w.segments|
  {
    if w.indirectLength == 0 || k < Direct(w) then SegmentRecord(q, w, k)
    else if k == Direct(w) then ReferenceRecord(q, w)
    else SegmentRecord(q, w, k - 1)
  }

  /** The chain is laid out in memory. */
  ghost predicate Laid(m: Memory, q: Queue, w: Wire)
    requires Direct(w) <= |w.segments|
  {
    forall k :: 0 <= k < RecordCount(w) ==> LaidAt(m, q, w, k)
  }

  ghost predicate LaidAt(m: Memory, q: Queue, w: Wire, k: nat)
    requires k < RecordCount(w) && Direct(w) <= |w.segments|
  {
    var r := RecordAt(q, w, k);
    Holds(m, r.at, Encode(r.desc))
  }

  // --------------------------------------------------------------- reading

  /** State of the walk between two descriptor reads. */
  datatype Walk =
    | Reading(head: u16, index: u16, inTable: bool, segments: seq<Segment>,
              indirect: u64, indirectLength: u32, indirectDescriptor: u16, indirectFirst: nat)
    | Finished(wire: Wire)
    | Broken

  function Start(head: u16): Walk {
    Reading(head, head, false, [], 0, 0, 0, 0)
  }

  /** Table being walked and its number of entries. */
  function TableBase(q: Queue, k: Walk): u64
    requires k.Reading?
  {
    if k.inTable then k.indirect else q.descriptors
  }

  function TableLimit(q: Queue, k: Walk): nat
    requires k.Reading?
  {
    if k.inTable then k.indirectLength / DESC_SIZE else q.size
  }

  /** The bound checks made before a descriptor is read. */
  predicate MayRead(q: Queue, k: Walk)
    requires k.Reading?
  {
    k.index < TableLimit(q, k) && |k.segments| < q.maxChain
  }

  predicate Visited(k: Walk)
    requires k.Reading?
  {
    exists i :: (if k.inTable then k.indirectFirst else 0) <= i < |k.segments| && k.segments[i].descriptor == k.index
  }

  /** One descriptor of the walk, given the bytes that were read. */
  ghost function WalkStep(l: Lane, k: Walk, bytes: seq<byte>): (k': Walk)
    requires l.index < |l.queues| && k.Reading? && |bytes| == DESC_SIZE
    ensures k'.Reading? ==> Progress(k') == Progress(k) + 1
  {
    WalkOver(l, k, Decode(bytes))
  }

  ghost function WalkOver(l: Lane, k: Walk, d: Desc): (k': Walk)
    requires l.index < |l.queues| && k.Reading?
    ensures k'.Reading? ==> Progress(k') == Progress(k) + 1
  {
    if !KnownFlags(d.flags) || Visited(k) then Broken
    else if HasIndirect(d.flags) then
      if k.inTable || HasNext(d.flags) || d.address % DESC_SIZE != 0 || d.length == 0
         || d.length % DESC_SIZE != 0 || d.length / DESC_SIZE > l.Queue().maxIndirect
         || !PayloadAllowed(l, d.address, d.length, RIGHT_READ) then Broken
      else Reading(k.head, 0, true, k.segments, d.address, d.length, k.index, |k.segments|)
    else
      var ss := k.segments + [Segment(d.address, d.length, k.index, if HasWrite(d.flags) then 1 else 0)];
      if HasNext(d.flags) then k.(index := d.next, segments := ss)
      else Finished(Wire(k.head, ss, k.indirect, k.indirectLength, k.indirectDescriptor, k.indirectFirst))
  }

  /** Descriptors read so far. */
  function Progress(k: Walk): nat
    requires k.Reading?
  {
    |k.segments| + if k.inTable then 1 else 0
  }

  // ------------------------------------------------------------ round trip

  /** Where the walk over a well-formed chain stands after `k` descriptors. */
  function Expected(w: Wire, k: nat): Walk
    requires k <= RecordCount(w) && Direct(w) <= |w.segments|
  {
    if k == RecordCount(w) then Finished(w)
    else if w.indirectLength == 0 || k < Direct(w) then
      Reading(w.head, w.segments[k].descriptor, false, w.segments[..k], 0, 0, 0, 0)
    else if k == Direct(w) then Reading(w.head, w.indirectDescriptor, false, w.segments[..k], 0, 0, 0, 0)
    else Reading(w.head, w.segments[k - 1].descriptor, true, w.segments[..k - 1],
                 w.indirect, w.indirectLength, w.indirectDescriptor, Direct(w))
  }

  lemma WalkBegins(l: Lane, w: Wire)
    requires l.index < |l.queues| && ValidWire(l, w)
    ensures Expected(w, 0) == Start(w.head)
  {
  }

  /** A reader standing where `Expected` says passes the bound checks and looks at record `k`. */
  lemma WalkReads(l: Lane, w: Wire, k: nat)
    requires l.index < |l.queues| && ValidWire(l, w) && k < RecordCount(w)
    ensures Expected(w, k).Reading? && MayRead(l.Queue(), Expected(w, k))
    ensures TableBase(l.Queue(), Expected(w, k)) + Expected(w, k).index * DESC_SIZE == RecordAt(l.Queue(), w, k).at
  {
    if w.indirectLength == 0 || k < Direct(w) { assert SegmentOk(l, w, k); }
    else if k > Direct(w) { assert SegmentOk(l, w, k - 1); }
  }

  /** Reading record `k` of the published chain moves the walk one record on, and to nothing else. */
  lemma WalkAdvances(l: Lane, w: Wire, k: nat)
    requires l.index < |l.queues| && ValidWire(l, w) && k < RecordCount(w)
    ensures WalkStep(l, Expected(w, k), Encode(RecordAt(l.Queue(), w, k).desc)) == Expected(w, k + 1)
  {
    DecodeEncode(RecordAt(l.Queue(), w, k).desc);
    NotVisited(l, w, k);
    if w.indirectLength != 0 && k == Direct(w) {
      WalkOverReference(l, w);
    } else {
      WalkOverSegment(l, w, k, if w.indirectLength == 0 || k < Direct(w) then k else k - 1);
    }
  }

  lemma WalkOverReference(l: Lane, w: Wire)
    requires l.index < |l.queues| && ValidWire(l, w) && w.indirectLength != 0
    requires !Visited(Expected(w, Direct(w)))
    ensures WalkOver(l, Expected(w, Direct(w)), ReferenceRecord(l.Queue(), w).desc) == Expected(w, Direct(w) + 1)
  {
  }

  lemma WalkOverSegment(l: Lane, w: Wire, k: nat, i: nat)
    requires l.index < |l.queues| && ValidWire(l, w) && k < RecordCount(w) && i < |w.segments|
    requires if w.indirectLength == 0 || k < Direct(w) then i == k else k > Direct(w) && i == k - 1
    requires !Visited(Expected(w, k))
    ensures WalkOver(l, Expected(w, k), SegmentRecord(l.Queue(), w, i).desc) == Expected(w, k + 1)
  {
    assert SegmentOk(l, w, i);
    var e, d := Expected(w, k), SegmentRecord(l.Queue(), w, i).desc;
    var ss := e.segments + [Segment(d.address, d.length, e.index, if HasWrite(d.flags) then 1 else 0)];
    assert ss == w.segments[..i + 1];
    assert w.segments[..|w.segments|] == w.segments;
  }

  lemma NotVisited(l: Lane, w: Wire, k: nat)
    requires l.index < |l.queues| && ValidWire(l, w) && k < RecordCount(w)
    ensures !Visited(Expected(w, k))
  {
    var e := Expected(w, k);
    forall i | (if e.inTable then e.indirectFirst else 0) <= i < |e.segments|
      ensures e.segments[i].descriptor != e.index
    {
      if w.indirectLength != 0 && k == Direct(w) { assert SegmentOk(l, w, i); }
      else {
        assert PairOk(w, i, if w.indirectLength == 0 || k < Direct(w) then k else k - 1);
      }
    }
  }
}
