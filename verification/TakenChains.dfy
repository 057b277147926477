/** What take_available makes of arbitrary memory: it accepts a chain exactly when memory spells it.

    The peer may have stored anything. The walk over the descriptors is compared here with a reading of memory by absolute
    address that knows nothing of the walk.
 */
module TakenChains {
  import opened Bytes
  import opened Channel
  import opened Chains
  import opened Descriptors
  import opened Endpoint
  import opened SplitRing
  import opened RingLayout
  import opened RingCalls
  import opened RingEvents
  import V = Virtqueue

  // ------------------------------------------------------------- reading memory

  /** The descriptor at `a` is of this buffer; flag 2 is the device's right to write, flag 1 says that `next` follows. */
  ghost predicate SpellsBuffer(m: Memory, a: int, s: Segment, more: bool, next: nat) {
    && Load64(m, a) == s.address && Load32(m, a + 8) == s.length
    && Load16(m, a + 12) == (if s.writable != 0 then 2 else 0) + (if more then 1 else 0)
    && (more ==> Load16(m, a + 14) == next)
  }

  /** The descriptor at `a` is of an indirect table: flag 4, and flag 1 clear; flag 2 is ignored. */
  ghost predicate SpellsTable(m: Memory, a: int, table: nat, length: nat) {
    Load64(m, a) == table && Load32(m, a + 8) == length && Load16(m, a + 12) in {4, 6}
  }

  /** Memory spells the chain, from its head on. */
  ghost predicate Spells(m: Memory, q: Queue, w: Wire) {
    && |w.segments| > 0
    && w.head == (if w.indirectLength != 0 && w.indirectFirst == 0 then w.indirectDescriptor else w.segments[0].descriptor)
    && (forall i :: 0 <= i < |w.segments| ==>
          SpellsBuffer(m, TableOf(q, w, i) + 16 * w.segments[i].descriptor, w.segments[i], i + 1 < |w.segments|, Following(w, i)))
    && (w.indirectLength != 0 ==>
          && w.indirectFirst < |w.segments| && w.segments[w.indirectFirst].descriptor == 0
          && SpellsTable(m, q.descriptors + 16 * w.indirectDescriptor, w.indirect, w.indirectLength))
  }

  // -------------------------------------------------------------- one descriptor

  function DescAt(m: Memory, a: int): Desc {
    Decode(ReadMem(m, a, 16))
  }

  lemma DescReads(m: Memory, a: int)
    ensures var d := DescAt(m, a);
            d.address == Load64(m, a) && d.length == Load32(m, a + 8) && d.flags == Load16(m, a + 12) && d.next == Load16(m, a + 14)
  {
    hide ReadMem, Value;
    PartOf(m, a, 16, 0, 8);
    PartOf(m, a, 16, 8, 4);
    PartOf(m, a, 16, 12, 2);
    PartOf(m, a, 16, 14, 2);
    var s := ReadMem(m, a, 16);
    assert s[..8] == s[0..8] && s[14..] == s[14..16];
  }

  lemma FlagsSplit(f: u16)
    requires KnownFlags(f)
    ensures !HasIndirect(f) ==> f == (if HasWrite(f) then 2 else 0) + (if HasNext(f) then 1 else 0)
    ensures HasIndirect(f) && !HasNext(f) <==> f in {4, 6}
  {
  }

  // ---------------------------------------------------------- the walk is sound

  /** Where the walk looks next. */
  function Looks(q: Queue, k: Walk): int
    requires k.Reading?
  {
    TableBase(q, k) + k.index * DESC_SIZE
  }

  /** The descriptor after segment `i`, as far as the walk got. */
  function After(k: Walk, i: nat): nat
    requires k.Reading? && i < |k.segments|
  {
    if k.inTable && i + 1 == k.indirectFirst then k.indirectDescriptor
    else if i + 1 < |k.segments| then k.segments[i + 1].descriptor else k.index
  }

  function WalkTable(q: Queue, k: Walk, i: nat): int
    requires k.Reading?
  {
    if k.inTable && i >= k.indirectFirst then k.indirect else q.descriptors
  }

  /** The first descriptor the walk met, or is about to meet. */
  function Met(k: Walk): nat
    requires k.Reading?
  {
    if k.inTable && k.indirectFirst == 0 then k.indirectDescriptor
    else if |k.segments| > 0 then k.segments[0].descriptor else k.index
  }

  /** Everything the walk collected is in memory where it says. */
  ghost predicate Collected(m: Memory, q: Queue, k: Walk)
    requires k.Reading?
  {
    && k.head == Met(k)
    && (forall i :: 0 <= i < |k.segments| ==>
          SpellsBuffer(m, WalkTable(q, k, i) + 16 * k.segments[i].descriptor, k.segments[i], true, After(k, i)))
    && (if k.inTable
        then k.indirectFirst <= |k.segments| && k.indirectLength > 0
             && (if k.indirectFirst < |k.segments| then k.segments[k.indirectFirst].descriptor == 0 else k.index == 0)
             && SpellsTable(m, q.descriptors + 16 * k.indirectDescriptor, k.indirect, k.indirectLength)
        else k.indirect == 0 && k.indirectLength == 0 && k.indirectDescriptor == 0 && k.indirectFirst == 0)
  }

  lemma StartCollected(m: Memory, q: Queue, head: u16)
    ensures Collected(m, q, Start(head))
  {
  }

  ghost function Stepped(l: Lane, m: Memory, k: Walk): Walk
    requires l.index < |l.queues| && k.Reading?
  {
    WalkStep(l, k, ReadMem(m, Looks(l.Queue(), k), DESC_SIZE))
  }

  /** The buffer the walk is about to add. */
  function Buffer(m: Memory, q: Queue, k: Walk): Segment
    requires k.Reading?
  {
    var d := DescAt(m, Looks(q, k));
    Segment(d.address, d.length, k.index, if HasWrite(d.flags) then 1 else 0)
  }

  /** What a step of the walk found in memory, and where it goes from there. */
  lemma StepFinds(l: Lane, m: Memory, k: Walk)
    requires l.index < |l.queues| && k.Reading?
    ensures var q, d, k' := l.Queue(), DescAt(m, Looks(l.Queue(), k)), Stepped(l, m, k);
            && (HasIndirect(d.flags) ==> !k'.Finished?)
            && (HasIndirect(d.flags) && k'.Reading? ==>
                  && !k.inTable && d.length > 0 && SpellsTable(m, Looks(q, k), d.address, d.length)
                  && k' == Reading(k.head, 0, true, k.segments, d.address, d.length, k.index, |k.segments|))
            && (!HasIndirect(d.flags) && k'.Reading? ==>
                  && SpellsBuffer(m, Looks(q, k), Buffer(m, q, k), true, d.next)
                  && k' == k.(index := d.next, segments := k.segments + [Buffer(m, q, k)]))
            && (k'.Finished? ==>
                  && SpellsBuffer(m, Looks(q, k), Buffer(m, q, k), false, 0)
                  && k'.wire == Wire(k.head, k.segments + [Buffer(m, q, k)], k.indirect, k.indirectLength, k.indirectDescriptor, k.indirectFirst))
  {
    var a, d := Looks(l.Queue(), k), DescAt(m, Looks(l.Queue(), k));
    DescReads(m, a);
    if KnownFlags(d.flags) { FlagsSplit(d.flags); }
    hide Load16, Load32, Load64, Decode, PayloadAllowed, Visited, HasIndirect, HasNext, HasWrite, Looks, ReadMem;
  }

  lemma TableCollected(m: Memory, q: Queue, k: Walk, table: u64, length: u32)
    requires k.Reading? && Collected(m, q, k) && !k.inTable && length > 0 && SpellsTable(m, Looks(q, k), table, length)
    ensures Collected(m, q, Reading(k.head, 0, true, k.segments, table, length, k.index, |k.segments|))
  {
    hide SpellsBuffer, SpellsTable;
    var k' := Reading(k.head, 0, true, k.segments, table, length, k.index, |k.segments|);
    forall i | 0 <= i < |k.segments|
      ensures SpellsBuffer(m, WalkTable(q, k', i) + 16 * k.segments[i].descriptor, k.segments[i], true, After(k', i))
    {
      assert SpellsBuffer(m, WalkTable(q, k, i) + 16 * k.segments[i].descriptor, k.segments[i], true, After(k, i));
    }
  }

  lemma BufferCollected(m: Memory, q: Queue, k: Walk, s: Segment, next: u16)
    requires k.Reading? && Collected(m, q, k) && s.descriptor == k.index && SpellsBuffer(m, Looks(q, k), s, true, next)
    ensures Collected(m, q, k.(index := next, segments := k.segments + [s]))
  {
    hide SpellsBuffer, SpellsTable;
    var k' := k.(index := next, segments := k.segments + [s]);
    forall i | 0 <= i < |k'.segments|
      ensures SpellsBuffer(m, WalkTable(q, k', i) + 16 * k'.segments[i].descriptor, k'.segments[i], true, After(k', i))
    {
      if i < |k.segments| {
        assert SpellsBuffer(m, WalkTable(q, k, i) + 16 * k.segments[i].descriptor, k.segments[i], true, After(k, i));
      }
    }
  }

  lemma BufferFinishes(m: Memory, q: Queue, k: Walk, s: Segment)
    requires k.Reading? && Collected(m, q, k) && s.descriptor == k.index && SpellsBuffer(m, Looks(q, k), s, false, 0)
    ensures Spells(m, q, Wire(k.head, k.segments + [s], k.indirect, k.indirectLength, k.indirectDescriptor, k.indirectFirst))
  {
    hide SpellsBuffer, SpellsTable;
    var w := Wire(k.head, k.segments + [s], k.indirect, k.indirectLength, k.indirectDescriptor, k.indirectFirst);
    forall i | 0 <= i < |w.segments|
      ensures SpellsBuffer(m, TableOf(q, w, i) + 16 * w.segments[i].descriptor, w.segments[i], i + 1 < |w.segments|, Following(w, i))
    {
      if i < |k.segments| {
        assert SpellsBuffer(m, WalkTable(q, k, i) + 16 * k.segments[i].descriptor, k.segments[i], true, After(k, i));
      }
    }
  }

  /** One step keeps what was collected, or finishes with a chain that is spelled. */
  lemma StepCollects(l: Lane, m: Memory, k: Walk)
    requires l.index < |l.queues| && k.Reading? && Collected(m, l.Queue(), k)
    ensures var k' := Stepped(l, m, k);
            && (k'.Reading? ==> Collected(m, l.Queue(), k') && k'.head == k.head)
            && (k'.Finished? ==> Spells(m, l.Queue(), k'.wire) && k'.wire.head == k.head)
  {
    hide Collected, Spells, SpellsBuffer, SpellsTable, Stepped, DescAt, HasIndirect, HasWrite;
    StepFinds(l, m, k);
    var q, d, k' := l.Queue(), DescAt(m, Looks(l.Queue(), k)), Stepped(l, m, k);
    if k'.Finished? {
      BufferFinishes(m, q, k, Buffer(m, q, k));
    } else if k'.Reading? {
      if HasIndirect(d.flags) { TableCollected(m, q, k, d.address, d.length); }
      else { BufferCollected(m, q, k, Buffer(m, q, k), d.next); }
    }
  }

  /** A chain the walk finishes with is spelled in memory, whatever memory holds. */
  lemma {:induction false} WalkIsSound(l: Lane, m: Memory, n: nat, k: Walk)
    requires l.Valid() && k.Reading? && Collected(m, l.Queue(), k)
    ensures var r := V.WalkFrom(l, From(m), n, k);
            r.Walked? && r.walk.Finished? ==> Spells(m, l.Queue(), r.walk.wire) && r.walk.wire.head == k.head
    decreases l.Queue().maxChain as int - |k.segments|, if k.inTable then 0 else 1
  {
    hide Collected, Spells, WalkStep, ReadMem;
    if MayRead(l.Queue(), k) {
      StepCollects(l, m, k);
      if Stepped(l, m, k).Reading? {
        WalkShrinks(l, k, ReadMem(m, Looks(l.Queue(), k), DESC_SIZE));
        WalkIsSound(l, m, n + 1, Stepped(l, m, k));
      }
    }
  }

  // --------------------------------------------------------- and it is complete

  /** A descriptor without a successor may hold anything in its `next` field. */
  lemma NextIgnored(l: Lane, k: Walk, d: Desc, next: u16)
    requires l.index < |l.queues| && k.Reading? && (HasNext(d.flags) ==> next == d.next)
    ensures WalkOver(l, k, d.(next := next)) == WalkOver(l, k, d)
  {
    hide PayloadAllowed, Visited;
  }

  /** The write flag and the `next` field of a table reference are ignored. */
  lemma ReferenceIgnores(l: Lane, k: Walk, d: Desc)
    requires l.index < |l.queues| && k.Reading? && d.flags in {4, 6}
    ensures WalkOver(l, k, d) == WalkOver(l, k, d.(flags := 4, next := 0))
  {
    hide PayloadAllowed, Visited;
  }

  /** The descriptor of segment `i`, as memory has it and as publish would have written it. */
  lemma SegmentDesc(m: Memory, q: Queue, w: Wire, i: nat)
    requires Spells(m, q, w) && i < |w.segments|
    ensures var r := SegmentRecord(q, w, i); var d := DescAt(m, r.at);
            d == r.desc.(next := d.next) && (HasNext(r.desc.flags) ==> d.next == r.desc.next)
  {
    hide Spells, Load16, Load32, Load64, DescAt, SegmentRecord, HasNext, Following, TableOf;
    var r, d := SegmentRecord(q, w, i), DescAt(m, SegmentRecord(q, w, i).at);
    SpelledAt(m, q, w, i);
    RecordIs(q, w, i);
    DescReads(m, r.at);
    assert d.address == r.desc.address && d.length == r.desc.length && d.flags == r.desc.flags;
  }

  lemma SpelledAt(m: Memory, q: Queue, w: Wire, i: nat)
    requires Spells(m, q, w) && i < |w.segments|
    ensures SpellsBuffer(m, TableOf(q, w, i) + 16 * w.segments[i].descriptor, w.segments[i], i + 1 < |w.segments|, Following(w, i))
  {
    hide SpellsBuffer, SpellsTable, TableOf, Following;
  }

  lemma RecordIs(q: Queue, w: Wire, i: nat)
    requires i < |w.segments|
    ensures var r, s, more := SegmentRecord(q, w, i), w.segments[i], i + 1 < |w.segments|;
            && r.at == TableOf(q, w, i) + 16 * s.descriptor && r.desc.address == s.address && r.desc.length == s.length
            && r.desc.flags == (if s.writable != 0 then 2 else 0) + (if more then 1 else 0)
            && (HasNext(r.desc.flags) <==> more) && r.desc.next == Following(w, i)
  {
  }

  lemma ReferenceDesc(m: Memory, q: Queue, w: Wire)
    requires Spells(m, q, w) && w.indirectLength != 0
    ensures var r := ReferenceRecord(q, w); var d := DescAt(m, r.at);
            d.flags in {4, 6} && d.(flags := 4, next := 0) == r.desc
  {
    var r := ReferenceRecord(q, w);
    assert SpellsTable(m, q.descriptors + 16 * w.indirectDescriptor, w.indirect, w.indirectLength);
    hide Spells, Load16, Load32, Load64, Decode;
    DescReads(m, r.at);
  }

  lemma StepIsOver(l: Lane, m: Memory, k: Walk)
    requires l.index < |l.queues| && k.Reading?
    ensures Stepped(l, m, k) == WalkOver(l, k, DescAt(m, Looks(l.Queue(), k)))
  {
    hide Decode, WalkOver, ReadMem;
  }

  lemma SegmentStep(l: Lane, m: Memory, w: Wire, k: nat, i: nat)
    requires l.Valid() && ValidWire(l, w) && Spells(m, l.Queue(), w) && k < RecordCount(w) && i < |w.segments|
    requires if w.indirectLength == 0 || k < Direct(w) then i == k else k > Direct(w) && i == k - 1
    ensures Expected(w, k).Reading? && Stepped(l, m, Expected(w, k)) == Expected(w, k + 1)
  {
    hide ValidWire, Spells, Visited, WalkOver, DescAt, Stepped, SegmentRecord, HasNext, ChannelValid, Expected, Unclaimed;
    DirectFits(l, w);
    WalkReads(l, w, k);
    NotVisited(l, w, k);
    WalkOverSegment(l, w, k, i);
    SegmentDesc(m, l.Queue(), w, i);
    var e, r := Expected(w, k), SegmentRecord(l.Queue(), w, i);
    StepIsOver(l, m, e);
    NextIgnored(l, e, r.desc, DescAt(m, r.at).next);
  }

  lemma ReferenceStep(l: Lane, m: Memory, w: Wire)
    requires l.Valid() && ValidWire(l, w) && Spells(m, l.Queue(), w) && w.indirectLength != 0
    ensures Direct(w) < RecordCount(w) && Expected(w, Direct(w)).Reading?
    ensures Stepped(l, m, Expected(w, Direct(w))) == Expected(w, Direct(w) + 1)
  {
    hide ValidWire, Spells, Visited, WalkOver, DescAt, Stepped, ReferenceRecord, ChannelValid, Expected;
    DirectFits(l, w);
    WalkReads(l, w, Direct(w));
    NotVisited(l, w, Direct(w));
    WalkOverReference(l, w);
    ReferenceDesc(m, l.Queue(), w);
    var e, r := Expected(w, Direct(w)), ReferenceRecord(l.Queue(), w);
    StepIsOver(l, m, e);
    ReferenceIgnores(l, e, DescAt(m, r.at));
  }

  lemma SpelledStep(l: Lane, m: Memory, w: Wire, k: nat)
    requires l.Valid() && ValidWire(l, w) && Spells(m, l.Queue(), w) && k < RecordCount(w)
    ensures Expected(w, k).Reading? && MayRead(l.Queue(), Expected(w, k))
    ensures Stepped(l, m, Expected(w, k)) == Expected(w, k + 1)
  {
    WalkReads(l, w, k);
    hide ValidWire, Spells, Stepped;
    if w.indirectLength != 0 && k == Direct(w) { ReferenceStep(l, m, w); }
    else { SegmentStep(l, m, w, k, if w.indirectLength == 0 || k < Direct(w) then k else k - 1); }
  }

  /** A spelled chain that is valid is what the walk finds. */
  lemma {:induction false} WalkIsComplete(l: Lane, m: Memory, n: nat, w: Wire, k: nat)
    requires l.Valid() && ValidWire(l, w) && Spells(m, l.Queue(), w) && k < RecordCount(w)
    ensures Expected(w, k).Reading? && V.WalkFrom(l, From(m), n, Expected(w, k)) == V.Walked(Finished(w))
    decreases RecordCount(w) - k
  {
    hide ValidWire, Spells, WalkStep, ReadMem, MayRead;
    SpelledStep(l, m, w, k);
    if k + 1 < RecordCount(w) {
      WalkIsComplete(l, m, n + 1, w, k + 1);
    }
  }

  // ---------------------------------------------------------------- the take

  /** Memory spells an admissible chain with this head. */
  ghost predicate Offers(l: Lane, e: State, m: Memory, capacity: nat, w: Wire)
    requires l.Valid() && l.Queue().size > 0
  {
    && w.head == Load16(m, l.Queue().available + 4 + 2 * (e.consumed % l.Queue().size))
    && Admissible(l, e.slots, e.owner, w, capacity) && Spells(m, l.Queue(), w)
  }

  lemma OfferedIsWalked(l: Lane, e: State, m: Memory, capacity: nat, w: Wire)
    requires l.Valid() && l.Queue().size > 0 && Offers(l, e, m, capacity, w)
    ensures V.TakeWalk(l, e, From(m)) == V.Walked(Finished(w))
  {
    hide Unclaimed, Spells, V.WalkFrom;
    WalkBegins(l, w);
    WalkIsComplete(l, m, 2, w, 0);
  }

  /** Over any memory, take_available takes a chain exactly when the index announces one and memory spells an admissible
      chain from the head in the ring entry; and it is that chain. */
  lemma TakesWhatIsSpelled(l: Lane, e: State, m: Memory, capacity: nat)
    requires l.Valid() && l.Queue().size > 0
    ensures V.TakeOk(l, Device, e, From(m), capacity) <==>
              V.HeadStatus(l.Queue(), Device, e, From(m)).Ok? && exists w :: Offers(l, e, m, capacity, w)
    ensures forall w :: V.TakeOk(l, Device, e, From(m), capacity) && Offers(l, e, m, capacity, w) ==>
              V.TakeWire(l, e, From(m)) == w
  {
    hide Admissible, Spells, V.WalkFrom, V.HeadStatus, Collected;
    var head := V.NextHead(l.Queue(), e, From(m));
    StartCollected(m, l.Queue(), head);
    WalkIsSound(l, m, 2, Start(head));
    forall w | Offers(l, e, m, capacity, w) ensures V.TakeWalk(l, e, From(m)) == V.Walked(Finished(w)) {
      OfferedIsWalked(l, e, m, capacity, w);
    }
    if V.TakeOk(l, Device, e, From(m), capacity) {
      assert Offers(l, e, m, capacity, V.TakeWire(l, e, From(m)));
    }
  }
}
