/** What shared memory holds in every run, by absolute address: the split ring of section 2.7 of Virtio 1.2, with the
    8-byte used entries and 16-byte descriptors of that section. */
module RingLayout {
  import opened Bytes
  import opened Channel
  import opened Chains
  import opened Descriptors
  import opened Endpoint
  import opened Wrap
  import opened SplitRing
  import opened RingInvariant
  import opened RingFrames
  import opened RingLooks
  import opened RingTheorems

  function Load32(m: Memory, a: int): nat {
    Value(ReadMem(m, a, 4))
  }

  function Load64(m: Memory, a: int): nat {
    Value(ReadMem(m, a, 8))
  }

  /** The descriptor at `a`: address, length, flags and next. */
  ghost predicate Describes(m: Memory, a: int, address: nat, length: nat, flags: nat, next: nat) {
    Load64(m, a) == address && Load32(m, a + 8) == length && Load16(m, a + 12) == flags && Load16(m, a + 14) == next
  }

  lemma PartOf(m: Memory, a: int, n: nat, i: nat, k: nat)
    requires i + k <= n
    ensures ReadMem(m, a, n)[i..i + k] == ReadMem(m, a + i, k)
  {
    var part := ReadMem(m, a, n)[i..i + k];
    forall j | 0 <= j < k ensures part[j] == ReadMem(m, a + i, k)[j] {
      assert a + (i + j) == a + i + j;
    }
  }

  lemma EncodedDescribes(m: Memory, a: int, d: Desc)
    requires Holds(m, a, Encode(d))
    ensures Describes(m, a, d.address, d.length, d.flags, d.next)
  {
    hide ReadMem, Le, Value;
    PartOf(m, a, 16, 0, 8);
    PartOf(m, a, 16, 8, 4);
    PartOf(m, a, 16, 12, 2);
    PartOf(m, a, 16, 14, 2);
    FieldRoundTrip(d.address);
    FieldRoundTrip(d.length);
    FieldRoundTrip(d.flags);
    FieldRoundTrip(d.next);
    FieldsOf(Le(d.address, 8), Le(d.length, 4), Le(d.flags, 2), Le(d.next, 2));
    assert Encode(d)[0..8] == Encode(d)[..8] && Encode(d)[14..16] == Encode(d)[14..];
  }

  // ---------------------------------------------------------------------- rings

  /** The index words count the publications and completions, and every entry still to be read names its chain. */
  ghost predicate RingsHold(q: Queue, b: Ledger, m: Memory)
    requires q.size > 0
  {
    && Load16(m, q.available + 2) == |b.published| % 65536 && Load16(m, q.used + 2) == |b.completed| % 65536
    && (forall p :: b.taken <= p < |b.published| ==> Load16(m, q.available + 4 + 2 * (p % q.size)) == b.published[p].wire.head)
    && (forall j :: b.reaped <= j < |b.completed| ==>
          && Load32(m, q.used + 4 + 8 * (j % q.size)) == b.completed[j].head
          && Load32(m, q.used + 8 + 8 * (j % q.size)) == |b.completed[j].response|)
  }

  lemma AvailableEntry(l: Lane, b: Ledger, m: Memory, p: nat)
    requires l.Valid() && l.Queue().size > 0 && AvailableOk(l.Queue(), b, m) && b.taken <= p < |b.published|
    ensures Load16(m, l.Queue().available + 4 + 2 * (p % l.Queue().size)) == b.published[p].wire.head
  {
    LaneQueueOk(l);
    PositionIsExact(p, l.Queue().size);
    LoadHeld(m, AvailableSlot(l.Queue(), Index16(p)), b.published[p].wire.head);
  }

  lemma EntryFields(m: Memory, a: int, head: nat, length: nat)
    requires Holds(m, a, UsedEntry(head, length)) && head < U32 && length < U32
    ensures Load32(m, a) == head && Load32(m, a + 4) == length
  {
    hide ReadMem, Le, Value;
    PartOf(m, a, 8, 0, 4);
    PartOf(m, a, 8, 4, 4);
    FieldRoundTrip(head);
    FieldRoundTrip(length);
    assert UsedEntry(head, length)[0..4] == Le(head, 4) && UsedEntry(head, length)[4..8] == Le(length, 4);
  }

  lemma UsedEntryHeld(l: Lane, b: Ledger, m: Memory, j: nat)
    requires l.Valid() && l.Queue().size > 0 && UsedOk(l.Queue(), b, m) && Phases(b) && b.reaped <= j < |b.completed|
    ensures Load32(m, l.Queue().used + 4 + 8 * (j % l.Queue().size)) == b.completed[j].head
    ensures Load32(m, l.Queue().used + 8 + 8 * (j % l.Queue().size)) == |b.completed[j].response|
  {
    LaneQueueOk(l);
    PositionIsExact(j, l.Queue().size);
    assert AnsweredAt(b, j) && PhaseOk(b, b.completed[j].head, b.phase[b.completed[j].head as nat]);
    hide Phases;
    EntryFields(m, UsedSlot(l.Queue(), Index16(j)), b.completed[j].head, |b.completed[j].response|);
  }

  lemma InvHolds(l: Lane, b: Ledger, m: Memory)
    requires l.Valid() && l.Queue().size > 0 && AvailableOk(l.Queue(), b, m) && UsedOk(l.Queue(), b, m) && Phases(b)
    ensures RingsHold(l.Queue(), b, m)
  {
    var q := l.Queue();
    LoadHeld(m, AvailableIndex(q), Index16(|b.published|));
    LoadHeld(m, UsedIndex(q), Index16(|b.completed|));
    hide AvailableOk, UsedOk, Phases, Load16, Load32, ChannelValid;
    forall p | b.taken <= p < |b.published|
      ensures Load16(m, q.available + 4 + 2 * (p % q.size)) == b.published[p].wire.head
    {
      AvailableEntry(l, b, m, p);
    }
    forall j | b.reaped <= j < |b.completed|
      ensures Load32(m, q.used + 4 + 8 * (j % q.size)) == b.completed[j].head
      ensures Load32(m, q.used + 8 + 8 * (j % q.size)) == |b.completed[j].response|
    {
      UsedEntryHeld(l, b, m, j);
    }
  }

  /** In every run, by absolute address. */
  lemma RingsAreLaidOut(l: Lane, s: System, steps: seq<Step>)
    requires l.Valid() && l.Queue().size > 0 && Initial(l, s)
    ensures RingsHold(l.Queue(), Run(l, s, steps).b, Run(l, s, steps).memory)
  {
    hide Run, AvailableOk, UsedOk, Phases, Ends, ChainsOk, DriverCallOk, DeviceCallOk, Once, RingsHold;
    RunKeeps(l, s, steps);
    InvHolds(l, Run(l, s, steps).b, Run(l, s, steps).memory);
  }

  // --------------------------------------------------------------------- chains

  /** Where segment `i` is described: in the indirect table from `indirectFirst` on, in the main table before. */
  function TableOf(q: Queue, w: Wire, i: nat): int {
    if w.indirectLength != 0 && i >= w.indirectFirst then w.indirect else q.descriptors
  }

  /** The descriptor the one of segment `i` points to. */
  function Following(w: Wire, i: nat): nat
    requires i < |w.segments|
  {
    if i + 1 == |w.segments| then 0
    else if w.indirectLength != 0 && i + 1 == w.indirectFirst then w.indirectDescriptor
    else w.segments[i + 1].descriptor
  }

  /** Flag 1 says that another descriptor follows, flag 2 that the device writes, flag 4 that this is a table. */
  ghost predicate ChainDescribed(q: Queue, w: Wire, m: Memory) {
    && (forall i :: 0 <= i < |w.segments| ==>
          Describes(m, TableOf(q, w, i) + 16 * w.segments[i].descriptor, w.segments[i].address, w.segments[i].length,
                    (if i + 1 < |w.segments| then 1 else 0) + (if w.segments[i].writable != 0 then 2 else 0), Following(w, i)))
    && (w.indirectLength != 0 ==>
          Describes(m, q.descriptors + 16 * w.indirectDescriptor, w.indirect, w.indirectLength, 4, 0))
  }

  lemma SegmentDescribed(q: Queue, w: Wire, m: Memory, i: nat)
    requires Direct(w) <= |w.segments| && Laid(m, q, w) && i < |w.segments|
    ensures Describes(m, TableOf(q, w, i) + 16 * w.segments[i].descriptor, w.segments[i].address, w.segments[i].length,
                      (if i + 1 < |w.segments| then 1 else 0) + (if w.segments[i].writable != 0 then 2 else 0), Following(w, i))
  {
    hide Describes, Encode;
    var k := if w.indirectLength == 0 || i < Direct(w) then i else i + 1;
    assert LaidAt(m, q, w, k);
    EncodedDescribes(m, RecordAt(q, w, k).at, RecordAt(q, w, k).desc);
  }

  lemma LaidIsDescribed(q: Queue, w: Wire, m: Memory)
    requires Direct(w) <= |w.segments| && Laid(m, q, w)
    ensures ChainDescribed(q, w, m)
  {
    hide Describes, Encode;
    forall i | 0 <= i < |w.segments|
      ensures Describes(m, TableOf(q, w, i) + 16 * w.segments[i].descriptor, w.segments[i].address, w.segments[i].length,
                        (if i + 1 < |w.segments| then 1 else 0) + (if w.segments[i].writable != 0 then 2 else 0), Following(w, i))
    {
      SegmentDescribed(q, w, m, i);
    }
    if w.indirectLength != 0 {
      assert LaidAt(m, q, w, Direct(w));
      EncodedDescribes(m, RecordAt(q, w, Direct(w)).at, RecordAt(q, w, Direct(w)).desc);
    }
  }

  /** The head is the first descriptor of the main table. */
  ghost predicate HeadIsFirst(w: Wire) {
    && |w.segments| > 0
    && w.head == if w.indirectLength != 0 && w.indirectFirst == 0 then w.indirectDescriptor else w.segments[0].descriptor
  }

  lemma ValidHead(l: Lane, w: Wire)
    requires l.index < |l.queues| && ValidWire(l, w)
    ensures HeadIsFirst(w) && Direct(w) <= |w.segments|
  {
  }

  lemma PhaseDescribed(l: Lane, b: Ledger, m: Memory, h: nat)
    requires l.Valid() && Ends(l, b) && Phases(b) && ChainsOk(l.Queue(), b, m) && h in b.phase && !b.phase[h].Preparing?
    ensures b.phase[h].publication < |b.published|
    ensures var w := b.published[b.phase[h].publication].wire;
            ChainDescribed(l.Queue(), w, m) && HeadIsFirst(w) && w.head == h
  {
    hide Ends, Laid, ChainDescribed, HeadIsFirst, ChannelValid;
    assert ChainOk(l.Queue(), b, h, m) && PhaseOk(b, h, b.phase[h]);
    HeldValid(l, b, h);
    ValidHead(l, WireOf(b, h));
    LaidIsDescribed(l.Queue(), WireOf(b, h), m);
  }

  /** In every run, from its announcement until it is released, a chain is described in memory as it was published. */
  lemma ChainsAreLaidOut(l: Lane, s: System, steps: seq<Step>, h: nat)
    requires l.Valid() && l.Queue().size > 0 && Initial(l, s)
    requires h in Run(l, s, steps).b.phase && !Run(l, s, steps).b.phase[h].Preparing?
    ensures var r := Run(l, s, steps);
            && r.b.phase[h].publication < |r.b.published|
            && var w := r.b.published[r.b.phase[h].publication].wire;
               ChainDescribed(l.Queue(), w, r.memory) && HeadIsFirst(w) && w.head == h
  {
    hide Run, AvailableOk, UsedOk, Phases, Ends, ChainsOk, DriverCallOk, DeviceCallOk, Once, ChainDescribed, HeadIsFirst;
    RunKeeps(l, s, steps);
    PhaseDescribed(l, Run(l, s, steps).b, Run(l, s, steps).memory, h);
  }
}
