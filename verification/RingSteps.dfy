/** Steps that change memory or a call in progress, but not the ledger. */
module RingSteps {
  import opened Bytes
  import opened Ranges
  import opened Channel
  import opened Chains
  import opened Descriptors
  import opened Endpoint
  import opened ScatterGather
  import opened Footprint
  import opened Wrap
  import opened SplitRing
  import opened RingInvariant
  import opened Conservation
  import opened RingFrames

  // --------------------------------------------------------------- event words

  /** The event words lie behind the entries of their rings. */
  lemma EventApart(q: Queue, i: u16)
    requires q.size > 0
    ensures AvailableSlot(q, i) + 2 <= UsedEvent(q) && UsedSlot(q, i) + 8 <= AvailableEvent(q)
  {
    assert i % q.size + 1 <= q.size;
  }

  lemma ArmDriverKeeps(l: Lane, s: System, bytes: seq<byte>)
    requires l.Valid() && l.Queue().size > 0 && Inv(l, s) && |bytes| == 2
    ensures Inv(l, s.(memory := WriteMem(s.memory, UsedEvent(l.Queue()), bytes)))
  {
    var q, b, m, a := l.Queue(), s.b, s.memory, UsedEvent(l.Queue());
    var m' := WriteMem(m, a, bytes);
    RingPlaces(q, 0);
    RingStoreSame(l, m, a, bytes, Available, Used);
    UsedKept(q, b, m, m');
    DeviceCallKept(l, b, m, m', s.serving);
    RingStoreKeepsChains(l, b, m, a, bytes, Available);
    HoldsOutside(m, a, bytes, AvailableIndex(q), Le(Index16(|b.published|), 2));
    forall p: nat | Oldest(b) <= p < |b.published|
      ensures Holds(m', AvailableSlot(q, Index16(p)), Le(b.published[p].wire.head, 2))
    {
      EventApart(q, Index16(p));
      HoldsOutside(m, a, bytes, AvailableSlot(q, Index16(p)), Le(b.published[p].wire.head, 2));
    }
    SlotFromCall(q, b, m, s.driving);
    if s.driving.Publishing? {
      var w := WireOf(b, b.preparing.value);
      HeldValid(l, b, b.preparing.value);
      RingStoreSpares(l, w, m, a, bytes, Available);
      EventApart(q, b.driver.produced);
      if s.driving.stores > RecordCount(w) {
        HoldsOutside(m, a, bytes, AvailableSlot(q, b.driver.produced), Le(w.head, 2));
      }
    }
    DriverCallKept(l, b, m, m', s.driving);
  }

  lemma ArmDeviceKeeps(l: Lane, s: System, bytes: seq<byte>)
    requires l.Valid() && l.Queue().size > 0 && Inv(l, s) && |bytes| == 2
    ensures Inv(l, s.(memory := WriteMem(s.memory, AvailableEvent(l.Queue()), bytes)))
  {
    var q, b, m, a := l.Queue(), s.b, s.memory, AvailableEvent(l.Queue());
    var m' := WriteMem(m, a, bytes);
    RingPlaces(q, 0);
    RingStoreSame(l, m, a, bytes, Used, Available);
    AvailableKept(q, b, m, m');
    RingStoreKeepsChains(l, b, m, a, bytes, Used);
    UsedStoreKeepsDriver(l, b, m, a, bytes, s.driving);
    HoldsOutside(m, a, bytes, UsedIndex(q), Le(Index16(|b.completed|), 2));
    forall j | b.reaped <= j < |b.completed|
      ensures Holds(m', UsedSlot(q, Index16(j)), UsedEntry(b.completed[j].head, |b.completed[j].response|))
    {
      EventApart(q, Index16(j));
      HoldsOutside(m, a, bytes, UsedSlot(q, Index16(j)), UsedEntry(b.completed[j].head, |b.completed[j].response|));
    }
    if s.serving.Completing? {
      EventApart(q, b.device.produced);
      HoldsOutside(m, a, bytes, UsedSlot(q, b.device.produced),
                   UsedEntry(s.serving.head, b.device.slots[s.serving.head].chain.written));
    }
  }

  // ------------------------------------------------------------ outside writes

  lemma TouchKeeps(l: Lane, s: System, at: int, bytes: seq<byte>)
    requires l.Valid() && l.Queue().size > 0 && Inv(l, s)
    requires forall x :: In(x, at, |bytes|) ==> Outside(l, s.b, x)
    ensures Inv(l, s.(memory := WriteMem(s.memory, at, bytes)))
  {
    var q, b, m := l.Queue(), s.b, s.memory;
    var m' := WriteMem(m, at, bytes);
    forall r: Ring ensures RingSame(q, r, m, m') {
      forall x | InRing(q, r, x) ensures m'(x) == m(x) {
        assert In(x, at, |bytes|) ==> OffRings(q, x);
      }
    }
    AvailableKept(q, b, m, m');
    UsedKept(q, b, m, m');
    DeviceCallKept(l, b, m, m', s.serving);
    forall h | h in b.phase ensures ChainOk(q, b, h, m') {
      assert ChainOk(q, b, h, m);
      HeldValid(l, b, h);
      TouchSpares(l, b, m, at, bytes, h);
      ChainKept(q, b, h, m, m');
    }
    SlotFromCall(q, b, m, s.driving);
    SlotKept(q, b, m, m', s.driving);
    if s.driving.Publishing? {
      HeldValid(l, b, b.preparing.value);
      TouchSpares(l, b, m, at, bytes, b.preparing.value);
    }
    DriverCallKept(l, b, m, m', s.driving);
  }

  lemma TouchSpares(l: Lane, b: Ledger, m: Memory, at: int, bytes: seq<byte>, h: nat)
    requires l.Valid() && h < |b.driver.slots| && b.driver.slots[h].Held? && ValidWire(l, WireOf(b, h))
    requires forall x :: In(x, at, |bytes|) ==> Outside(l, b, x)
    ensures Spared(m, WriteMem(m, at, bytes), l.Queue(), WireOf(b, h))
  {
    var q, m', w := l.Queue(), WriteMem(m, at, bytes), WireOf(b, h);
    forall x | OnRecord(q, w, x) ensures m'(x) == m(x) {
      var k :| 0 <= k < RecordCount(w) && In(x, RecordAt(q, w, k).at, DESC_SIZE);
      RecordPlace(l, w, k, x);
      if In(x, at, |bytes|) {
        assert Outside(l, b, x);
        var d: nat :| Uses(w, d) && d < q.size && InMain(q, d, x);
        MainInRing(q, d, x);
      }
    }
    forall c, x | OnSegment(w.segments, c, x) ensures m'(x) == m(x) {
      assert In(x, at, |bytes|) ==> OffChain(w, x);
    }
  }

  // ------------------------------------------------------- stores of a publication

  lemma HeldSeparate(e: State, h: nat, k: nat)
    requires Tables(e) && h < |e.slots| && k < |e.slots| && h != k && e.slots[h].Held? && e.slots[k].Held?
    ensures Separate(e.slots[h].chain.wire, e.slots[k].chain.wire)
  {
    assert Marked(e.owner, e.slots[h].chain.wire, h + 1) && Marked(e.owner, e.slots[k].chain.wire, k + 1);
  }

  /** A store and a new driver call that keep every part of the invariant. */
  lemma DriverStoreKeeps(l: Lane, s: System, m: Memory, call: DriverCall)
    requires l.index < |l.queues| && l.Queue().size > 0 && Inv(l, s)
    requires MemoryOk(l.Queue(), s.b, m) && DriverCallOk(l.Queue(), s.b, m, call) && DeviceCallOk(l, s.b, m, s.serving)
    ensures Inv(l, s.(memory := m, driving := call))
  {
  }

  ghost predicate Prepares(b: Ledger, h: nat) {
    b.preparing == Some(h) && h < |b.driver.slots| && b.driver.slots[h].Held?
  }

  /** Storing one descriptor of the running publication. */
  lemma StoreRecordKeeps(l: Lane, s: System, h: nat, k: nat)
    requires l.Valid() && l.Queue().size > 0 && Inv(l, s)
    requires s.driving == Publishing(k) && Prepares(s.b, h) && k < RecordCount(WireOf(s.b, h))
    ensures Inv(l, DoStoreNext(l, s))
  {
    hide Ends, Counts, Phases, Once, LastTakenOk, AvailableOk, UsedOk, ChainsOk, DeviceCallOk, StoredUpTo, PublishStore,
      WriteMem, RecordCount, Announce, Gather;
    var store := PublishStore(l.Queue(), WireOf(s.b, h), s.b.driver.produced, k);
    var m' := WriteMem(s.memory, store.at, store.bytes);
    RecordStoreKeepsRings(l, s.b, h, k, s.memory, s.serving);
    RecordStoreKeepsChains(l, s.b, h, k, s.memory);
    RecordStored(l, s.b, h, s.memory, k);
    DriverStoreKeeps(l, s, m', Publishing(k + 1));
  }

  lemma RecordStoreKeepsRings(l: Lane, b: Ledger, h: nat, k: nat, m: Memory, call: DeviceCall)
    requires l.Valid() && l.Queue().size > 0 && Ends(l, b) && Prepares(b, h) && k < RecordCount(WireOf(b, h))
    requires AvailableOk(l.Queue(), b, m) && UsedOk(l.Queue(), b, m) && DeviceCallOk(l, b, m, call)
    ensures var store := PublishStore(l.Queue(), WireOf(b, h), b.driver.produced, k);
            var m' := WriteMem(m, store.at, store.bytes);
            AvailableOk(l.Queue(), b, m') && UsedOk(l.Queue(), b, m') && DeviceCallOk(l, b, m', call)
  {
    var q, w := l.Queue(), WireOf(b, h);
    HeldValid(l, b, h);
    StoreIsRecord(q, w, b.driver.produced, k);
    var store := PublishStore(q, w, b.driver.produced, k);
    var m' := WriteMem(m, store.at, store.bytes);
    forall r: Ring, x | r != Descriptors && InRing(q, r, x) ensures m'(x) == m(x) {
      RecordStoreOffRing(l, w, StoredRecord(w, k), m, store.bytes, r, x);
    }
    AvailableKept(q, b, m, m');
    UsedKept(q, b, m, m');
    DeviceCallKept(l, b, m, m', call);
  }

  lemma RecordStoreKeepsChains(l: Lane, b: Ledger, h: nat, k: nat, m: Memory)
    requires l.Valid() && l.Queue().size > 0 && Ends(l, b) && Phases(b) && ChainsOk(l.Queue(), b, m)
    requires Prepares(b, h) && k < RecordCount(WireOf(b, h))
    ensures var store := PublishStore(l.Queue(), WireOf(b, h), b.driver.produced, k);
            ChainsOk(l.Queue(), b, WriteMem(m, store.at, store.bytes))
  {
    var q, w := l.Queue(), WireOf(b, h);
    HeldValid(l, b, h);
    StoreIsRecord(q, w, b.driver.produced, k);
    var store := PublishStore(q, w, b.driver.produced, k);
    var m' := WriteMem(m, store.at, store.bytes);
    forall j | j in b.phase ensures ChainOk(q, b, j, m') {
      assert ChainOk(q, b, j, m);
      if !b.phase[j].Preparing? {
        HeldValid(l, b, j);
        HeldSeparate(b.driver, h, j);
        RecordStoreSpares(l, w, StoredRecord(w, k), WireOf(b, j), m, store.bytes);
      }
      ChainKept(q, b, j, m, m');
    }
  }

  /** Storing record `k` leaves record `j` as it was stored. */
  lemma RecordStays(l: Lane, w: Wire, m: Memory, produced: u16, j: nat, k: nat)
    requires l.Valid() && l.Queue().size > 0 && ValidWire(l, w) && j < k < RecordCount(w)
    requires StoredAt(l.Queue(), m, w, produced, j)
    ensures var store := PublishStore(l.Queue(), w, produced, k);
            StoredAt(l.Queue(), WriteMem(m, store.at, store.bytes), w, produced, j)
  {
    var q := l.Queue();
    StoreIsRecord(q, w, produced, j);
    StoreIsRecord(q, w, produced, k);
    var store := PublishStore(q, w, produced, k);
    var a, c := StoredRecord(w, j), StoredRecord(w, k);
    forall x | In(x, RecordAt(q, w, a).at, DESC_SIZE) ensures WriteMem(m, store.at, store.bytes)(x) == m(x) {
      OwnRecordsDisjoint(l, w, if a < c then a else c, if a < c then c else a, x);
    }
    HoldsKept(m, WriteMem(m, store.at, store.bytes), RecordAt(q, w, a).at, Encode(RecordAt(q, w, a).desc));
  }

  /** One more record is stored and the earlier ones stay. */
  lemma RecordStored(l: Lane, b: Ledger, h: nat, m: Memory, k: nat)
    requires l.Valid() && l.Queue().size > 0 && Ends(l, b) && Prepares(b, h) && k < RecordCount(WireOf(b, h))
    requires StoredUpTo(l.Queue(), m, WireOf(b, h), b.driver.produced, k)
    ensures var store := PublishStore(l.Queue(), WireOf(b, h), b.driver.produced, k);
            StoredUpTo(l.Queue(), WriteMem(m, store.at, store.bytes), WireOf(b, h), b.driver.produced, k + 1)
  {
    var store := PublishStore(l.Queue(), WireOf(b, h), b.driver.produced, k);
    HeldValid(l, b, h);
    WriteHolds(m, store.at, store.bytes);
    forall j | 0 <= j < k
      ensures StoredAt(l.Queue(), WriteMem(m, store.at, store.bytes), WireOf(b, h), b.driver.produced, j)
    {
      RecordStays(l, WireOf(b, h), m, b.driver.produced, j, k);
    }
  }

  // ------------------------------------------------------------- the ring entry

  lemma LastTakenOwned(b: Ledger)
    requires Tables(b.device) && LastTakenOk(b) && b.device.lastTaken.Some?
    ensures b.device.owned > 0
  {
    assert b.published[b.taken - 1].wire.head as nat in HeldHeads(b.device.slots);
  }

  /** The window of entries that may still be read is shorter than the ring. */
  lemma WindowFits(l: Lane, b: Ledger, p: nat)
    requires l.Valid() && Ends(l, b) && Counts(b) && Phases(b) && LastTakenOk(b)
    requires b.preparing.Some? && Oldest(b) <= p < |b.published|
    ensures p < |b.published| < p + l.Queue().size
  {
    Windows(l, b);
    if b.device.lastTaken.Some? { LastTakenOwned(b); }
  }

  /** Two positions less than a ring apart have different entries in both rings. */
  lemma SlotsDiffer(l: Lane, i: nat, j: nat)
    requires l.Valid() && l.Queue().size > 0 && i < j < i + l.Queue().size
    ensures !Meets(AvailableSlot(l.Queue(), Index16(j)), 2, AvailableSlot(l.Queue(), Index16(i)), 2)
    ensures !Meets(UsedSlot(l.Queue(), Index16(j)), 8, UsedSlot(l.Queue(), Index16(i)), 8)
  {
    LaneQueueOk(l);
    PositionIsExact(i, l.Queue().size);
    PositionIsExact(j, l.Queue().size);
    PositionsDiffer(i, j, l.Queue().size);
  }

  lemma EntryStoreKeepsEntries(l: Lane, b: Ledger, m: Memory, bytes: seq<byte>)
    requires l.Valid() && l.Queue().size > 0 && LedgerOk(l, b) && b.preparing.Some? && AvailableOk(l.Queue(), b, m)
    requires |bytes| == 2
    ensures AvailableOk(l.Queue(), b, WriteMem(m, AvailableSlot(l.Queue(), b.driver.produced), bytes))
  {
    var q := l.Queue();
    var a := AvailableSlot(q, b.driver.produced);
    HoldsOutside(m, a, bytes, AvailableIndex(q), Le(Index16(|b.published|), 2));
    forall p: nat | Oldest(b) <= p < |b.published|
      ensures Holds(WriteMem(m, a, bytes), AvailableSlot(q, Index16(p)), Le(b.published[p].wire.head, 2))
    {
      WindowFits(l, b, p);
      SlotsDiffer(l, p, |b.published|);
      HoldsOutside(m, a, bytes, AvailableSlot(q, Index16(p)), Le(b.published[p].wire.head, 2));
    }
  }

  lemma AvailableStoreKeepsUsed(l: Lane, b: Ledger, m: Memory, a: int, bytes: seq<byte>, call: DeviceCall)
    requires l.Valid() && l.Queue().size > 0 && UsedOk(l.Queue(), b, m) && DeviceCallOk(l, b, m, call)
    requires Inside(a, |bytes|, l.Queue().available, RingLength(l.Queue(), Available))
    ensures UsedOk(l.Queue(), b, WriteMem(m, a, bytes)) && DeviceCallOk(l, b, WriteMem(m, a, bytes), call)
  {
    RingStoreSame(l, m, a, bytes, Available, Used);
    UsedKept(l.Queue(), b, m, WriteMem(m, a, bytes));
    DeviceCallKept(l, b, m, WriteMem(m, a, bytes), call);
  }

  lemma EntryStored(l: Lane, b: Ledger, h: nat, m: Memory)
    requires l.Valid() && l.Queue().size > 0 && Ends(l, b) && Prepares(b, h)
    requires StoredUpTo(l.Queue(), m, WireOf(b, h), b.driver.produced, RecordCount(WireOf(b, h)))
    ensures StoredUpTo(l.Queue(), WriteMem(m, AvailableSlot(l.Queue(), b.driver.produced), Le(WireOf(b, h).head, 2)),
                       WireOf(b, h), b.driver.produced, RecordCount(WireOf(b, h)) + 1)
  {
    var q, w, k := l.Queue(), WireOf(b, h), RecordCount(WireOf(b, h));
    var a, bytes := AvailableSlot(q, b.driver.produced), Le(w.head, 2);
    HeldValid(l, b, h);
    RingPlaces(q, b.driver.produced);
    RingStoreSpares(l, w, m, a, bytes, Available);
    WriteHolds(m, a, bytes);
    StoredKept(l, w, m, WriteMem(m, a, bytes), b.driver.produced, k);
    assert StoredAt(q, WriteMem(m, a, bytes), w, b.driver.produced, k);
  }

  /** Storing the ring entry: its position is not one that may still be read. */
  lemma StoreEntryKeeps(l: Lane, s: System, h: nat)
    requires l.Valid() && l.Queue().size > 0 && Inv(l, s) && Prepares(s.b, h)
    requires s.driving == Publishing(RecordCount(WireOf(s.b, h)))
    ensures Inv(l, DoStoreNext(l, s))
  {
    var q, b, m, k := l.Queue(), s.b, s.memory, RecordCount(WireOf(s.b, h));
    var a, bytes := AvailableSlot(q, b.driver.produced), Le(WireOf(b, h).head, 2);
    RingPlaces(q, b.driver.produced);
    AvailableStoreKeepsUsed(l, b, m, a, bytes, s.serving);
    RingStoreKeepsChains(l, b, m, a, bytes, Available);
    EntryStoreKeepsEntries(l, b, m, bytes);
    EntryStored(l, b, h, m);
    DriverStoreKeeps(l, s, WriteMem(m, a, bytes), Publishing(k + 1));
  }
}
