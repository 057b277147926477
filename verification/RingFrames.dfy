/** Which stores leave the promises of the ring invariant standing. */
module RingFrames {
  import opened Bytes
  import opened Ranges
  import opened Channel
  import opened Chains
  import opened Descriptors
  import opened Endpoint
  import opened Footprint
  import opened Wrap
  import opened SplitRing
  import opened RingInvariant

  lemma HoldsOutside(m: Memory, a: int, bytes: seq<byte>, b: int, s: seq<byte>)
    requires Holds(m, b, s) && !Meets(a, |bytes|, b, |s|)
    ensures Holds(WriteMem(m, a, bytes), b, s)
  {
    HoldsKept(m, WriteMem(m, a, bytes), b, s);
  }

  /** The bytes of one ring are the same in both memories. */
  ghost predicate RingSame(q: Queue, r: Ring, m: Memory, m': Memory) {
    forall x :: InRing(q, r, x) ==> m'(x) == m(x)
  }

  lemma HoldsInRing(q: Queue, r: Ring, m: Memory, m': Memory, a: int, s: seq<byte>)
    requires RingSame(q, r, m, m') && Holds(m, a, s) && Inside(a, |s|, RingBase(q, r), RingLength(q, r))
    ensures Holds(m', a, s)
  {
    forall x | In(x, a, |s|) ensures m'(x) == m(x) { assert InRing(q, r, x); }
    HoldsKept(m, m', a, s);
  }

  /** Ring words and entries are inside their rings. */
  lemma RingPlaces(q: Queue, i: u16)
    requires q.size > 0
    ensures Inside(AvailableIndex(q), 2, q.available, RingLength(q, Available))
    ensures Inside(AvailableSlot(q, i), 2, q.available, RingLength(q, Available))
    ensures Inside(UsedEvent(q), 2, q.available, RingLength(q, Available))
    ensures Inside(UsedIndex(q), 2, q.used, RingLength(q, Used))
    ensures Inside(UsedSlot(q, i), 8, q.used, RingLength(q, Used))
    ensures Inside(AvailableEvent(q), 2, q.used, RingLength(q, Used))
  {
    assert i % q.size + 1 <= q.size;
  }

  // ------------------------------------------------------------------- rings

  lemma AvailableKept(q: Queue, s: Ledger, m: Memory, m': Memory)
    requires q.size > 0 && AvailableOk(q, s, m) && RingSame(q, Available, m, m')
    ensures AvailableOk(q, s, m')
  {
    RingPlaces(q, 0);
    HoldsInRing(q, Available, m, m', AvailableIndex(q), Le(Index16(|s.published|), 2));
    forall p: nat | Oldest(s) <= p < |s.published|
      ensures Holds(m', AvailableSlot(q, Index16(p)), Le(s.published[p].wire.head, 2))
    {
      RingPlaces(q, Index16(p));
      HoldsInRing(q, Available, m, m', AvailableSlot(q, Index16(p)), Le(s.published[p].wire.head, 2));
    }
  }

  lemma UsedKept(q: Queue, s: Ledger, m: Memory, m': Memory)
    requires q.size > 0 && UsedOk(q, s, m) && RingSame(q, Used, m, m')
    ensures UsedOk(q, s, m')
  {
    RingPlaces(q, 0);
    HoldsInRing(q, Used, m, m', UsedIndex(q), Le(Index16(|s.completed|), 2));
    forall j | s.reaped <= j < |s.completed|
      ensures Holds(m', UsedSlot(q, Index16(j)), UsedEntry(s.completed[j].head, |s.completed[j].response|))
    {
      RingPlaces(q, Index16(j));
      HoldsInRing(q, Used, m, m', UsedSlot(q, Index16(j)), UsedEntry(s.completed[j].head, |s.completed[j].response|));
    }
  }

  lemma RingStoreSame(l: Lane, m: Memory, a: int, bytes: seq<byte>, r: Ring, other: Ring)
    requires l.Valid() && r != other && Inside(a, |bytes|, RingBase(l.Queue(), r), RingLength(l.Queue(), r))
    ensures RingSame(l.Queue(), other, m, WriteMem(m, a, bytes))
  {
    forall x | InRing(l.Queue(), other, x) ensures WriteMem(m, a, bytes)(x) == m(x) {
      RingsDisjoint(l, other, r, x);
    }
  }

  // ------------------------------------------------------------------ chains

  lemma ChainKept(q: Queue, s: Ledger, h: nat, m: Memory, m': Memory)
    requires ChainOk(q, s, h, m) && (!s.phase[h].Preparing? ==> Spared(m, m', q, WireOf(s, h)))
    ensures ChainOk(q, s, h, m')
  {
    if !s.phase[h].Preparing? {
      LaidKept(m, m', q, WireOf(s, h));
      GatherKept(m, m', WireOf(s, h).segments, false);
      GatherKept(m, m', WireOf(s, h).segments, true);
    }
  }

  lemma HeldValid(l: Lane, s: Ledger, h: nat)
    requires l.index < |l.queues| && Ends(l, s) && h < |s.driver.slots| && s.driver.slots[h].Held?
    ensures ValidWire(l, WireOf(s, h)) && WireOf(s, h).head == h
  {
    assert SlotOk(l, Driver, h, s.driver.slots[h]);
  }

  lemma RingStoreKeepsChains(l: Lane, s: Ledger, m: Memory, a: int, bytes: seq<byte>, r: Ring)
    requires l.Valid() && Ends(l, s) && ChainsOk(l.Queue(), s, m) && r != Descriptors
    requires Inside(a, |bytes|, RingBase(l.Queue(), r), RingLength(l.Queue(), r))
    ensures ChainsOk(l.Queue(), s, WriteMem(m, a, bytes))
  {
    forall h | h in s.phase ensures ChainOk(l.Queue(), s, h, WriteMem(m, a, bytes)) {
      assert ChainOk(l.Queue(), s, h, m);
      HeldValid(l, s, h);
      RingStoreSpares(l, WireOf(s, h), m, a, bytes, r);
      ChainKept(l.Queue(), s, h, m, WriteMem(m, a, bytes));
    }
  }

  // ------------------------------------------------------ running publication

  /** The record that the j-th store of a publication writes. */
  function StoredRecord(w: Wire, j: nat): (k: nat)
    requires j < RecordCount(w) && Direct(w) <= |w.segments|
    ensures k < RecordCount(w)
  {
    if j >= |w.segments| then Direct(w) else if w.indirectLength == 0 || j < Direct(w) then j else j + 1
  }

  lemma StoreIsRecord(q: Queue, w: Wire, produced: u16, j: nat)
    requires q.size > 0 && j < RecordCount(w) && Direct(w) <= |w.segments|
    ensures PublishStore(q, w, produced, j).at == RecordAt(q, w, StoredRecord(w, j)).at
    ensures PublishStore(q, w, produced, j).bytes == Encode(RecordAt(q, w, StoredRecord(w, j)).desc)
  {
  }

  /** Once every record is stored, the chain is laid out. */
  lemma AllStoredIsLaid(q: Queue, m: Memory, w: Wire, produced: u16, k: nat)
    requires q.size > 0 && RecordCount(w) <= k <= RecordCount(w) + 1 && Direct(w) <= |w.segments|
    requires StoredUpTo(q, m, w, produced, k)
    ensures Laid(m, q, w)
  {
    forall r | 0 <= r < RecordCount(w) ensures LaidAt(m, q, w, r) {
      var j := if w.indirectLength == 0 || r < Direct(w) then r else if r == Direct(w) then |w.segments| else r - 1;
      assert StoredAt(q, m, w, produced, j);
      StoreIsRecord(q, w, produced, j);
      assert StoredRecord(w, j) == r;
    }
  }

  /** A store outside the chain's records and its ring entry keeps what was stored so far. */
  lemma StoredKept(l: Lane, w: Wire, m: Memory, m': Memory, produced: u16, k: nat)
    requires l.index < |l.queues| && l.Queue().size > 0 && ValidWire(l, w) && k <= RecordCount(w) + 1
    requires StoredUpTo(l.Queue(), m, w, produced, k)
    requires forall x :: OnRecord(l.Queue(), w, x) ==> m'(x) == m(x)
    requires k > RecordCount(w) ==> Holds(m', AvailableSlot(l.Queue(), produced), Le(w.head, 2))
    ensures StoredUpTo(l.Queue(), m', w, produced, k)
  {
    var q := l.Queue();
    forall j | 0 <= j < k ensures StoredAt(q, m', w, produced, j) {
      assert StoredAt(q, m, w, produced, j);
      if j < RecordCount(w) {
        StoreIsRecord(q, w, produced, j);
        var r := RecordAt(q, w, StoredRecord(w, j));
        forall x | In(x, r.at, DESC_SIZE) ensures m'(x) == m(x) { assert OnRecord(q, w, x); }
        HoldsKept(m, m', r.at, Encode(r.desc));
      }
    }
  }

  /** The ring entry of the running publication, once stored, is still there. */
  ghost predicate SlotStored(q: Queue, s: Ledger, m: Memory, call: DriverCall)
    requires q.size > 0
  {
    call.Publishing? && s.preparing.Some? && s.preparing.value < |s.driver.slots| && s.driver.slots[s.preparing.value].Held?
    && call.stores > RecordCount(WireOf(s, s.preparing.value))
    ==> Holds(m, AvailableSlot(q, s.driver.produced), Le(WireOf(s, s.preparing.value).head, 2))
  }

  lemma SlotFromCall(q: Queue, s: Ledger, m: Memory, call: DriverCall)
    requires q.size > 0 && DriverCallOk(q, s, m, call)
    ensures SlotStored(q, s, m, call)
  {
    if call.Publishing? && call.stores > RecordCount(WireOf(s, s.preparing.value)) {
      assert StoredAt(q, m, WireOf(s, s.preparing.value), s.driver.produced, RecordCount(WireOf(s, s.preparing.value)));
    }
  }

  lemma SlotKept(q: Queue, s: Ledger, m: Memory, m': Memory, call: DriverCall)
    requires q.size > 0 && SlotStored(q, s, m, call) && RingSame(q, Available, m, m')
    ensures SlotStored(q, s, m', call)
  {
    RingPlaces(q, s.driver.produced);
    if call.Publishing? && s.preparing.Some? && s.preparing.value < |s.driver.slots| && s.driver.slots[s.preparing.value].Held?
       && call.stores > RecordCount(WireOf(s, s.preparing.value)) {
      HoldsInRing(q, Available, m, m', AvailableSlot(q, s.driver.produced), Le(WireOf(s, s.preparing.value).head, 2));
    }
  }

  lemma DriverCallKept(l: Lane, s: Ledger, m: Memory, m': Memory, call: DriverCall)
    requires l.Valid() && l.Queue().size > 0 && Ends(l, s) && DriverCallOk(l.Queue(), s, m, call)
    requires call.Publishing? ==> forall x :: OnRecord(l.Queue(), WireOf(s, s.preparing.value), x) ==> m'(x) == m(x)
    requires SlotStored(l.Queue(), s, m', call)
    ensures DriverCallOk(l.Queue(), s, m', call)
  {
    if call.Publishing? {
      HeldValid(l, s, s.preparing.value);
      StoredKept(l, WireOf(s, s.preparing.value), m, m', s.driver.produced, call.stores);
    }
  }

  /** A store in the used ring changes nothing for the driver's call. */
  lemma UsedStoreKeepsDriver(l: Lane, s: Ledger, m: Memory, a: int, bytes: seq<byte>, call: DriverCall)
    requires l.Valid() && l.Queue().size > 0 && Ends(l, s) && DriverCallOk(l.Queue(), s, m, call)
    requires Inside(a, |bytes|, l.Queue().used, RingLength(l.Queue(), Used))
    ensures DriverCallOk(l.Queue(), s, WriteMem(m, a, bytes), call)
  {
    SlotFromCall(l.Queue(), s, m, call);
    RingStoreSame(l, m, a, bytes, Used, Available);
    SlotKept(l.Queue(), s, m, WriteMem(m, a, bytes), call);
    if call.Publishing? {
      HeldValid(l, s, s.preparing.value);
      RingStoreSpares(l, WireOf(s, s.preparing.value), m, a, bytes, Used);
    }
    DriverCallKept(l, s, m, WriteMem(m, a, bytes), call);
  }

  /** Whatever keeps the used ring keeps the device's call. */
  lemma DeviceCallKept(l: Lane, s: Ledger, m: Memory, m': Memory, call: DeviceCall)
    requires l.index < |l.queues| && l.Queue().size > 0 && DeviceCallOk(l, s, m, call) && RingSame(l.Queue(), Used, m, m')
    ensures DeviceCallOk(l, s, m', call)
  {
    if call.Completing? {
      RingPlaces(l.Queue(), s.device.produced);
      HoldsInRing(l.Queue(), Used, m, m', UsedSlot(l.Queue(), s.device.produced),
                  UsedEntry(call.head, s.device.slots[call.head].chain.written));
    }
  }
}
