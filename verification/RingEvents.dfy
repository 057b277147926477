/** Who writes where on a lane, and what becomes of the two event words. */
module RingEvents {
  import opened Bytes
  import opened Ranges
  import opened Channel
  import opened Chains
  import opened Descriptors
  import opened Endpoint
  import opened ScatterGather
  import opened Footprint
  import opened SplitRing
  import opened RingInvariant
  import opened RingFrames
  import opened RingSteps
  import opened RingAnswers
  import opened RingTheorems

  // ------------------------------------------------------------ single writers

  /** What the driver may write: descriptors, its own indirect tables and the available ring. */
  ghost predicate DriverPlace(q: Queue, w: Wire, x: int) {
    InTable(w, x) || InRing(q, Descriptors, x) || InRing(q, Available, x)
  }

  /** Every store of a publication, and the driver's event word, is in the driver's areas. */
  lemma DriverWritesOwn(l: Lane, w: Wire, produced: u16, k: nat, x: int)
    requires l.Valid() && l.Queue().size > 0 && ValidWire(l, w) && k <= RecordCount(w) + 1
    ensures var store := PublishStore(l.Queue(), w, produced, k);
            In(x, store.at, |store.bytes|) ==> DriverPlace(l.Queue(), w, x)
    ensures In(x, EventWord(l.Queue(), Driver), 2) ==> InRing(l.Queue(), Available, x)
  {
    hide ValidWire, Encode;
    RingPlaces(l.Queue(), produced);
    var store := PublishStore(l.Queue(), w, produced, k);
    if k < RecordCount(w) && In(x, store.at, |store.bytes|) {
      DirectFits(l, w);
      StoreIsRecord(l.Queue(), w, produced, k);
      RecordSides(l, w, StoredRecord(w, k), x);
    }
  }

  lemma DirectFits(l: Lane, w: Wire)
    requires l.index < |l.queues| && ValidWire(l, w)
    ensures Direct(w) <= |w.segments|
  {
  }

  /** Every store of a completion, and the device's event word, is in the used ring. */
  lemma DeviceWritesOwn(q: Queue, head: u16, written: nat, produced: u16, k: nat, x: int)
    requires q.size > 0 && k < 2
    ensures var store := CompleteStores(q, head, written, produced)[k];
            In(x, store.at, |store.bytes|) ==> InRing(q, Used, x)
    ensures In(x, EventWord(q, Device), 2) ==> InRing(q, Used, x)
  {
    RingPlaces(q, produced);
  }

  // --------------------------------------------------------------- event words

  /** The 16-bit word at `a` is the same in both memories. */
  ghost predicate WordSame(m: Memory, m': Memory, a: int) {
    m'(a) == m(a) && m'(a + 1) == m(a + 1)
  }

  lemma LoadSame(m: Memory, m': Memory, a: int)
    requires WordSame(m, m', a)
    ensures Load16(m', a) == Load16(m, a)
  {
    assert ReadMem(m', a, 2) == ReadMem(m, a, 2);
  }

  lemma LoadStored(m: Memory, a: int, v: u16)
    ensures Load16(WriteMem(m, a, Le(v, 2)), a) == v
  {
    WriteHolds(m, a, Le(v, 2));
    FieldRoundTrip(v);
  }

  ghost predicate EventsSame(q: Queue, m: Memory, m': Memory) {
    WordSame(m, m', AvailableEvent(q)) && WordSame(m, m', UsedEvent(q))
  }

  lemma RingsKeepEvents(q: Queue, m: Memory, m': Memory)
    requires q.size > 0 && RingSame(q, Available, m, m') && RingSame(q, Used, m, m')
    ensures EventsSame(q, m, m')
  {
    RingPlaces(q, 0);
    assert InRing(q, Used, AvailableEvent(q)) && InRing(q, Used, AvailableEvent(q) + 1);
    assert InRing(q, Available, UsedEvent(q)) && InRing(q, Available, UsedEvent(q) + 1);
  }

  /** A store in one ring keeps the event word of the other. */
  lemma OtherRingKept(l: Lane, m: Memory, a: int, bytes: seq<byte>, r: Ring)
    requires l.Valid() && l.Queue().size > 0 && r != Descriptors
    requires Inside(a, |bytes|, RingBase(l.Queue(), r), RingLength(l.Queue(), r))
    ensures WordSame(m, WriteMem(m, a, bytes), if r == Available then AvailableEvent(l.Queue()) else UsedEvent(l.Queue()))
  {
    var q, other := l.Queue(), if r == Available then Used else Available;
    RingStoreSame(l, m, a, bytes, r, other);
    RingPlaces(q, 0);
    var e := if r == Available then AvailableEvent(q) else UsedEvent(q);
    assert InRing(q, other, e) && InRing(q, other, e + 1);
  }

  lemma PublishStoreSpares(l: Lane, w: Wire, produced: u16, k: nat, m: Memory)
    requires l.Valid() && l.Queue().size > 0 && ValidWire(l, w) && k <= RecordCount(w) + 1
    ensures var store := PublishStore(l.Queue(), w, produced, k);
            EventsSame(l.Queue(), m, WriteMem(m, store.at, store.bytes))
  {
    hide ValidWire, Encode;
    var q, store := l.Queue(), PublishStore(l.Queue(), w, produced, k);
    var m' := WriteMem(m, store.at, store.bytes);
    RingPlaces(q, produced);
    EventApart(q, produced);
    if k < RecordCount(w) {
      DirectFits(l, w);
      StoreIsRecord(q, w, produced, k);
      forall r: Ring, x | r != Descriptors && InRing(q, r, x) ensures m'(x) == m(x) {
        RecordStoreOffRing(l, w, StoredRecord(w, k), m, store.bytes, r, x);
      }
      RingsKeepEvents(q, m, m');
    } else {
      OtherRingKept(l, m, store.at, store.bytes, Available);
    }
  }

  lemma UsedStoreSpares(l: Lane, m: Memory, a: int, bytes: seq<byte>)
    requires l.Valid() && l.Queue().size > 0 && l.Queue().used <= a && a + |bytes| <= AvailableEvent(l.Queue())
    ensures EventsSame(l.Queue(), m, WriteMem(m, a, bytes))
  {
    RingPlaces(l.Queue(), 0);
    OtherRingKept(l, m, a, bytes, Used);
  }

  lemma StoreNextSpares(l: Lane, s: System)
    requires l.Valid() && l.Queue().size > 0 && Inv(l, s)
    ensures EventsSame(l.Queue(), s.memory, DoStoreNext(l, s).memory)
  {
    hide Phases, Once, MemoryOk, DeviceCallOk, PublishStore;
    if s.driving.Publishing? {
      RunningPublication(l, s);
      HeldValid(l, s.b, s.b.preparing.value);
      PublishStoreSpares(l, WireOf(s.b, s.b.preparing.value), s.b.driver.produced, s.driving.stores, s.memory);
    }
  }

  lemma AppendSpares(l: Lane, s: System, h: nat, bytes: seq<byte>)
    requires l.Valid() && l.Queue().size > 0 && Inv(l, s)
    ensures EventsSame(l.Queue(), s.memory, DoAppend(s, h, bytes).memory)
  {
    hide Once, DriverCallOk, DeviceCallOk, Scatter, Gather;
    var s', b, m := DoAppend(s, h, bytes), s.b, s.memory;
    if s' != s {
      ServedIs(l, b, m, h);
      ResponseGrows(l, WireOf(b, h), m, b.phase[h].response, bytes);
      ResponseKeepsRings(l, WireOf(b, h), m, s'.memory);
      RingsKeepEvents(l.Queue(), m, s'.memory);
    }
  }

  lemma TouchSparesEvents(l: Lane, s: System, at: int, bytes: seq<byte>)
    requires l.Valid() && l.Queue().size > 0
    ensures EventsSame(l.Queue(), s.memory, DoTouch(l, s, at, bytes).memory)
  {
    var q, m, m' := l.Queue(), s.memory, DoTouch(l, s, at, bytes).memory;
    if forall x :: In(x, at, |bytes|) ==> Outside(l, s.b, x) {
      forall r: Ring, x | InRing(q, r, x) ensures m'(x) == m(x) {
        assert In(x, at, |bytes|) ==> OffRings(q, x);
      }
    }
    RingsKeepEvents(q, m, m');
  }

  lemma CompletionSpares(l: Lane, s: System, h: nat)
    requires l.Valid() && l.Queue().size > 0
    ensures EventsSame(l.Queue(), s.memory, DoStoreUsed(l, s, h).memory)
    ensures EventsSame(l.Queue(), s.memory, DoStoreUsedIndex(l, s).memory)
  {
    var q := l.Queue();
    RingPlaces(q, s.b.device.produced);
    EventApart(q, s.b.device.produced);
    if Accepts(s, h) {
      UsedStoreSpares(l, s.memory, UsedSlot(q, s.b.device.produced), UsedEntry(h, s.b.device.slots[h].chain.written));
    }
    UsedStoreSpares(l, s.memory, UsedIndex(q), Le(Next16(s.b.device.produced), 2));
  }

  /** Only arming changes an event word. */
  lemma StepSpares(l: Lane, s: System, step: Step)
    requires l.Valid() && l.Queue().size > 0 && Inv(l, s) && !step.ArmDriver? && !step.ArmDevice?
    ensures EventsSame(l.Queue(), s.memory, Next(l, s, step).memory)
  {
    hide Inv, DoStoreNext, DoAppend, DoTouch, DoStoreUsed, DoStoreUsedIndex;
    match step
    case StoreNext => StoreNextSpares(l, s);
    case Touch(at, bytes) => TouchSparesEvents(l, s, at, bytes);
    case Append(h, bytes) => AppendSpares(l, s, h, bytes);
    case StoreUsed(h) => CompletionSpares(l, s, h);
    case StoreUsedIndex => CompletionSpares(l, s, 0);
    case _ =>
  }

  /** Arming stores the count where the peer looks for it, and keeps the other word. */
  lemma ArmStores(l: Lane, s: System)
    requires l.Valid() && l.Queue().size > 0 && !s.faulted
    ensures var m' := Next(l, s, ArmDriver).memory;
            Load16(m', UsedEvent(l.Queue())) == s.b.driver.consumed && WordSame(s.memory, m', AvailableEvent(l.Queue()))
    ensures var m' := Next(l, s, ArmDevice).memory;
            Load16(m', AvailableEvent(l.Queue())) == s.b.device.consumed && WordSame(s.memory, m', UsedEvent(l.Queue()))
  {
    var q := l.Queue();
    RingPlaces(q, 0);
    LoadStored(s.memory, UsedEvent(q), s.b.driver.consumed);
    LoadStored(s.memory, AvailableEvent(q), s.b.device.consumed);
    OtherRingKept(l, s.memory, UsedEvent(q), Le(s.b.driver.consumed, 2), Available);
    OtherRingKept(l, s.memory, AvailableEvent(q), Le(s.b.device.consumed, 2), Used);
  }
}
