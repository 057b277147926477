/** Steps that move a chain from one phase to the next keep memory and calls in order. */
module RingMemory {
  import opened Bytes
  import opened Channel
  import opened Chains
  import opened Descriptors
  import opened Endpoint
  import opened ScatterGather
  import opened Footprint
  import opened Wrap
  import opened SplitRing
  import opened RingInvariant
  import opened RingFrames
  import opened RingSteps
  import opened RingLedger

  /** The chain at `h` is where it was, as the same publication and with the same response. */
  ghost predicate SameChain(b: Ledger, b': Ledger, h: nat) {
    && h in b.phase && h in b'.phase
    && h < |b.driver.slots| && h < |b'.driver.slots| && b.driver.slots[h].Held? && b'.driver.slots[h].Held?
    && WireOf(b', h) == WireOf(b, h)
    && (b'.phase[h].Preparing? <==> b.phase[h].Preparing?)
    && (!b.phase[h].Preparing? ==>
          b'.phase[h].publication == b.phase[h].publication && Response(b', b'.phase[h]) == Response(b, b.phase[h]))
  }

  lemma ChainSame(q: Queue, b: Ledger, b': Ledger, h: nat, m: Memory)
    requires ChainOk(q, b, h, m) && SameChain(b, b', h) && b.published <= b'.published
    ensures ChainOk(q, b', h, m)
  {
  }

  /** A new ledger over new memory, with both calls in order. */
  lemma Becomes(l: Lane, s: System, m: Memory, b: Ledger, driving: DriverCall, serving: DeviceCall)
    requires l.index < |l.queues| && l.Queue().size > 0 && !s.faulted
    requires LedgerOk(l, b) && MemoryOk(l.Queue(), b, m)
    requires DriverCallOk(l.Queue(), b, m, driving) && DeviceCallOk(l, b, m, serving)
    ensures Inv(l, System(m, b, driving, serving, s.faulted))
  {
  }

  // ------------------------------------------------------------- publication

  lemma BeginChains(l: Lane, b: Ledger, m: Memory, handle: nat, w: Wire, capacity: nat)
    requires l.Valid() && ValidWire(l, w) && w.head < |b.driver.slots| && b.driver.slots[w.head].Empty?
    requires ChainsOk(l.Queue(), b, m)
    requires forall h :: h in b.phase ==> h < |b.driver.slots| && b.driver.slots[h].Held?
    ensures ChainsOk(l.Queue(), Begin(l, b, handle, w, capacity), m)
  {
    var b' := Begin(l, b, handle, w, capacity);
    forall h | h in b'.phase ensures ChainOk(l.Queue(), b', h, m) {
      if h != w.head {
        assert ChainOk(l.Queue(), b, h, m);
        ChainSame(l.Queue(), b, b', h, m);
      }
    }
  }

  lemma PublishKeeps(l: Lane, s: System, handle: nat, chain: Chain)
    requires l.Valid() && l.Queue().size > 0 && Inv(l, s)
    ensures Inv(l, DoPublish(l, s, handle, chain))
  {
    var s', w := DoPublish(l, s, handle, chain), chain.wire;
    if s' != s {
      BeginKeeps(l, s.b, handle, w, chain.capacity);
      forall h | h in s.b.phase ensures h < |s.b.driver.slots| && s.b.driver.slots[h].Held? {
        assert PhaseOk(s.b, h, s.b.phase[h]);
      }
      BeginChains(l, s.b, s.memory, handle, w, chain.capacity);
      BeginRings(l, s, handle, w, chain.capacity);
      Becomes(l, s, s.memory, s'.b, Publishing(0), s.serving);
    }
  }

  lemma BeginRings(l: Lane, s: System, handle: nat, w: Wire, capacity: nat)
    requires l.Valid() && l.Queue().size > 0 && ValidWire(l, w) && w.head < |s.b.driver.slots|
    requires AvailableOk(l.Queue(), s.b, s.memory) && UsedOk(l.Queue(), s.b, s.memory) && DeviceCallOk(l, s.b, s.memory, s.serving)
    ensures var b' := Begin(l, s.b, handle, w, capacity);
            && AvailableOk(l.Queue(), b', s.memory) && UsedOk(l.Queue(), b', s.memory)
            && DeviceCallOk(l, b', s.memory, s.serving) && DriverCallOk(l.Queue(), b', s.memory, Publishing(0))
  {
  }

  // ------------------------------------------------------------ announcement

  /** The index store of the running publication. */
  function Announced(q: Queue, m: Memory, produced: u16): Memory {
    WriteMem(m, AvailableIndex(q), Le(Next16(produced), 2))
  }

  lemma AnnounceRing(l: Lane, b: Ledger, m: Memory, h: nat, request: seq<byte>)
    requires l.Valid() && l.Queue().size > 0 && Counts(b) && Prepares(b, h) && AvailableOk(l.Queue(), b, m)
    requires Holds(m, AvailableSlot(l.Queue(), b.driver.produced), Le(WireOf(b, h).head, 2))
    ensures AvailableOk(l.Queue(), Announce(b, h, request), Announced(l.Queue(), m, b.driver.produced))
  {
    var q, b' := l.Queue(), Announce(b, h, request);
    var a, bytes := AvailableIndex(q), Le(Next16(b.driver.produced), 2);
    NextIndex(|b.published|);
    WriteHolds(m, a, bytes);
    forall p: nat | Oldest(b') <= p < |b'.published|
      ensures Holds(WriteMem(m, a, bytes), AvailableSlot(q, Index16(p)), Le(b'.published[p].wire.head, 2))
    {
      HoldsOutside(m, a, bytes, AvailableSlot(q, Index16(p)), Le(b'.published[p].wire.head, 2));
    }
  }

  /** The chain stays laid out across the index store. */
  lemma AnnounceLaid(l: Lane, m: Memory, w: Wire, produced: u16)
    requires l.Valid() && l.Queue().size > 0 && ValidWire(l, w) && Laid(m, l.Queue(), w)
    ensures Laid(Announced(l.Queue(), m, produced), l.Queue(), w)
  {
    RingPlaces(l.Queue(), 0);
    RingStoreSpares(l, w, m, AvailableIndex(l.Queue()), Le(Next16(produced), 2), Available);
    LaidKept(m, Announced(l.Queue(), m, produced), l.Queue(), w);
  }

  lemma AnnounceChains(q: Queue, b: Ledger, m: Memory, h: nat)
    requires Prepares(b, h) && ChainsOk(q, b, m) && Direct(WireOf(b, h)) <= |WireOf(b, h).segments|
    requires Laid(m, q, WireOf(b, h)) && h in b.phase
    requires forall k :: k in b.phase && b.phase[k].Preparing? ==> k == h
    ensures ChainsOk(q, Announce(b, h, Gather(m, WireOf(b, h).segments, false)), m)
  {
    var b' := Announce(b, h, Gather(m, WireOf(b, h).segments, false));
    forall k | k in b'.phase ensures ChainOk(q, b', k, m) {
      if k == h { AnnounceOwnChain(q, b, m, h); }
      else {
        assert ChainOk(q, b, k, m);
        ChainSame(q, b, b', k, m);
      }
    }
  }

  lemma AnnounceOwnChain(q: Queue, b: Ledger, m: Memory, h: nat)
    requires Prepares(b, h) && Direct(WireOf(b, h)) <= |WireOf(b, h).segments| && Laid(m, q, WireOf(b, h))
    ensures ChainOk(q, Announce(b, h, Gather(m, WireOf(b, h).segments, false)), h, m)
  {
  }

  lemma AnnounceCalls(l: Lane, b: Ledger, m: Memory, h: nat, request: seq<byte>, serving: DeviceCall)
    requires l.index < |l.queues| && l.Queue().size > 0 && Prepares(b, h)
    requires UsedOk(l.Queue(), b, m) && DeviceCallOk(l, b, m, serving)
    ensures UsedOk(l.Queue(), Announce(b, h, request), m) && DeviceCallOk(l, Announce(b, h, request), m, serving)
  {
  }

  /** Before the index store, the chain's records and its ring entry are all in place. */
  lemma AnnounceReady(l: Lane, b: Ledger, m: Memory, h: nat, call: DriverCall)
    requires l.Valid() && l.Queue().size > 0 && Ends(l, b) && Phases(b) && Prepares(b, h)
    requires call == Publishing(RecordCount(WireOf(b, h)) + 1) && DriverCallOk(l.Queue(), b, m, call)
    ensures ValidWire(l, WireOf(b, h)) && Laid(m, l.Queue(), WireOf(b, h))
    ensures Holds(m, AvailableSlot(l.Queue(), b.driver.produced), Le(WireOf(b, h).head, 2))
    ensures h in b.phase && forall k :: k in b.phase && b.phase[k].Preparing? ==> k == h
  {
    SlotFromCall(l.Queue(), b, m, call);
    HeldValid(l, b, h);
    AllStoredIsLaid(l.Queue(), m, WireOf(b, h), b.driver.produced, call.stores);
    forall k | k in b.phase && b.phase[k].Preparing? ensures k == h { assert PhaseOk(b, k, b.phase[k]); }
  }

  lemma AnnounceMemory(l: Lane, b: Ledger, m: Memory, h: nat)
    requires l.Valid() && l.Queue().size > 0 && Ends(l, b) && Counts(b) && Prepares(b, h) && MemoryOk(l.Queue(), b, m)
    requires ValidWire(l, WireOf(b, h)) && Laid(m, l.Queue(), WireOf(b, h))
    requires Holds(m, AvailableSlot(l.Queue(), b.driver.produced), Le(WireOf(b, h).head, 2))
    requires h in b.phase && forall k :: k in b.phase && b.phase[k].Preparing? ==> k == h
    ensures var m' := Announced(l.Queue(), m, b.driver.produced);
            var b' := Announce(b, h, Gather(m', WireOf(b, h).segments, false));
            AvailableOk(l.Queue(), b', m') && ChainsOk(l.Queue(), b', m')
  {
    var q, m' := l.Queue(), Announced(l.Queue(), m, b.driver.produced);
    AnnounceRing(l, b, m, h, Gather(m', WireOf(b, h).segments, false));
    AnnounceLaid(l, m, WireOf(b, h), b.driver.produced);
    RingPlaces(q, 0);
    RingStoreKeepsChains(l, b, m, AvailableIndex(q), Le(Next16(b.driver.produced), 2), Available);
    AnnounceChains(q, b, m', h);
  }

  lemma AnnounceUsed(l: Lane, b: Ledger, m: Memory, h: nat, request: seq<byte>, serving: DeviceCall)
    requires l.Valid() && l.Queue().size > 0 && Prepares(b, h) && UsedOk(l.Queue(), b, m) && DeviceCallOk(l, b, m, serving)
    ensures var m', b' := Announced(l.Queue(), m, b.driver.produced), Announce(b, h, request);
            UsedOk(l.Queue(), b', m') && DeviceCallOk(l, b', m', serving)
  {
    RingPlaces(l.Queue(), 0);
    AvailableStoreKeepsUsed(l, b, m, AvailableIndex(l.Queue()), Le(Next16(b.driver.produced), 2), serving);
    AnnounceCalls(l, b, Announced(l.Queue(), m, b.driver.produced), h, request, serving);
  }

  lemma AnnounceStored(l: Lane, b: Ledger, m: Memory, h: nat, call: DriverCall)
    requires l.Valid() && l.Queue().size > 0 && Ends(l, b) && Counts(b) && Phases(b) && Prepares(b, h)
    requires MemoryOk(l.Queue(), b, m) && DriverCallOk(l.Queue(), b, m, call)
    requires call == Publishing(RecordCount(WireOf(b, h)) + 1)
    ensures var m' := Announced(l.Queue(), m, b.driver.produced);
            var b' := Announce(b, h, Gather(m', WireOf(b, h).segments, false));
            AvailableOk(l.Queue(), b', m') && ChainsOk(l.Queue(), b', m')
  {
    AnnounceReady(l, b, m, h, call);
    AnnounceMemory(l, b, m, h);
  }

  lemma AnnounceIsStep(l: Lane, s: System, h: nat)
    requires l.index < |l.queues| && l.Queue().size > 0 && Prepares(s.b, h)
    requires s.driving == Publishing(RecordCount(WireOf(s.b, h)) + 1)
    ensures var m' := Announced(l.Queue(), s.memory, s.b.driver.produced);
            var b' := Announce(s.b, h, Gather(m', WireOf(s.b, h).segments, false));
            DoStoreNext(l, s) == System(m', b', DriverIdle, s.serving, s.faulted)
  {
  }

  /** The index store makes the chain available. */
  lemma AnnounceKeepsInv(l: Lane, s: System, h: nat)
    requires l.Valid() && l.Queue().size > 0 && Inv(l, s) && Prepares(s.b, h)
    requires s.driving == Publishing(RecordCount(WireOf(s.b, h)) + 1)
    ensures Inv(l, DoStoreNext(l, s))
  {
    AnnounceIsStep(l, s, h);
    var b, m := s.b, s.memory;
    var m' := Announced(l.Queue(), m, b.driver.produced);
    var request := Gather(m', WireOf(b, h).segments, false);
    AnnounceStored(l, b, m, h, s.driving);
    AnnounceUsed(l, b, m, h, request, s.serving);
    AnnounceKeeps(l, b, h, request);
    Becomes(l, s, m', Announce(b, h, request), DriverIdle, s.serving);
  }
}
