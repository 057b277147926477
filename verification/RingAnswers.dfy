/** The device's stores: response bytes, the used entry, the used index. */
module RingAnswers {
  import opened Bytes
  import opened Ranges
  import opened Channel
  import opened Chains
  import opened Descriptors
  import opened Endpoint
  import opened ScatterGather
  import opened Footprint
  import opened Wrap
  import opened SplitRing
  import opened RingInvariant
  import opened Conservation
  import opened RingFrames
  import opened RingSteps
  import opened RingLedger
  import opened RingMemory

  // --------------------------------------------------------------- responses

  lemma StoredIsResponse(m: Memory, m': Memory, w: Wire, n: nat, bytes: seq<byte>)
    requires Stored(m, m', w.segments, true, n, bytes)
    ensures OnlyResponse(m, m', w)
  {
    forall x | m'(x) != m(x) ensures OnSegment(w.segments, true, x) {
      assert ScatterGather.Covers(w.segments, true, n, |bytes|, x);
      var j :| n <= j < n + |bytes| && j < Total(w.segments, true) && Places(w.segments, true)[j] == x;
      var k := PlaceInSegment(w.segments, true, |w.segments|, j);
    }
  }

  /** The bytes appended to the response follow those already written. */
  lemma ResponseGrows(l: Lane, w: Wire, m: Memory, r: seq<byte>, bytes: seq<byte>)
    requires l.index < |l.queues| && ValidWire(l, w) && |r| + |bytes| <= Total(w.segments, true)
    requires r <= Gather(m, w.segments, true)
    ensures var m' := Scatter(m, w.segments, true, |r|, bytes);
            OnlyResponse(m, m', w) && r + bytes <= Gather(m', w.segments, true)
  {
    var m' := Scatter(m, w.segments, true, |r|, bytes);
    ResponseUnaliased(l, w);
    ScatterStores(m, w.segments, true, |r|, bytes);
    StoreAppends(m, m', w.segments, true, |r|, bytes);
    StoredIsResponse(m, m', w, |r|, bytes);
    assert Gather(m, w.segments, true)[..|r|] == r;
  }

  lemma ResponseKeepsRings(l: Lane, w: Wire, m: Memory, m': Memory)
    requires l.Valid() && ValidWire(l, w) && OnlyResponse(m, m', w)
    ensures forall r: Ring :: RingSame(l.Queue(), r, m, m')
  {
    forall r: Ring, x | InRing(l.Queue(), r, x) ensures m'(x) == m(x) { ResponseOffRings(l, w, m, m', r, x); }
  }

  lemma ResponseSparesHeld(l: Lane, b: Ledger, h: nat, k: nat, m: Memory, m': Memory)
    requires l.Valid() && Ends(l, b) && h < |b.driver.slots| && k < |b.driver.slots| && h != k
    requires b.driver.slots[h].Held? && b.driver.slots[k].Held? && OnlyResponse(m, m', WireOf(b, h))
    ensures ValidWire(l, WireOf(b, k)) && Spared(m, m', l.Queue(), WireOf(b, k))
  {
    HeldValid(l, b, h);
    HeldValid(l, b, k);
    ResponseSpares(l, WireOf(b, h), WireOf(b, k), m, m');
  }

  /** The served chain keeps its layout and request, and its response grows. */
  lemma GrowOwnChain(l: Lane, b: Ledger, h: nat, m: Memory, m': Memory, bytes: seq<byte>)
    requires l.Valid() && Ends(l, b) && ChainOk(l.Queue(), b, h, m) && ServingAt(b, h)
    requires h < |b.device.slots| && b.device.slots[h].Held? && OnlyResponse(m, m', WireOf(b, h))
    requires b.phase[h].response + bytes <= Gather(m', WireOf(b, h).segments, true)
    ensures ChainOk(l.Queue(), Grow(b, h, bytes), h, m')
  {
    HeldValid(l, b, h);
    ResponseOwn(l, WireOf(b, h), m, m');
    LaidKept(m, m', l.Queue(), WireOf(b, h));
    GatherKept(m, m', WireOf(b, h).segments, false);
  }

  lemma GrowChains(l: Lane, b: Ledger, h: nat, m: Memory, m': Memory, bytes: seq<byte>)
    requires l.Valid() && Ends(l, b) && ChainsOk(l.Queue(), b, m) && ServingAt(b, h)
    requires h < |b.driver.slots| && b.driver.slots[h].Held?
    requires h < |b.device.slots| && b.device.slots[h].Held? && OnlyResponse(m, m', WireOf(b, h))
    requires b.phase[h].response + bytes <= Gather(m', WireOf(b, h).segments, true)
    ensures ChainsOk(l.Queue(), Grow(b, h, bytes), m')
  {
    var b' := Grow(b, h, bytes);
    forall k | k in b'.phase ensures ChainOk(l.Queue(), b', k, m') {
      assert ChainOk(l.Queue(), b, k, m);
      if k == h { GrowOwnChain(l, b, h, m, m', bytes); } else { GrowOtherChain(l, b, h, k, m, m', bytes); }
    }
  }

  lemma GrowOtherChain(l: Lane, b: Ledger, h: nat, k: nat, m: Memory, m': Memory, bytes: seq<byte>)
    requires l.Valid() && Ends(l, b) && h != k && h < |b.driver.slots| && b.driver.slots[h].Held?
    requires h < |b.device.slots| && b.device.slots[h].Held?
    requires ChainOk(l.Queue(), b, k, m) && OnlyResponse(m, m', WireOf(b, h))
    ensures ChainOk(l.Queue(), Grow(b, h, bytes), k, m')
  {
    hide Ends, Laid, Gather, OnlyResponse;
    ResponseSparesHeld(l, b, h, k, m, m');
    ChainKept(l.Queue(), b, k, m, m');
    ChainSame(l.Queue(), b, Grow(b, h, bytes), k, m');
  }

  lemma GrowRings(l: Lane, b: Ledger, h: nat, m: Memory, m': Memory, bytes: seq<byte>)
    requires l.Valid() && l.Queue().size > 0 && Ends(l, b) && AvailableOk(l.Queue(), b, m) && UsedOk(l.Queue(), b, m)
    requires h < |b.driver.slots| && b.driver.slots[h].Held? && OnlyResponse(m, m', WireOf(b, h))
    requires h < |b.device.slots| && b.device.slots[h].Held?
    ensures AvailableOk(l.Queue(), Grow(b, h, bytes), m') && UsedOk(l.Queue(), Grow(b, h, bytes), m')
  {
    HeldValid(l, b, h);
    ResponseKeepsRings(l, WireOf(b, h), m, m');
    AvailableKept(l.Queue(), b, m, m');
    UsedKept(l.Queue(), b, m, m');
  }

  lemma GrowDriver(l: Lane, b: Ledger, h: nat, m: Memory, m': Memory, bytes: seq<byte>, driving: DriverCall)
    requires l.Valid() && l.Queue().size > 0 && Ends(l, b) && DriverCallOk(l.Queue(), b, m, driving)
    requires h < |b.driver.slots| && b.driver.slots[h].Held? && OnlyResponse(m, m', WireOf(b, h))
    requires h < |b.device.slots| && b.device.slots[h].Held? && b.preparing != Some(h)
    ensures DriverCallOk(l.Queue(), Grow(b, h, bytes), m', driving)
  {
    HeldValid(l, b, h);
    ResponseKeepsRings(l, WireOf(b, h), m, m');
    SlotFromCall(l.Queue(), b, m, driving);
    SlotKept(l.Queue(), b, m, m', driving);
    if driving.Publishing? { ResponseSparesHeld(l, b, h, b.preparing.value, m, m'); }
    DriverCallKept(l, b, m, m', driving);
  }

  /** A served chain: the driver holds the same wire, and what was written is its response so far. */
  lemma ServedIs(l: Lane, b: Ledger, m: Memory, h: nat)
    requires l.index < |l.queues| && Ends(l, b) && Phases(b) && ChainsOk(l.Queue(), b, m)
    requires h < |b.device.slots| && b.device.slots[h].Held?
    ensures ServingAt(b, h) && h < |b.driver.slots| && b.driver.slots[h].Held? && b.preparing != Some(h)
    ensures b.device.slots[h].chain.wire == WireOf(b, h) && ValidWire(l, WireOf(b, h))
    ensures b.device.slots[h].chain.written == |b.phase[h].response|
    ensures b.phase[h].response <= Gather(m, WireOf(b, h).segments, true)
  {
    assert ServingAt(b, h) && PhaseOk(b, h, b.phase[h]) && ChainOk(l.Queue(), b, h, m);
    HeldValid(l, b, h);
  }

  lemma AppendKeeps(l: Lane, s: System, h: nat, bytes: seq<byte>)
    requires l.Valid() && l.Queue().size > 0 && Inv(l, s)
    ensures Inv(l, DoAppend(s, h, bytes))
  {
    var s', b, m := DoAppend(s, h, bytes), s.b, s.memory;
    if s' != s {
      ServedIs(l, b, m, h);
      ResponseGrows(l, WireOf(b, h), m, b.phase[h].response, bytes);
      GrowKeeps(l, b, h, bytes);
      GrowChains(l, b, h, m, s'.memory, bytes);
      GrowRings(l, b, h, m, s'.memory, bytes);
      GrowDriver(l, b, h, m, s'.memory, bytes, s.driving);
      Becomes(l, s, s'.memory, Grow(b, h, bytes), s.driving, s.serving);
    }
  }

  // -------------------------------------------------------------- completing

  /** The used entry's position is not one the driver has still to read. */
  lemma UsedStoreKeepsEntries(l: Lane, b: Ledger, m: Memory, bytes: seq<byte>)
    requires l.Valid() && l.Queue().size > 0 && Ends(l, b) && Counts(b) && Phases(b) && UsedOk(l.Queue(), b, m)
    requires |bytes| == 8 && b.device.owned > 0
    ensures UsedOk(l.Queue(), b, WriteMem(m, UsedSlot(l.Queue(), b.device.produced), bytes))
  {
    var q, a := l.Queue(), UsedSlot(l.Queue(), b.device.produced);
    Windows(l, b);
    HoldsOutside(m, a, bytes, UsedIndex(q), Le(Index16(|b.completed|), 2));
    forall j | b.reaped <= j < |b.completed|
      ensures Holds(WriteMem(m, a, bytes), UsedSlot(q, Index16(j)), UsedEntry(b.completed[j].head, |b.completed[j].response|))
    {
      SlotsDiffer(l, j, |b.completed|);
      HoldsOutside(m, a, bytes, UsedSlot(q, Index16(j)), UsedEntry(b.completed[j].head, |b.completed[j].response|));
    }
  }

  lemma UsedStoreKeepsRest(l: Lane, b: Ledger, m: Memory, a: int, bytes: seq<byte>, driving: DriverCall)
    requires l.Valid() && l.Queue().size > 0 && Ends(l, b) && DriverCallOk(l.Queue(), b, m, driving)
    requires AvailableOk(l.Queue(), b, m) && ChainsOk(l.Queue(), b, m)
    requires Inside(a, |bytes|, l.Queue().used, RingLength(l.Queue(), Used))
    ensures var m' := WriteMem(m, a, bytes);
            AvailableOk(l.Queue(), b, m') && ChainsOk(l.Queue(), b, m') && DriverCallOk(l.Queue(), b, m', driving)
  {
    RingStoreSame(l, m, a, bytes, Used, Available);
    AvailableKept(l.Queue(), b, m, WriteMem(m, a, bytes));
    RingStoreKeepsChains(l, b, m, a, bytes, Used);
    UsedStoreKeepsDriver(l, b, m, a, bytes, driving);
  }

  lemma StoreUsedKeeps(l: Lane, s: System, h: nat)
    requires l.Valid() && l.Queue().size > 0 && Inv(l, s)
    ensures Inv(l, DoStoreUsed(l, s, h))
  {
    var q, b, m := l.Queue(), s.b, s.memory;
    if Accepts(s, h) {
      ServedCompletes(l, b, h);
      var a, bytes := UsedSlot(q, b.device.produced), UsedEntry(h, b.device.slots[h].chain.written);
      RingPlaces(q, b.device.produced);
      UsedStoreKeepsEntries(l, b, m, bytes);
      UsedStoreKeepsRest(l, b, m, a, bytes, s.driving);
      WriteHolds(m, a, bytes);
      Becomes(l, s, WriteMem(m, a, bytes), b, s.driving, Completing(h));
    }
  }

  lemma FinishUsed(l: Lane, b: Ledger, m: Memory, h: u16)
    requires l.index < |l.queues| && l.Queue().size > 0 && Counts(b) && Completes(b, h) && UsedOk(l.Queue(), b, m)
    requires Holds(m, UsedSlot(l.Queue(), b.device.produced), UsedEntry(h, b.device.slots[h].chain.written))
    ensures UsedOk(l.Queue(), Finish(b, h), WriteMem(m, UsedIndex(l.Queue()), Le(Next16(b.device.produced), 2)))
  {
    var q, b' := l.Queue(), Finish(b, h);
    var a, bytes := UsedIndex(q), Le(Next16(b.device.produced), 2);
    NextIndex(|b.completed|);
    WriteHolds(m, a, bytes);
    forall j | b'.reaped <= j < |b'.completed|
      ensures Holds(WriteMem(m, a, bytes), UsedSlot(q, Index16(j)), UsedEntry(b'.completed[j].head, |b'.completed[j].response|))
    {
      HoldsOutside(m, a, bytes, UsedSlot(q, Index16(j)), UsedEntry(b'.completed[j].head, |b'.completed[j].response|));
    }
  }

  lemma FinishChains(q: Queue, b: Ledger, m: Memory, h: u16)
    requires q.size > 0 && Completes(b, h) && ChainsOk(q, b, m)
    requires forall k :: k in b.phase ==> PhaseOk(b, k, b.phase[k])
    ensures ChainsOk(q, Finish(b, h), m)
  {
    hide Laid, Gather, UsedEntry;
    var b' := Finish(b, h);
    forall k | k in b'.phase ensures ChainOk(q, b', k, m) {
      assert ChainOk(q, b, k, m) && PhaseOk(b, k, b.phase[k]);
      ChainSame(q, b, b', k, m);
    }
  }

  lemma FinishRest(q: Queue, b: Ledger, m: Memory, h: u16, driving: DriverCall)
    requires q.size > 0 && Completes(b, h) && AvailableOk(q, b, m) && DriverCallOk(q, b, m, driving) && LastTakenOk(b)
    ensures AvailableOk(q, Finish(b, h), m) && DriverCallOk(q, Finish(b, h), m, driving)
  {
  }

  lemma StoreUsedIndexKeeps(l: Lane, s: System)
    requires l.Valid() && l.Queue().size > 0 && Inv(l, s)
    ensures Inv(l, DoStoreUsedIndex(l, s))
  {
    var q, b, m := l.Queue(), s.b, s.memory;
    if DoStoreUsedIndex(l, s) != s {
      var h, a, bytes := s.serving.head, UsedIndex(q), Le(Next16(b.device.produced), 2);
      var m' := WriteMem(m, a, bytes);
      ServedCompletes(l, b, h);
      RingPlaces(q, 0);
      FinishUsed(l, b, m, h);
      UsedStoreKeepsRest(l, b, m, a, bytes, s.driving);
      FinishChains(q, b, m', h);
      FinishRest(q, b, m', h, s.driving);
      FinishKeeps(l, b, h);
      Becomes(l, s, m', Finish(b, h), s.driving, DeviceIdle);
    }
  }
}
