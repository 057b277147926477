/** Steps that read shared memory: no check of either side ever fails. */
module RingLooks {
  import opened Bytes
  import opened Channel
  import opened Chains
  import opened Descriptors
  import opened Endpoint
  import opened Footprint
  import opened Wrap
  import opened SplitRing
  import opened RingInvariant
  import opened Conservation
  import opened RingFrames
  import opened RingSteps

  lemma LoadHeld(m: Memory, a: int, v: u16)
    requires Holds(m, a, Le(v, 2))
    ensures Load16(m, a) == v
  {
    FieldRoundTrip(v);
  }

  lemma LookUsedKeeps(l: Lane, s: System)
    requires l.Valid() && l.Queue().size > 0 && Inv(l, s)
    ensures Inv(l, DoLookUsed(l, s))
  {
    hide Ends, Phases, Once, LastTakenOk, AvailableOk, ChainsOk, DeviceCallOk, WalkOk;
    Windows(l, s.b);
    LoadHeld(s.memory, UsedIndex(l.Queue()), Index16(|s.b.completed|));
  }

  lemma LookAvailableKeeps(l: Lane, s: System)
    requires l.Valid() && l.Queue().size > 0 && Inv(l, s)
    ensures Inv(l, DoLookAvailable(l, s))
  {
    hide Ends, Phases, Once, LastTakenOk, UsedOk, ChainsOk, DriverCallOk, WalkOk;
    Windows(l, s.b);
    LoadHeld(s.memory, AvailableIndex(l.Queue()), Index16(|s.b.published|));
  }

  lemma UsesHead(l: Lane, w: Wire)
    requires l.index < |l.queues| && ValidWire(l, w)
    ensures Uses(w, w.head)
  {
  }

  /** The next queued chain conflicts with nothing the device holds. */
  lemma NextIsUnclaimed(l: Lane, b: Ledger, h: nat)
    requires l.Valid() && Ends(l, b) && Phases(b) && h in b.phase && b.phase[h].Queued?
    ensures h < |b.driver.slots| && b.driver.slots[h].Held? && Unclaimed(b.device.slots, b.device.owner, WireOf(b, h))
    ensures ValidWire(l, WireOf(b, h)) && WireOf(b, h).head == h
  {
    assert PhaseOk(b, h, b.phase[h]);
    HeldValid(l, b, h);
    var w := WireOf(b, h);
    forall k | 0 <= k < |b.device.slots| && b.device.slots[k].Held?
      ensures k != h && Separate(w, b.device.slots[k].chain.wire)
    {
      assert ServingAt(b, k);
      assert PhaseOk(b, k, b.phase[k]);
      HeldSeparate(b.driver, h, k);
    }
    UsedAreUnowned(b.device.slots, b.device.owner, w);
    forall d: nat | Uses(w, d) ensures d < |b.device.owner| { UsesInRange(l, w, d); }
  }

  lemma UsesInRange(l: Lane, w: Wire, d: nat)
    requires l.index < |l.queues| && ValidWire(l, w) && Uses(w, d)
    ensures d < l.Queue().size
  {
    if !(w.indirectLength != 0 && d == w.indirectDescriptor) {
      var i :| 0 <= i < Direct(w) && i < |w.segments| && w.segments[i].descriptor == d;
      assert SegmentOk(l, w, i);
    }
  }

  /** A descriptor of a chain separate from all held ones has no owner. */
  lemma UsedAreUnowned(slots: seq<Slot>, owner: seq<u16>, w: Wire)
    requires OwnersExact(slots, owner)
    requires forall k :: 0 <= k < |slots| && slots[k].Held? ==> Separate(w, slots[k].chain.wire)
    ensures forall d: nat :: d < |owner| && Uses(w, d) ==> owner[d] == 0
  {
    forall d: nat | d < |owner| && Uses(w, d) ensures owner[d] == 0 {
      assert owner[d] != 0 ==> OwnedBy(slots, owner[d], d);
    }
  }

  lemma ReadEntryKeeps(l: Lane, s: System, handle: nat, capacity: nat)
    requires l.Valid() && l.Queue().size > 0 && Inv(l, s)
    ensures Inv(l, DoReadEntry(l, s, handle, capacity))
  {
    if s.serving.Seen? && !HandleHeld(s.b.device.slots, handle) && capacity >= l.Queue().maxChain {
      var h := s.b.published[s.b.taken].wire.head as nat;
      assert QueuedAt(s.b, s.b.taken);
      NextEntry(l, s.b, s.memory);
      NextIsUnclaimed(l, s.b, h);
      EntryStarts(l, s.b, h);
    }
  }

  lemma NextEntry(l: Lane, b: Ledger, m: Memory)
    requires l.index < |l.queues| && l.Queue().size > 0 && Counts(b) && AvailableOk(l.Queue(), b, m) && b.taken < |b.published|
    ensures Load16(m, AvailableSlot(l.Queue(), b.device.consumed)) == b.published[b.taken].wire.head
  {
    LoadHeld(m, AvailableSlot(l.Queue(), Index16(b.taken)), b.published[b.taken].wire.head);
  }

  lemma EntryStarts(l: Lane, b: Ledger, h: nat)
    requires l.index < |l.queues| && b.taken < |b.published| && Phases(b) && h in b.phase && b.phase[h] == Queued(b.taken)
    requires ValidWire(l, WireOf(b, h)) && Unclaimed(b.device.slots, b.device.owner, WireOf(b, h)) && WireOf(b, h).head == h
    ensures h < |b.device.owner| && b.device.owner[h] == 0
    ensures WalkOk(b.published[b.taken].wire, Start(h), 0)
  {
    assert PhaseOk(b, h, b.phase[h]);
    UsesHead(l, WireOf(b, h));
    WalkBegins(l, WireOf(b, h));
  }

  // -------------------------------------------------------- the descriptor walk

  /** A walk over a chain that is laid out goes on as it must. */
  lemma WalkFollows(l: Lane, w: Wire, m: Memory, walk: Walk, k: nat)
    requires l.index < |l.queues| && ValidWire(l, w) && Laid(m, l.Queue(), w) && WalkOk(w, walk, k)
    ensures walk.Reading? && MayRead(l.Queue(), walk)
    ensures WalkStep(l, walk, ReadMem(m, TableBase(l.Queue(), walk) + walk.index * DESC_SIZE, DESC_SIZE)) == Expected(w, k + 1)
  {
    WalkReads(l, w, k);
    WalkAdvances(l, w, k);
    assert LaidAt(m, l.Queue(), w, k);
  }

  /** The next queued chain is valid and laid out as published. */
  lemma QueuedIsLaid(l: Lane, b: Ledger, m: Memory, h: nat)
    requires l.Valid() && Ends(l, b) && Phases(b) && ChainsOk(l.Queue(), b, m)
    requires b.taken < |b.published| && h in b.phase && b.phase[h] == Queued(b.taken)
    ensures h < |b.driver.slots| && b.driver.slots[h].Held? && b.published[b.taken].wire == WireOf(b, h)
    ensures ValidWire(l, b.published[b.taken].wire) && Laid(m, l.Queue(), b.published[b.taken].wire)
  {
    assert PhaseOk(b, h, b.phase[h]);
    assert ChainOk(l.Queue(), b, h, m);
    HeldValid(l, b, h);
  }

  lemma ReadContinues(l: Lane, s: System, w: Wire)
    requires l.Valid() && ValidWire(l, w) && Laid(s.memory, l.Queue(), w)
    requires s.serving.Walking? && WalkOk(w, s.serving.walk, s.serving.count)
    ensures DoReadDescriptor(l, s) == Continue(l, s, Expected(w, s.serving.count + 1))
  {
    hide ValidWire, Laid, WalkOk, WalkStep, Expected, MayRead, Take, Admissible;
    WalkFollows(l, w, s.memory, s.serving.walk, s.serving.count);
  }

  /** What the device does with the descriptor it read, when the walk is not over. */
  lemma ReadDescriptorMidway(l: Lane, s: System)
    requires l.Valid() && l.Queue().size > 0 && Inv(l, s) && s.serving.Walking?
    requires s.serving.count + 1 < RecordCount(s.b.published[s.b.taken].wire)
    ensures Inv(l, Continue(l, s, Expected(s.b.published[s.b.taken].wire, s.serving.count + 1)))
  {
    hide LedgerOk, MemoryOk, DriverCallOk, Take, Admissible, HandleHeld;
  }

  /** At the end of the walk the device has exactly the published chain, and admits it. */
  lemma ReadDescriptorEnds(l: Lane, s: System, h: nat)
    requires l.Valid() && Ends(l, s.b) && Phases(s.b) && s.serving.Walking? && s.serving.capacity >= l.Queue().maxChain
    requires s.b.taken < |s.b.published| && h in s.b.phase && s.b.phase[h] == Queued(s.b.taken)
    ensures h < |s.b.driver.slots| && s.b.driver.slots[h].Held? && WireOf(s.b, h) == s.b.published[s.b.taken].wire
    ensures Admissible(l, s.b.device.slots, s.b.device.owner, WireOf(s.b, h), s.serving.capacity)
    ensures Continue(l, s, Finished(WireOf(s.b, h))) ==
            s.(b := Take(l, s.b, s.serving.handle, WireOf(s.b, h), s.serving.capacity), serving := DeviceIdle)
  {
    hide Ends, Unclaimed, ValidWire, Take;
    NextIsUnclaimed(l, s.b, h);
    assert PhaseOk(s.b, h, s.b.phase[h]);
  }
}
