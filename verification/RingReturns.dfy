/** Reaping, releasing, taking, giving back and moving: the ledger moves, memory does not. */
module RingReturns {
  import opened Bytes
  import opened Channel
  import opened Chains
  import opened Descriptors
  import opened Endpoint
  import opened Wrap
  import opened SplitRing
  import opened RingInvariant
  import opened RingLooks
  import opened RingLedger
  import opened RingMemory

  // ---------------------------------------------------------------- reaping

  lemma EntryHeld(m: Memory, a: int, head: u16, length: u32)
    requires Holds(m, a, UsedEntry(head, length))
    ensures Value(ReadMem(m, a, 8)[..4]) == head && Value(ReadMem(m, a, 8)[4..]) == length
  {
    FieldRoundTrip(head);
    FieldRoundTrip(length);
    var bytes := ReadMem(m, a, 8);
    assert bytes == UsedEntry(head, length);
    assert bytes[..4] == Le(head, 4) && bytes[4..] == Le(length, 4);
  }

  /** The driver accepts the next used entry, and it names the chain that was completed. */
  lemma NextUsed(l: Lane, b: Ledger, m: Memory)
    requires l.index < |l.queues| && l.Queue().size > 0 && Ends(l, b) && Counts(b) && Phases(b) && UsedOk(l.Queue(), b, m)
    requires b.reaped < |b.completed|
    ensures var c, bytes := b.completed[b.reaped], ReadMem(m, UsedSlot(l.Queue(), b.driver.consumed), 8);
            && Value(bytes[..4]) == c.head && Value(bytes[4..]) == |c.response| && UsedFits(b.driver, c.head, |c.response|)
            && c.head as nat in b.phase && b.phase[c.head as nat] == Answered(c.publication, b.reaped)
  {
    var c := b.completed[b.reaped];
    assert AnsweredAt(b, b.reaped) && PhaseOk(b, c.head, b.phase[c.head as nat]);
    assert SlotOk(l, Driver, c.head, b.driver.slots[c.head]);
    EntryHeld(m, UsedSlot(l.Queue(), Index16(b.reaped)), c.head, |c.response|);
  }

  lemma CollectMemory(q: Queue, b: Ledger, m: Memory, h: nat, length: nat)
    requires q.size > 0 && MemoryOk(q, b, m) && UsedFits(b.driver, h, length) && b.reaped < |b.completed|
    requires h in b.phase && b.phase[h] == Answered(b.completed[b.reaped].publication, b.reaped)
    ensures MemoryOk(q, Collect(b, h, length), m)
  {
    var b' := Collect(b, h, length);
    forall k | k in b'.phase ensures ChainOk(q, b', k, m) {
      assert ChainOk(q, b, k, m);
      ChainSame(q, b, b', k, m);
    }
  }

  lemma CollectCalls(l: Lane, b: Ledger, m: Memory, h: nat, length: nat, serving: DeviceCall)
    requires l.index < |l.queues| && l.Queue().size > 0 && UsedFits(b.driver, h, length) && b.preparing.None?
    requires DeviceCallOk(l, b, m, serving)
    ensures DeviceCallOk(l, Collect(b, h, length), m, serving) && DriverCallOk(l.Queue(), Collect(b, h, length), m, DriverIdle)
  {
  }

  lemma ReadUsedKeeps(l: Lane, s: System)
    requires l.Valid() && l.Queue().size > 0 && Inv(l, s)
    ensures Inv(l, DoReadUsed(l, s))
  {
    if s.driving.Reaping? {
      NextUsed(l, s.b, s.memory);
      var c := s.b.completed[s.b.reaped];
      CollectKeeps(l, s.b, c.head, |c.response|);
      CollectMemory(l.Queue(), s.b, s.memory, c.head, |c.response|);
      CollectCalls(l, s.b, s.memory, c.head, |c.response|, s.serving);
      Becomes(l, s, s.memory, Collect(s.b, c.head, |c.response|), DriverIdle, s.serving);
    }
  }

  // -------------------------------------------------------------- releasing

  lemma ReleaseMemory(l: Lane, b: Ledger, m: Memory, h: nat, serving: DeviceCall)
    requires l.index < |l.queues| && l.Queue().size > 0 && MemoryOk(l.Queue(), b, m) && DeviceCallOk(l, b, m, serving)
    requires h < |b.driver.slots| && b.driver.slots[h].Held? && b.driver.owned > 0 && b.preparing.None?
    ensures var b' := b.(driver := Drop(b.driver, h), phase := b.phase - {h});
            MemoryOk(l.Queue(), b', m) && DeviceCallOk(l, b', m, serving) && DriverCallOk(l.Queue(), b', m, DriverIdle)
  {
    var b' := b.(driver := Drop(b.driver, h), phase := b.phase - {h});
    forall k | k in b'.phase ensures ChainOk(l.Queue(), b', k, m) {
      assert ChainOk(l.Queue(), b, k, m);
      ChainSame(l.Queue(), b, b', k, m);
    }
  }

  lemma DoReleaseKeeps(l: Lane, s: System, h: nat)
    requires l.Valid() && l.Queue().size > 0 && Inv(l, s)
    ensures Inv(l, DoRelease(s, h))
  {
    var s' := DoRelease(s, h);
    if s' != s {
      ReleaseKeeps(l, s.b, h);
      ReleaseMemory(l, s.b, s.memory, h, s.serving);
      Becomes(l, s, s.memory, s'.b, s.driving, s.serving);
    }
  }

  // ----------------------------------------------------------------- taking

  lemma TakeMemory(q: Queue, b: Ledger, b': Ledger, m: Memory, h: nat, driving: DriverCall)
    requires q.size > 0 && MemoryOk(q, b, m) && Takes(b, b', h) && DriverCallOk(q, b, m, driving)
    requires h in b.phase && b.phase[h] == Queued(b.taken)
    ensures MemoryOk(q, b', m) && DriverCallOk(q, b', m, driving)
  {
    forall k | k in b'.phase ensures ChainOk(q, b', k, m) {
      assert ChainOk(q, b, k, m);
      ChainSame(q, b, b', k, m);
    }
  }

  lemma TakeKeepsInv(l: Lane, s: System, h: nat)
    requires l.Valid() && l.Queue().size > 0 && Inv(l, s) && s.serving.Walking?
    requires h in s.b.phase && s.b.phase[h] == Queued(s.b.taken) && h < |s.b.driver.slots| && s.b.driver.slots[h].Held?
    requires Admissible(l, s.b.device.slots, s.b.device.owner, WireOf(s.b, h), s.serving.capacity)
    requires WireOf(s.b, h).head == h
    ensures Inv(l, s.(b := Take(l, s.b, s.serving.handle, WireOf(s.b, h), s.serving.capacity), serving := DeviceIdle))
  {
    var w, b' := WireOf(s.b, h), Take(l, s.b, s.serving.handle, WireOf(s.b, h), s.serving.capacity);
    TakeKeeps(l, s.b, s.serving.handle, w, s.serving.capacity);
    TakeIsTaking(l, s.b, s.serving.handle, w, s.serving.capacity);
    TakeMemory(l.Queue(), s.b, b', s.memory, h, s.driving);
    Becomes(l, s, s.memory, b', s.driving, DeviceIdle);
  }

  /** The device reads exactly the published chain, one descriptor at a time. */
  lemma ReadDescriptorKeeps(l: Lane, s: System)
    requires l.Valid() && l.Queue().size > 0 && Inv(l, s)
    ensures Inv(l, DoReadDescriptor(l, s))
  {
    if s.serving.Walking? {
      var w := s.b.published[s.b.taken].wire;
      assert QueuedAt(s.b, s.b.taken);
      QueuedIsLaid(l, s.b, s.memory, w.head);
      ReadContinues(l, s, w);
      if s.serving.count + 1 < RecordCount(w) {
        ReadDescriptorMidway(l, s);
      } else {
        ReadDescriptorEnds(l, s, w.head);
        TakeKeepsInv(l, s, w.head);
      }
    }
  }

  // ------------------------------------------------------ giving back and moving

  lemma GiveUpMemory(q: Queue, b: Ledger, m: Memory, h: nat, driving: DriverCall)
    requires q.size > 0 && MemoryOk(q, b, m) && TakenLast(b, h) && DriverCallOk(q, b, m, driving)
    ensures MemoryOk(q, GiveUp(b, h), m) && DriverCallOk(q, GiveUp(b, h), m, driving)
  {
    var b' := GiveUp(b, h);
    forall k | k in b'.phase ensures ChainOk(q, b', k, m) {
      assert ChainOk(q, b, k, m);
      ChainSame(q, b, b', k, m);
    }
  }

  lemma GiveBackKeeps(l: Lane, s: System, h: nat)
    requires l.Valid() && l.Queue().size > 0 && Inv(l, s)
    ensures Inv(l, DoGiveBack(s, h))
  {
    var s' := DoGiveBack(s, h);
    if s' != s {
      TakenLastIs(s.b, h);
      GiveUpKeeps(l, s.b, h);
      GiveUpMemory(l.Queue(), s.b, s.memory, h, s.driving);
      Becomes(l, s, s.memory, GiveUp(s.b, h), s.driving, s.serving);
    }
  }

  lemma MoveMemory(q: Queue, b: Ledger, m: Memory, h: nat, handle: nat, capacity: nat, driving: DriverCall)
    requires q.size > 0 && MemoryOk(q, b, m) && h < |b.device.slots| && b.device.slots[h].Held? && DriverCallOk(q, b, m, driving)
    ensures var b' := b.(device := Move(b.device, h, handle, capacity));
            MemoryOk(q, b', m) && DriverCallOk(q, b', m, driving)
  {
    var b' := b.(device := Move(b.device, h, handle, capacity));
    forall k | k in b'.phase ensures ChainOk(q, b', k, m) {
      assert ChainOk(q, b, k, m);
      ChainSame(q, b, b', k, m);
    }
  }

  lemma MoveToKeeps(l: Lane, s: System, h: nat, handle: nat, capacity: nat)
    requires l.Valid() && l.Queue().size > 0 && Inv(l, s)
    ensures Inv(l, DoMoveTo(s, h, handle, capacity))
  {
    var s' := DoMoveTo(s, h, handle, capacity);
    if s' != s {
      MoveLedgerKeeps(l, s.b, h, handle, capacity);
      MoveMemory(l.Queue(), s.b, s.memory, h, handle, capacity, s.driving);
      Becomes(l, s, s.memory, s'.b, s.driving, s.serving);
    }
  }
}
