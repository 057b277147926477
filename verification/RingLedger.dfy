/** Steps that move a chain from one phase to the next keep the ledger. */
module RingLedger {
  import opened Bytes
  import opened Channel
  import opened Chains
  import opened Endpoint
  import opened Wrap
  import opened SplitRing
  import opened RingInvariant

  // ------------------------------------------------------------- publication

  lemma BeginPhases(l: Lane, b: Ledger, handle: nat, w: Wire, capacity: nat)
    requires l.Valid() && ValidWire(l, w) && w.head < |b.driver.slots| && b.driver.slots[w.head].Empty?
    requires Phases(b) && b.preparing.None?
    requires HeldHeads(Begin(l, b, handle, w, capacity).driver.slots) == HeldHeads(b.driver.slots) + {w.head as nat}
    ensures Phases(Begin(l, b, handle, w, capacity))
  {
    var b' := Begin(l, b, handle, w, capacity);
    assert w.head as nat !in b.phase;
    forall h | h in b'.phase ensures PhaseOk(b', h, b'.phase[h]) {
      if h != w.head { assert PhaseOk(b, h, b.phase[h]); }
    }
    forall p | b'.taken <= p < |b'.published| ensures QueuedAt(b', p) { assert QueuedAt(b, p); }
    forall j | b'.reaped <= j < |b'.completed| ensures AnsweredAt(b', j) { assert AnsweredAt(b, j); }
    forall h | 0 <= h < |b'.device.slots| && b'.device.slots[h].Held? ensures ServingAt(b', h) { assert ServingAt(b, h); }
  }

  lemma BeginEnds(l: Lane, b: Ledger, handle: nat, w: Wire, capacity: nat)
    requires l.Valid() && Ends(l, b) && Admissible(l, b.driver.slots, b.driver.owner, w, capacity)
    requires b.driver.owned < l.Queue().maxOutstanding && !HandleHeld(b.driver.slots, handle)
    ensures Ends(l, Begin(l, b, handle, w, capacity))
    ensures HeldHeads(Begin(l, b, handle, w, capacity).driver.slots) == HeldHeads(b.driver.slots) + {w.head as nat}
  {
    LaneQueueOk(l);
    AdmittedMayClaim(l, Driver, b.driver, handle, w, capacity, Submitted);
    ClaimKeeps(l, Driver, b.driver, handle, Prepared(w, capacity, Submitted));
  }

  lemma BeginRest(l: Lane, b: Ledger, handle: nat, w: Wire, capacity: nat)
    requires l.Valid() && ValidWire(l, w) && w.head < |b.driver.slots| && w.head as nat !in b.phase
    requires Once(b) && LastTakenOk(b)
    ensures Once(Begin(l, b, handle, w, capacity)) && LastTakenOk(Begin(l, b, handle, w, capacity))
  {
    OnceSame(b, Begin(l, b, handle, w, capacity));
    LastTakenSame(b, Begin(l, b, handle, w, capacity));
  }

  lemma BeginKeeps(l: Lane, b: Ledger, handle: nat, w: Wire, capacity: nat)
    requires l.Valid() && LedgerOk(l, b) && b.preparing.None?
    requires Admissible(l, b.driver.slots, b.driver.owner, w, capacity)
    requires b.driver.owned < l.Queue().maxOutstanding && !HandleHeld(b.driver.slots, handle)
    ensures LedgerOk(l, Begin(l, b, handle, w, capacity))
  {
    BeginEnds(l, b, handle, w, capacity);
    BeginPhases(l, b, handle, w, capacity);
    BeginRest(l, b, handle, w, capacity);
  }

  /** Nothing about completions changed, and no new chain is queued or served. */
  lemma OnceSame(b: Ledger, b': Ledger)
    requires Once(b) && b'.completed == b.completed && b'.delivered == b.delivered && b'.reaped == b.reaped
    requires b'.published == b.published
    requires forall j :: 0 <= j < |b.completed| ==> b.completed[j].publication < b'.taken
    requires forall h :: h in b'.phase && (b'.phase[h].Queued? || b'.phase[h].Serving?) ==>
        h in b.phase && (b.phase[h].Queued? || b.phase[h].Serving?) && b.phase[h].publication == b'.phase[h].publication
    ensures Once(b')
  {
    forall h, j | h in b'.phase && 0 <= j < |b'.completed| ensures NotYet(b'.phase[h], b'.completed[j].publication) {
      if b'.phase[h].Queued? || b'.phase[h].Serving? { assert NotYet(b.phase[h], b.completed[j].publication); }
    }
    forall j | 0 <= j < b'.reaped ensures Delivered(b', j) { assert Delivered(b, j); }
  }

  /** The chain taken last is where it was. */
  lemma LastTakenSame(b: Ledger, b': Ledger)
    requires LastTakenOk(b) && b'.device.lastTaken == b.device.lastTaken && b'.taken == b.taken
    requires b.published <= b'.published
    requires forall h :: h in b.phase && b.phase[h].Serving? ==>
        h in b'.phase && b'.phase[h].Serving? && b'.phase[h].publication == b.phase[h].publication
    requires forall h :: 0 <= h < |b.device.slots| && b.device.slots[h].Held? ==>
        h < |b'.device.slots| && b'.device.slots[h].Held? && b'.device.slots[h].handle == b.device.slots[h].handle
    ensures LastTakenOk(b')
  {
  }

  lemma AnnouncePhases(b: Ledger, h: nat, request: seq<byte>)
    requires Phases(b) && b.preparing == Some(h) && h < |b.driver.slots| && b.driver.slots[h].Held?
    requires b.driver.slots[h].chain.wire.head == h && b.taken <= |b.published|
    ensures Phases(Announce(b, h, request))
  {
    var b' := Announce(b, h, request);
    forall k | k in b'.phase ensures PhaseOk(b', k, b'.phase[k]) {
      assert PhaseOk(b, k, b.phase[k]);
    }
    forall p | b'.taken <= p < |b'.published| ensures QueuedAt(b', p) {
      if p < |b.published| { assert QueuedAt(b, p); }
    }
    forall j | b'.reaped <= j < |b'.completed| ensures AnsweredAt(b', j) { assert AnsweredAt(b, j); }
    forall k | 0 <= k < |b'.device.slots| && b'.device.slots[k].Held? ensures ServingAt(b', k) { assert ServingAt(b, k); }
    assert b'.phase.Keys == b.phase.Keys;
  }

  lemma AnnounceRest(b: Ledger, h: nat, request: seq<byte>)
    requires Counts(b) && Once(b) && LastTakenOk(b) && Phases(b)
    requires b.preparing == Some(h) && h < |b.driver.slots| && b.driver.slots[h].Held?
    ensures var b' := Announce(b, h, request); Counts(b') && Once(b') && LastTakenOk(b')
  {
    var b' := Announce(b, h, request);
    NextIndex(|b.published|);
    forall k, j | k in b'.phase && 0 <= j < |b'.completed| ensures NotYet(b'.phase[k], b'.completed[j].publication) {
      assert NotYet(b.phase[k], b.completed[j].publication);
    }
    forall j | 0 <= j < b'.reaped ensures Delivered(b', j) { assert Delivered(b, j); }
    LastTakenSame(b, b');
  }

  lemma AnnounceKeeps(l: Lane, b: Ledger, h: nat, request: seq<byte>)
    requires l.index < |l.queues| && LedgerOk(l, b)
    requires b.preparing == Some(h) && h < |b.driver.slots| && b.driver.slots[h].Held?
    ensures LedgerOk(l, Announce(b, h, request))
  {
    AnnounceEnds(l, b, h, request);
    AnnouncePhases(b, h, request);
    AnnounceRest(b, h, request);
  }

  lemma AnnounceEnds(l: Lane, b: Ledger, h: nat, request: seq<byte>)
    requires l.index < |l.queues| && Ends(l, b) && h < |b.driver.slots| && b.driver.slots[h].Held?
    ensures Ends(l, Announce(b, h, request)) && b.driver.slots[h].chain.wire.head == h
  {
    assert SlotOk(l, Driver, h, b.driver.slots[h]);
  }

  // ---------------------------------------------------------------- reaping

  lemma CollectPhases(b: Ledger, h: nat, length: nat)
    requires Phases(b) && UsedFits(b.driver, h, length) && b.reaped < |b.completed|
    requires h in b.phase && b.phase[h] == Answered(b.completed[b.reaped].publication, b.reaped)
    requires length == |b.completed[b.reaped].response|
    ensures Phases(Collect(b, h, length))
  {
    var b' := Collect(b, h, length);
    HeadsAfterUpdate(b.driver.slots, h, b'.driver.slots[h]);
    assert b'.driver.slots == b.driver.slots[h := b'.driver.slots[h]];
    assert h in HeldHeads(b.driver.slots);
    assert PhaseOk(b, h, b.phase[h]);
    forall k | k in b'.phase ensures PhaseOk(b', k, b'.phase[k]) {
      assert PhaseOk(b, k, b.phase[k]);
      CollectPhase(b, h, length, k);
    }
    forall p | b'.taken <= p < |b'.published| ensures QueuedAt(b', p) { assert QueuedAt(b, p); }
    forall j | b'.reaped <= j < |b'.completed| ensures AnsweredAt(b', j) { assert AnsweredAt(b, j); }
    forall k | 0 <= k < |b'.device.slots| && b'.device.slots[k].Held? ensures ServingAt(b', k) { assert ServingAt(b, k); }
    assert b'.phase.Keys == b.phase.Keys;
  }

  lemma CollectPhase(b: Ledger, h: nat, length: nat, k: nat)
    requires UsedFits(b.driver, h, length) && b.reaped < |b.completed|
    requires h in b.phase && b.phase[h] == Answered(b.completed[b.reaped].publication, b.reaped)
    requires length == |b.completed[b.reaped].response| && PhaseOk(b, h, b.phase[h])
    requires k in b.phase && PhaseOk(b, k, b.phase[k])
    ensures k in Collect(b, h, length).phase && PhaseOk(Collect(b, h, length), k, Collect(b, h, length).phase[k])
  {
  }

  lemma CollectKeeps(l: Lane, b: Ledger, h: nat, length: nat)
    requires l.index < |l.queues| && LedgerOk(l, b) && UsedFits(b.driver, h, length) && b.reaped < |b.completed|
    requires h in b.phase && b.phase[h] == Answered(b.completed[b.reaped].publication, b.reaped)
    requires length == |b.completed[b.reaped].response|
    ensures LedgerOk(l, Collect(b, h, length))
  {
    ReapKeeps(l, b.driver, h, length);
    CollectPhases(b, h, length);
    CollectRest(b, h, length);
  }

  lemma CollectRest(b: Ledger, h: nat, length: nat)
    requires Counts(b) && Phases(b) && Once(b) && LastTakenOk(b) && UsedFits(b.driver, h, length) && b.reaped < |b.completed|
    requires h in b.phase && b.phase[h] == Answered(b.completed[b.reaped].publication, b.reaped)
    requires length == |b.completed[b.reaped].response|
    ensures var b' := Collect(b, h, length); Counts(b') && Once(b') && LastTakenOk(b')
  {
    NextIndex(b.reaped);
    assert PhaseOk(b, h, b.phase[h]);
    CollectOnce(b, h, length);
    LastTakenSame(b, Collect(b, h, length));
  }

  lemma CollectOnce(b: Ledger, h: nat, length: nat)
    requires Once(b) && UsedFits(b.driver, h, length) && b.reaped < |b.completed|
    requires h in b.phase && b.phase[h] == Answered(b.completed[b.reaped].publication, b.reaped)
    requires Published(b, h, b.completed[b.reaped].publication) && length == |b.completed[b.reaped].response|
    ensures Once(Collect(b, h, length))
  {
    var b' := Collect(b, h, length);
    forall k, j | k in b'.phase && 0 <= j < |b'.completed| ensures NotYet(b'.phase[k], b'.completed[j].publication) {
      assert NotYet(b.phase[k], b.completed[j].publication);
    }
    forall j | 0 <= j < b'.reaped ensures Delivered(b', j) {
      if j < b.reaped { assert Delivered(b, j); }
    }
  }

  lemma ReleaseKeeps(l: Lane, b: Ledger, h: nat)
    requires l.index < |l.queues| && LedgerOk(l, b) && h < |b.driver.slots| && b.driver.slots[h].Held?
    requires b.driver.slots[h].chain.state.Returned? && b.driver.owned > 0
    ensures LedgerOk(l, b.(driver := Drop(b.driver, h), phase := b.phase - {h}))
  {
    DropKeeps(l, Driver, b.driver, h);
    ReleasePhases(b, h);
    ReleaseRest(b, h);
  }

  lemma ReleaseRest(b: Ledger, h: nat)
    requires Phases(b) && Once(b) && LastTakenOk(b) && h < |b.driver.slots| && b.driver.slots[h].Held?
    requires b.driver.slots[h].chain.state.Returned? && b.driver.owned > 0
    ensures var b' := b.(driver := Drop(b.driver, h), phase := b.phase - {h}); Once(b') && LastTakenOk(b')
  {
    var b' := b.(driver := Drop(b.driver, h), phase := b.phase - {h});
    assert h in HeldHeads(b.driver.slots);
    assert PhaseOk(b, h, b.phase[h]);
    OnceSame(b, b');
    LastTakenSame(b, b');
  }

  lemma ReleasePhases(b: Ledger, h: nat)
    requires Phases(b) && h < |b.driver.slots| && b.driver.slots[h].Held?
    requires b.driver.slots[h].chain.state.Returned? && b.driver.owned > 0
    requires HeldHeads(Drop(b.driver, h).slots) == HeldHeads(b.driver.slots) - {h}
    ensures Phases(b.(driver := Drop(b.driver, h), phase := b.phase - {h}))
  {
    var b' := b.(driver := Drop(b.driver, h), phase := b.phase - {h});
    assert h in HeldHeads(b.driver.slots);
    assert PhaseOk(b, h, b.phase[h]);
    forall k | k in b'.phase ensures PhaseOk(b', k, b'.phase[k]) { assert PhaseOk(b, k, b.phase[k]); }
    forall p | b'.taken <= p < |b'.published| ensures QueuedAt(b', p) { assert QueuedAt(b, p); }
    forall j | b'.reaped <= j < |b'.completed| ensures AnsweredAt(b', j) { assert AnsweredAt(b, j); }
    forall k | 0 <= k < |b'.device.slots| && b'.device.slots[k].Held? ensures ServingAt(b', k) { assert ServingAt(b, k); }
  }

  // ----------------------------------------------------------------- taking

  lemma TakeEnds(l: Lane, b: Ledger, handle: nat, w: Wire, capacity: nat)
    requires l.Valid() && Ends(l, b) && Admissible(l, b.device.slots, b.device.owner, w, capacity)
    requires b.device.owned < l.Queue().maxOutstanding && !HandleHeld(b.device.slots, handle)
    ensures Ends(l, Take(l, b, handle, w, capacity))
  {
    LaneQueueOk(l);
    AdmittedMayClaim(l, Device, b.device, handle, w, capacity, Accepted);
    ClaimKeeps(l, Device, b.device, handle, Prepared(w, capacity, Accepted));
    var b' := Take(l, b, handle, w, capacity);
    assert b'.device.slots[w.head].Held? && b'.device.slots[w.head].handle == handle;
  }

  /** The wire part of the chain the driver holds at `h`, if any. */
  function WireOfHead(b: Ledger, h: nat): Wire {
    if h < |b.driver.slots| && b.driver.slots[h].Held? then WireOf(b, h) else Wire(0, [], 0, 0, 0, 0)
  }

  /** The device has taken the next publication, which is the chain at `h`. */
  ghost predicate Takes(b: Ledger, b': Ledger, h: nat) {
    && b' == b.(device := b'.device, taken := b.taken + 1, phase := b.phase[h := Serving(b.taken, [])])
    && h < |b.device.slots| == |b'.device.slots| && b.device.slots[h].Empty?
    && b'.device.slots == b.device.slots[h := b'.device.slots[h]]
    && b'.device.slots[h].Held? && b'.device.slots[h].chain.wire == WireOfHead(b, h)
    && b'.device.slots[h].chain.written == 0
    && b'.device.produced == b.device.produced && b'.device.consumed == Next16(b.device.consumed)
    && b'.device.owned == b.device.owned + 1 && b'.device.lastTaken == Some(b'.device.slots[h].handle)
  }

  lemma TakeIsTaking(l: Lane, b: Ledger, handle: nat, w: Wire, capacity: nat)
    requires l.Valid() && ValidWire(l, w) && w.head < |b.device.slots| && b.device.slots[w.head].Empty?
    requires w == WireOfHead(b, w.head)
    ensures Takes(b, Take(l, b, handle, w, capacity), w.head)
  {
  }

  lemma TakePhase(b: Ledger, b': Ledger, h: nat, k: nat)
    requires Takes(b, b', h) && h in b.phase && b.phase[h] == Queued(b.taken) && PhaseOk(b, h, b.phase[h])
    requires k in b.phase && PhaseOk(b, k, b.phase[k])
    ensures k in b'.phase && PhaseOk(b', k, b'.phase[k])
  {
  }

  lemma TakePhases(b: Ledger, b': Ledger, h: nat)
    requires Takes(b, b', h) && Phases(b) && h in b.phase && b.phase[h] == Queued(b.taken)
    ensures Phases(b')
  {
    assert PhaseOk(b, h, b.phase[h]);
    forall k | k in b'.phase ensures PhaseOk(b', k, b'.phase[k]) {
      assert PhaseOk(b, k, b.phase[k]);
      TakePhase(b, b', h, k);
    }
    forall p | b'.taken <= p < |b'.published| ensures QueuedAt(b', p) { assert QueuedAt(b, p); }
    forall j | b'.reaped <= j < |b'.completed| ensures AnsweredAt(b', j) { assert AnsweredAt(b, j); }
    forall k | 0 <= k < |b'.device.slots| && b'.device.slots[k].Held? ensures ServingAt(b', k) {
      if k != h { assert ServingAt(b, k); }
    }
    assert b'.phase.Keys == b.phase.Keys;
  }

  lemma TakeRest(b: Ledger, b': Ledger, h: nat)
    requires Takes(b, b', h) && Counts(b) && Once(b)
    requires h in b.phase && b.phase[h] == Queued(b.taken) && PhaseOk(b, h, b.phase[h])
    ensures Counts(b') && Once(b') && LastTakenOk(b')
  {
    NextIndex(b.taken);
    OnceSame(b, b');
  }

  lemma TakeKeeps(l: Lane, b: Ledger, handle: nat, w: Wire, capacity: nat)
    requires l.Valid() && LedgerOk(l, b) && Admissible(l, b.device.slots, b.device.owner, w, capacity)
    requires b.device.owned < l.Queue().maxOutstanding && !HandleHeld(b.device.slots, handle)
    requires w.head as nat in b.phase && b.phase[w.head as nat] == Queued(b.taken) && w == WireOfHead(b, w.head)
    ensures LedgerOk(l, Take(l, b, handle, w, capacity))
  {
    TakeEnds(l, b, handle, w, capacity);
    TakeIsTaking(l, b, handle, w, capacity);
    var b' := Take(l, b, handle, w, capacity);
    TakePhases(b, b', w.head);
    assert PhaseOk(b, w.head, b.phase[w.head as nat]);
    TakeRest(b, b', w.head);
  }

  // ------------------------------------------------------------- giving back

  /** The chain taken last, still unwritten, is the one at `h`. */
  ghost predicate TakenLast(b: Ledger, h: nat) {
    && h < |b.device.slots| && b.device.slots[h].Held? && b.device.owned > 0 && b.taken > 0
    && b.device.lastTaken == Some(b.device.slots[h].handle)
    && h in b.phase && b.phase[h] == Serving(b.taken - 1, [])
  }

  lemma TakenLastIs(b: Ledger, h: nat)
    requires b.device.owned == |HeldHeads(b.device.slots)| && HandlesDistinct(b.device.slots)
    requires Phases(b) && LastTakenOk(b) && h < |b.device.slots| && b.device.slots[h].Held?
    requires b.device.lastTaken == Some(b.device.slots[h].handle) && b.device.slots[h].chain.written == 0
    ensures TakenLast(b, h)
  {
    var k := b.published[b.taken - 1].wire.head as nat;
    assert h in HeldHeads(b.device.slots);
    assert ServingAt(b, h) && PhaseOk(b, h, b.phase[h]);
  }

  lemma GiveUpPhase(b: Ledger, h: nat, k: nat)
    requires TakenLast(b, h) && PhaseOk(b, h, b.phase[h]) && k in b.phase && PhaseOk(b, k, b.phase[k])
    ensures k in GiveUp(b, h).phase && PhaseOk(GiveUp(b, h), k, GiveUp(b, h).phase[k])
  {
  }

  lemma GiveUpPhases(b: Ledger, h: nat)
    requires TakenLast(b, h) && Phases(b)
    ensures Phases(GiveUp(b, h))
  {
    var b' := GiveUp(b, h);
    assert PhaseOk(b, h, b.phase[h]);
    forall k | k in b'.phase ensures PhaseOk(b', k, b'.phase[k]) {
      assert PhaseOk(b, k, b.phase[k]);
      GiveUpPhase(b, h, k);
    }
    forall p | b'.taken <= p < |b'.published| ensures QueuedAt(b', p) {
      if p >= b.taken { assert QueuedAt(b, p); }
    }
    forall j | b'.reaped <= j < |b'.completed| ensures AnsweredAt(b', j) { assert AnsweredAt(b, j); }
    forall k | 0 <= k < |b'.device.slots| && b'.device.slots[k].Held? ensures ServingAt(b', k) { assert ServingAt(b, k); }
    assert b'.phase.Keys == b.phase.Keys;
  }

  lemma GiveUpRest(b: Ledger, h: nat)
    requires TakenLast(b, h) && Counts(b) && Once(b)
    ensures Counts(GiveUp(b, h)) && Once(GiveUp(b, h)) && LastTakenOk(GiveUp(b, h))
  {
    PreviousIndex(b.taken);
    forall j | 0 <= j < |b.completed| ensures b.completed[j].publication < b.taken - 1 {
      assert NotYet(b.phase[h], b.completed[j].publication);
    }
    OnceSame(b, GiveUp(b, h));
  }

  lemma GiveUpKeeps(l: Lane, b: Ledger, h: nat)
    requires l.index < |l.queues| && LedgerOk(l, b) && TakenLast(b, h)
    ensures LedgerOk(l, GiveUp(b, h))
  {
    DropKeeps(l, Device, b.device, h);
    GiveUpPhases(b, h);
    GiveUpRest(b, h);
  }

  // ------------------------------------------------------- moving and writing

  lemma MoveLedgerKeeps(l: Lane, b: Ledger, h: nat, handle: nat, capacity: nat)
    requires l.index < |l.queues| && LedgerOk(l, b) && h < |b.device.slots| && b.device.slots[h].Held?
    requires !HandleHeld(b.device.slots, handle)
    ensures LedgerOk(l, b.(device := Move(b.device, h, handle, capacity)))
  {
    MoveKeeps(l, Device, b.device, h, handle, capacity);
    MovePhases(b, h, handle, capacity);
    OnceSame(b, b.(device := Move(b.device, h, handle, capacity)));
    MoveLastTaken(b, h, handle, capacity);
  }

  lemma MovePhases(b: Ledger, h: nat, handle: nat, capacity: nat)
    requires Phases(b) && h < |b.device.slots| && b.device.slots[h].Held?
    ensures Phases(b.(device := Move(b.device, h, handle, capacity)))
  {
    var b' := b.(device := Move(b.device, h, handle, capacity));
    forall k | k in b'.phase ensures PhaseOk(b', k, b'.phase[k]) { assert PhaseOk(b, k, b.phase[k]); }
    forall p | b'.taken <= p < |b'.published| ensures QueuedAt(b', p) { assert QueuedAt(b, p); }
    forall j | b'.reaped <= j < |b'.completed| ensures AnsweredAt(b', j) { assert AnsweredAt(b, j); }
    forall k | 0 <= k < |b'.device.slots| && b'.device.slots[k].Held? ensures ServingAt(b', k) { assert ServingAt(b, k); }
  }

  lemma MoveLastTaken(b: Ledger, h: nat, handle: nat, capacity: nat)
    requires LastTakenOk(b) && HandlesDistinct(b.device.slots) && h < |b.device.slots| && b.device.slots[h].Held?
    ensures LastTakenOk(b.(device := Move(b.device, h, handle, capacity)))
  {
  }

  lemma GrowPhases(b: Ledger, h: nat, bytes: seq<byte>)
    requires Phases(b) && h < |b.device.slots| && b.device.slots[h].Held?
    ensures Phases(Grow(b, h, bytes))
  {
    var b' := Grow(b, h, bytes);
    assert ServingAt(b, h);
    forall k | k in b'.phase ensures PhaseOk(b', k, b'.phase[k]) { assert PhaseOk(b, k, b.phase[k]); }
    forall p | b'.taken <= p < |b'.published| ensures QueuedAt(b', p) { assert QueuedAt(b, p); }
    forall j | b'.reaped <= j < |b'.completed| ensures AnsweredAt(b', j) { assert AnsweredAt(b, j); }
    forall k | 0 <= k < |b'.device.slots| && b'.device.slots[k].Held? ensures ServingAt(b', k) { assert ServingAt(b, k); }
    assert b'.phase.Keys == b.phase.Keys;
  }

  lemma GrowKeeps(l: Lane, b: Ledger, h: nat, bytes: seq<byte>)
    requires l.index < |l.queues| && LedgerOk(l, b) && h < |b.device.slots| && b.device.slots[h].Held?
    requires b.device.slots[h].chain.written + |bytes| <= b.device.slots[h].chain.writable
    requires b.device.slots[h].chain.written + |bytes| < U32
    ensures LedgerOk(l, Grow(b, h, bytes))
  {
    WriteKeeps(l, b.device, h, |bytes|);
    GrowPhases(b, h, bytes);
    GrowRest(b, h, bytes);
  }

  lemma GrowRest(b: Ledger, h: nat, bytes: seq<byte>)
    requires Counts(b) && Once(b) && LastTakenOk(b) && h < |b.device.slots| && b.device.slots[h].Held?
    ensures Counts(Grow(b, h, bytes)) && Once(Grow(b, h, bytes)) && LastTakenOk(Grow(b, h, bytes))
  {
    OnceSame(b, Grow(b, h, bytes));
    LastTakenSame(b, Grow(b, h, bytes));
  }

  // -------------------------------------------------------------- completing

  /** The device may complete the chain at `h`: what it wrote fits the driver's chain. */
  ghost predicate Completes(b: Ledger, h: u16) {
    && h < |b.device.slots| && b.device.slots[h].Held? && b.device.owned > 0
    && h as nat in b.phase && b.phase[h as nat].Serving? && PhaseOk(b, h, b.phase[h as nat])
    && b.device.slots[h].chain.written <= b.driver.slots[h].chain.writable && b.device.slots[h].chain.written < U32
  }

  lemma ServedCompletes(l: Lane, b: Ledger, h: u16)
    requires l.index < |l.queues| && LedgerOk(l, b) && h < |b.device.slots| && b.device.slots[h].Held?
    ensures Completes(b, h)
  {
    assert h as nat in HeldHeads(b.device.slots);
    assert ServingAt(b, h) && PhaseOk(b, h, b.phase[h as nat]);
    assert SlotOk(l, Device, h, b.device.slots[h]) && SlotOk(l, Driver, h, b.driver.slots[h]);
  }

  lemma FinishPhase(b: Ledger, h: u16, k: nat)
    requires Completes(b, h) && b.reaped <= |b.completed| && k in b.phase && PhaseOk(b, k, b.phase[k])
    ensures k in Finish(b, h).phase && PhaseOk(Finish(b, h), k, Finish(b, h).phase[k])
  {
  }

  lemma FinishPhases(b: Ledger, h: u16)
    requires Completes(b, h) && b.reaped <= |b.completed| && Phases(b)
    ensures Phases(Finish(b, h))
  {
    var b' := Finish(b, h);
    forall k | k in b'.phase ensures PhaseOk(b', k, b'.phase[k]) {
      assert PhaseOk(b, k, b.phase[k]);
      FinishPhase(b, h, k);
    }
    forall p | b'.taken <= p < |b'.published| ensures QueuedAt(b', p) { assert QueuedAt(b, p); }
    forall j | b'.reaped <= j < |b'.completed| ensures AnsweredAt(b', j) {
      if j < |b.completed| { assert AnsweredAt(b, j); }
    }
    forall k | 0 <= k < |b'.device.slots| && b'.device.slots[k].Held? ensures ServingAt(b', k) { assert ServingAt(b, k); }
    assert b'.phase.Keys == b.phase.Keys;
  }

  lemma FinishOnce(b: Ledger, h: u16)
    requires Completes(b, h) && Once(b)
    requires forall k :: k in b.phase ==> PhaseOk(b, k, b.phase[k])
    ensures Once(Finish(b, h))
  {
    var b', p := Finish(b, h), b.phase[h as nat].publication;
    forall j | 0 <= j < |b.completed| ensures b.completed[j].publication != p {
      assert NotYet(b.phase[h as nat], b.completed[j].publication);
    }
    forall k, j | k in b'.phase && 0 <= j < |b'.completed| ensures NotYet(b'.phase[k], b'.completed[j].publication) {
      assert PhaseOk(b, k, b.phase[k]);
      if j < |b.completed| { assert NotYet(b.phase[k], b.completed[j].publication); }
    }
    forall j | 0 <= j < b'.reaped ensures Delivered(b', j) { assert Delivered(b, j); }
  }

  lemma FinishLastTaken(b: Ledger, h: u16)
    requires Completes(b, h) && LastTakenOk(b) && HandlesDistinct(b.device.slots)
    ensures LastTakenOk(Finish(b, h))
  {
  }

  lemma FinishKeeps(l: Lane, b: Ledger, h: u16)
    requires l.index < |l.queues| && LedgerOk(l, b) && Completes(b, h)
    ensures LedgerOk(l, Finish(b, h))
  {
    FinishEnds(l, b, h);
    FinishPhases(b, h);
    FinishOnce(b, h);
    FinishCounts(b, h);
    FinishLastTaken(b, h);
  }

  lemma FinishEnds(l: Lane, b: Ledger, h: u16)
    requires l.index < |l.queues| && Ends(l, b) && Completes(b, h)
    ensures Ends(l, Finish(b, h)) && HandlesDistinct(b.device.slots)
  {
    var d := b.device.(produced := Next16(b.device.produced));
    DropKeeps(l, Device, d, h);
  }

  lemma FinishCounts(b: Ledger, h: u16)
    requires Counts(b) && Completes(b, h)
    ensures Counts(Finish(b, h))
  {
    NextIndex(|b.completed|);
  }
}
