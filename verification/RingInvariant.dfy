/** What holds between the accesses of the two sides, in every interleaving. */
module RingInvariant {
  import opened Bytes
  import opened Channel
  import opened Chains
  import opened Descriptors
  import opened Endpoint
  import opened ScatterGather
  import opened Wrap
  import opened SplitRing

  /** Both endpoints are consistent. */
  ghost predicate Ends(l: Lane, s: Ledger)
    requires l.index < |l.queues|
  {
    Consistent(l, Driver, s.driver) && Consistent(l, Device, s.device)
  }

  /** The private 16-bit counters are the true counts. */
  ghost predicate Counts(s: Ledger) {
    && s.driver.produced == Index16(|s.published|) && s.driver.consumed == Index16(s.reaped)
    && s.device.produced == Index16(|s.completed|) && s.device.consumed == Index16(s.taken)
    && s.taken == |s.completed| + s.device.owned
    && s.taken <= |s.published| && s.reaped <= |s.completed|
  }

  function WireOf(s: Ledger, h: nat): Wire
    requires h < |s.driver.slots| && s.driver.slots[h].Held?
  {
    s.driver.slots[h].chain.wire
  }

  /** Publication `p` is the chain the driver holds at `h`. */
  ghost predicate Published(s: Ledger, h: nat, p: nat) {
    && h < |s.driver.slots| && s.driver.slots[h].Held? && p < |s.published|
    && s.published[p].wire == WireOf(s, h) && WireOf(s, h).head == h && s.published[p].handle == s.driver.slots[h].handle
  }

  ghost predicate Answers(s: Ledger, h: nat, p: nat, j: nat) {
    j < |s.completed| && s.completed[j].publication == p && s.completed[j].head == h
  }

  ghost predicate PhaseOk(s: Ledger, h: nat, phase: Phase) {
    && h < |s.driver.slots| && s.driver.slots[h].Held?
    && (s.driver.slots[h].chain.state.Returned? <==> phase.Back?)
    && match phase
       case Preparing => s.preparing == Some(h)
       case Queued(p) => Published(s, h, p) && s.taken <= p
       case Serving(p, r) =>
         && Published(s, h, p) && p < s.taken && h < |s.device.slots| && s.device.slots[h].Held?
         && s.device.slots[h].chain.wire == WireOf(s, h) && s.device.slots[h].chain.written == |r|
       case Answered(p, j) =>
         Published(s, h, p) && p < s.taken && Answers(s, h, p, j) && s.reaped <= j
         && |s.completed[j].response| <= s.driver.slots[h].chain.writable && |s.completed[j].response| < U32
       case Back(p, j) =>
         && Published(s, h, p) && p < s.taken && Answers(s, h, p, j) && j < s.reaped
         && s.driver.slots[h].chain.usedLength == |s.completed[j].response|
  }

  /** Every chain the driver holds is in exactly one phase, and every ring entry, accepted chain
      and running publication is a chain the driver holds, in that phase. */
  ghost predicate Phases(s: Ledger) {
    && s.phase.Keys == HeldHeads(s.driver.slots)
    && (forall h :: h in s.phase ==> PhaseOk(s, h, s.phase[h]))
    && (forall p :: s.taken <= p < |s.published| ==> QueuedAt(s, p))
    && (forall j :: s.reaped <= j < |s.completed| ==> AnsweredAt(s, j))
    && (forall h :: 0 <= h < |s.device.slots| && s.device.slots[h].Held? ==> ServingAt(s, h))
    && (s.preparing.Some? ==> s.preparing.value in s.phase && s.phase[s.preparing.value] == Preparing)
  }

  ghost predicate QueuedAt(s: Ledger, p: nat)
    requires p < |s.published|
  {
    var h := s.published[p].wire.head as nat;
    h in s.phase && s.phase[h] == Queued(p)
  }

  ghost predicate AnsweredAt(s: Ledger, j: nat)
    requires j < |s.completed|
  {
    var h := s.completed[j].head as nat;
    h in s.phase && s.phase[h] == Answered(s.completed[j].publication, j)
  }

  ghost predicate ServingAt(s: Ledger, h: nat) {
    h in s.phase && s.phase[h].Serving?
  }

  /** No publication is completed twice, and deliveries are the completions in order. */
  ghost predicate Once(s: Ledger) {
    && (forall i, j :: 0 <= i < j < |s.completed| ==> s.completed[i].publication != s.completed[j].publication)
    && (forall j :: 0 <= j < |s.completed| ==> s.completed[j].publication < s.taken)
    && (forall h, j :: h in s.phase && 0 <= j < |s.completed| ==> NotYet(s.phase[h], s.completed[j].publication))
    && |s.delivered| == s.reaped
    && (forall j :: 0 <= j < s.reaped ==> Delivered(s, j))
  }

  /** A chain still queued or served has not been completed as publication `p`. */
  ghost predicate NotYet(phase: Phase, p: nat) {
    phase.Queued? || phase.Serving? ==> phase.publication != p
  }

  ghost predicate Delivered(s: Ledger, j: nat)
    requires j < |s.delivered|
  {
    && j < |s.completed| && s.completed[j].publication < |s.published|
    && s.delivered[j] == Delivery(s.published[s.completed[j].publication].handle, |s.completed[j].response|)
  }

  // ----------------------------------------------------------------- memory

  /** The oldest available entry that may still be read: a chain given back is read again. */
  function Oldest(s: Ledger): int {
    if s.device.lastTaken.Some? then s.taken - 1 else s.taken
  }

  /** What the invariant says about the available ring. */
  ghost predicate AvailableOk(q: Queue, s: Ledger, m: Memory)
    requires q.size > 0
  {
    && Holds(m, AvailableIndex(q), Le(Index16(|s.published|), 2))
    && (forall p: nat :: Oldest(s) <= p < |s.published| ==>
          Holds(m, AvailableSlot(q, Index16(p)), Le(s.published[p].wire.head, 2)))
  }

  /** What the invariant says about the used ring. */
  ghost predicate UsedOk(q: Queue, s: Ledger, m: Memory)
    requires q.size > 0
  {
    && Holds(m, UsedIndex(q), Le(Index16(|s.completed|), 2))
    && (forall j :: s.reaped <= j < |s.completed| ==>
          Holds(m, UsedSlot(q, Index16(j)), UsedEntry(s.completed[j].head, |s.completed[j].response|)))
  }

  /** The response bytes a phase promises to be in the chain's writable segments. */
  ghost function Response(s: Ledger, phase: Phase): seq<byte> {
    match phase
    case Serving(_, r) => r
    case Answered(_, j) => if j < |s.completed| then s.completed[j].response else []
    case Back(_, j) => if j < |s.completed| then s.completed[j].response else []
    case _ => []
  }

  /** What the invariant says about the chains the driver holds. */
  ghost predicate ChainsOk(q: Queue, s: Ledger, m: Memory) {
    forall h :: h in s.phase ==> ChainOk(q, s, h, m)
  }

  /** A published chain is laid out, its request is untouched, its response is what was written. */
  ghost predicate ChainOk(q: Queue, s: Ledger, h: nat, m: Memory) {
    && h in s.phase && h < |s.driver.slots| && s.driver.slots[h].Held? && Direct(WireOf(s, h)) <= |WireOf(s, h).segments|
    && (!s.phase[h].Preparing? ==>
          && Laid(m, q, WireOf(s, h))
          && s.phase[h].publication < |s.published|
          && Gather(m, WireOf(s, h).segments, false) == s.published[s.phase[h].publication].request
          && Response(s, s.phase[h]) <= Gather(m, WireOf(s, h).segments, true))
  }

  // ------------------------------------------------------- calls in progress

  /** The first `k` stores of the running publication are in memory. */
  ghost predicate StoredUpTo(q: Queue, m: Memory, w: Wire, produced: u16, k: nat)
    requires q.size > 0 && k <= RecordCount(w) + 1
  {
    forall j :: 0 <= j < k ==> StoredAt(q, m, w, produced, j)
  }

  ghost predicate StoredAt(q: Queue, m: Memory, w: Wire, produced: u16, j: nat)
    requires q.size > 0 && j <= RecordCount(w) + 1
  {
    var store := PublishStore(q, w, produced, j);
    Holds(m, store.at, store.bytes)
  }

  /** The call the driver is in: how far it got, and what it has stored. */
  ghost predicate DriverCallOk(q: Queue, s: Ledger, m: Memory, call: DriverCall)
    requires q.size > 0
  {
    && (call.Publishing? <==> s.preparing.Some?)
    && match call
       case DriverIdle => true
       case Reaping => s.reaped < |s.completed|
       case Publishing(k) =>
         && s.preparing.value < |s.driver.slots| && s.driver.slots[s.preparing.value].Held?
         && k <= RecordCount(WireOf(s, s.preparing.value)) + 1
         && StoredUpTo(q, m, WireOf(s, s.preparing.value), s.driver.produced, k)
  }

  /** The call the device is in: a walk stands where the published chain says it must. */
  ghost predicate DeviceCallOk(l: Lane, s: Ledger, m: Memory, call: DeviceCall)
    requires l.index < |l.queues| && l.Queue().size > 0
  {
    match call
    case DeviceIdle => true
    case Seen => s.taken < |s.published| && s.device.owned < l.Queue().maxOutstanding
    case Walking(handle, capacity, walk, k) =>
      && s.taken < |s.published| && s.device.owned < l.Queue().maxOutstanding
      && !HandleHeld(s.device.slots, handle) && capacity >= l.Queue().maxChain
      && WalkOk(s.published[s.taken].wire, walk, k)
    case Completing(h) =>
      && h < |s.device.slots| && s.device.slots[h].Held?
      && Holds(m, UsedSlot(l.Queue(), s.device.produced), UsedEntry(h, s.device.slots[h].chain.written))
  }

  ghost predicate WalkOk(w: Wire, walk: Walk, k: nat) {
    Direct(w) <= |w.segments| && k < RecordCount(w) && walk == Expected(w, k)
  }

  /** The chain taken last is the newest taken publication. */
  ghost predicate LastTakenOk(s: Ledger) {
    s.device.lastTaken.Some? ==>
      && 0 < s.taken <= |s.published|
      && var h := s.published[s.taken - 1].wire.head as nat;
         && h in s.phase && s.phase[h].Serving? && s.phase[h].publication == s.taken - 1
         && h < |s.device.slots| && s.device.slots[h].Held? && s.device.slots[h].handle == s.device.lastTaken.value
  }

  /** The part of the invariant that does not look at memory. */
  ghost predicate LedgerOk(l: Lane, b: Ledger)
    requires l.index < |l.queues|
  {
    Ends(l, b) && Counts(b) && Phases(b) && Once(b) && LastTakenOk(b)
  }

  /** The part of the invariant that ties memory to the ledger. */
  ghost predicate MemoryOk(q: Queue, b: Ledger, m: Memory)
    requires q.size > 0
  {
    AvailableOk(q, b, m) && UsedOk(q, b, m) && ChainsOk(q, b, m)
  }

  ghost predicate Inv(l: Lane, s: System)
    requires l.index < |l.queues| && l.Queue().size > 0
  {
    && !s.faulted && LedgerOk(l, s.b) && MemoryOk(l.Queue(), s.b, s.memory)
    && DriverCallOk(l.Queue(), s.b, s.memory, s.driving) && DeviceCallOk(l, s.b, s.memory, s.serving)
  }

  lemma InitialInv(l: Lane, s: System)
    requires l.Valid() && l.Queue().size > 0 && Initial(l, s)
    ensures Inv(l, s)
  {
    FreshConsistent(l, Driver);
    FreshConsistent(l, Device);
    assert HeldHeads(s.b.driver.slots) == {};
  }
}
