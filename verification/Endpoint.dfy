/** One endpoint of a lane: its private tables, the ownership moves on them, and what
    every move keeps no matter what the peer writes into shared memory.
 */
module Endpoint {
  import opened Bytes
  import opened Channel
  import opened Chains
  import opened Descriptors

  datatype Side = Driver | Device
  datatype Option<T> = None | Some(value: T)

  datatype State = State(
    slots: seq<Slot>, owner: seq<u16>, owned: nat,
    produced: u16, consumed: u16, lastTaken: Option<nat>)

  function HeldHeads(slots: seq<Slot>): set<nat> {
    set h: nat | h < |slots| && slots[h].Held?
  }

  predicate StateFits(side: Side, state: ChainState) {
    if side.Driver? then state.Submitted? || state.Returned? else state.Accepted?
  }

  ghost predicate SlotOk(l: Lane, side: Side, h: nat, slot: Slot)
    requires l.index < |l.queues| && slot.Held?
  {
    var c := slot.chain;
    && c.wire.head == h && ValidWire(l, c.wire)
    && c.readable == Total(c.wire.segments, false) && c.writable == Total(c.wire.segments, true)
    && StateFits(side, c.state)
    && c.written <= c.writable && c.written < U32 && c.usedLength <= c.writable
  }

  ghost predicate SlotsOk(l: Lane, side: Side, slots: seq<Slot>)
    requires l.index < |l.queues|
  {
    forall h :: 0 <= h < |slots| && slots[h].Held? ==> SlotOk(l, side, h, slots[h])
  }

  /** No chain object is held twice. */
  ghost predicate HandlesDistinct(slots: seq<Slot>) {
    forall h, k :: 0 <= h < k < |slots| && slots[h].Held? && slots[k].Held? ==> slots[h].handle != slots[k].handle
  }

  /** Held chains share no byte that either could write. */
  ghost predicate HeldApart(slots: seq<Slot>) {
    forall h, k :: 0 <= h < |slots| && 0 <= k < |slots| && h != k && slots[h].Held? && slots[k].Held?
      ==> WiresApart(slots[h].chain.wire, slots[k].chain.wire)
  }

  /** `owner` marks exactly the main-table descriptors of the held chains. */
  ghost predicate OwnersExact(slots: seq<Slot>, owner: seq<u16>) {
    && (forall h :: 0 <= h < |slots| && slots[h].Held? ==> Marked(owner, slots[h].chain.wire, h + 1))
    && (forall d :: 0 <= d < |owner| && owner[d] != 0 ==> OwnedBy(slots, owner[d], d))
  }

  ghost predicate Marked(owner: seq<u16>, w: Wire, mark: int) {
    forall d: nat :: Uses(w, d) ==> d < |owner| && owner[d] == mark
  }

  ghost predicate OwnedBy(slots: seq<Slot>, mark: u16, d: nat) {
    1 <= mark <= |slots| && slots[mark - 1].Held? && Uses(slots[mark - 1].chain.wire, d)
  }

  ghost predicate HandleHeld(slots: seq<Slot>, handle: nat) {
    exists h :: 0 <= h < |slots| && slots[h].Held? && slots[h].handle == handle
  }

  /** The private tables agree with each other. */
  ghost predicate Tables(e: State) {
    && |e.slots| == |e.owner| && e.owned == |HeldHeads(e.slots)|
    && HandlesDistinct(e.slots) && HeldApart(e.slots) && OwnersExact(e.slots, e.owner)
    && (e.lastTaken.Some? ==> HandleHeld(e.slots, e.lastTaken.value))
  }

  /** What an endpoint keeps under every sequence of calls. */
  ghost predicate Consistent(l: Lane, side: Side, e: State)
    requires l.index < |l.queues|
  {
    && |e.slots| == l.Queue().size && e.owned <= l.Queue().maxOutstanding
    && Tables(e) && SlotsOk(l, side, e.slots)
    && (e.lastTaken.Some? ==> side.Device?)
  }

  lemma HeldSlot(l: Lane, side: Side, e: State, h: nat)
    requires l.index < |l.queues| && Consistent(l, side, e) && h < |e.slots| && e.slots[h].Held?
    ensures SlotOk(l, side, h, e.slots[h])
  {
  }

  // -------------------------------------------------------- ownership moves

  function Mark(owner: seq<u16>, w: Wire, mark: u16): (r: seq<u16>)
    ensures |r| == |owner|
    ensures forall d :: 0 <= d < |owner| ==> r[d] == if Uses(w, d) then mark else owner[d]
  {
    seq(|owner|, d requires 0 <= d < |owner| => if Uses(w, d) then mark else owner[d])
  }

  function Claim(e: State, handle: nat, c: Chain): State
    requires c.wire.head < |e.slots| && c.wire.head + 1 < U16
  {
    e.(slots := e.slots[c.wire.head := Held(handle, c)],
       owner := Mark(e.owner, c.wire, c.wire.head + 1),
       owned := e.owned + 1)
  }

  function Drop(e: State, h: nat): State
    requires h < |e.slots| && e.slots[h].Held? && e.owned > 0
  {
    e.(slots := e.slots[h := Empty],
       owner := Mark(e.owner, e.slots[h].chain.wire, 0),
       owned := e.owned - 1,
       lastTaken := if e.lastTaken == Some(e.slots[h].handle) then None else e.lastTaken)
  }

  /** A held chain changes its bookkeeping but not its wire part or its object. */
  function Amend(e: State, h: nat, c: Chain): State
    requires h < |e.slots| && e.slots[h].Held?
  {
    e.(slots := e.slots[h := Held(e.slots[h].handle, c)])
  }

  lemma HeadsAfterUpdate(slots: seq<Slot>, h: nat, slot: Slot)
    requires h < |slots|
    ensures HeldHeads(slots[h := slot]) == if slot.Held? then HeldHeads(slots) + {h} else HeldHeads(slots) - {h}
    ensures |HeldHeads(slots[h := slot])| ==
        |HeldHeads(slots)| + (if slot.Held? then 1 else 0) - (if slots[h].Held? then 1 else 0)
  {
    var before, after := HeldHeads(slots), HeldHeads(slots[h := slot]);
    assert after - {h} == before - {h};
    assert slots[h].Held? ==> h in before && before == (before - {h}) + {h};
    assert slot.Held? ==> h in after && after == (after - {h}) + {h};
  }

  lemma SlotsAfterUpdate(l: Lane, side: Side, slots: seq<Slot>, h: nat, slot: Slot)
    requires l.index < |l.queues| && h < |slots| && SlotsOk(l, side, slots)
    requires slot.Held? ==> SlotOk(l, side, h, slot)
    ensures SlotsOk(l, side, slots[h := slot])
  {
  }

  lemma HandlesAfterUpdate(slots: seq<Slot>, h: nat, slot: Slot)
    requires h < |slots| && HandlesDistinct(slots)
    requires slot.Held? ==> !HandleHeld(slots, slot.handle) || (slots[h].Held? && slots[h].handle == slot.handle)
    ensures HandlesDistinct(slots[h := slot])
  {
  }

  lemma OwnersAfterClaim(slots: seq<Slot>, owner: seq<u16>, handle: nat, c: Chain)
    requires |slots| == |owner| < U16 - 1 && c.wire.head < |slots| && slots[c.wire.head].Empty?
    requires OwnersExact(slots, owner) && DescriptorsFree(owner, c.wire)
    ensures OwnersExact(slots[c.wire.head := Held(handle, c)], Mark(owner, c.wire, c.wire.head + 1))
  {
    var slots', owner' := slots[c.wire.head := Held(handle, c)], Mark(owner, c.wire, c.wire.head + 1);
    forall h | 0 <= h < |slots'| && slots'[h].Held? ensures Marked(owner', slots'[h].chain.wire, h + 1) {
      if h != c.wire.head { assert Marked(owner, slots[h].chain.wire, h + 1); }
    }
    forall d | 0 <= d < |owner'| && owner'[d] != 0 ensures OwnedBy(slots', owner'[d], d) {
      if !Uses(c.wire, d) { assert OwnedBy(slots, owner[d], d); }
    }
  }

  lemma OwnersAfterDrop(slots: seq<Slot>, owner: seq<u16>, h: nat)
    requires |slots| == |owner| && h < |slots| && slots[h].Held? && OwnersExact(slots, owner)
    ensures OwnersExact(slots[h := Empty], Mark(owner, slots[h].chain.wire, 0))
  {
    var slots', owner' := slots[h := Empty], Mark(owner, slots[h].chain.wire, 0);
    assert Marked(owner, slots[h].chain.wire, h + 1);
    forall k | 0 <= k < |slots'| && slots'[k].Held? ensures Marked(owner', slots'[k].chain.wire, k + 1) {
      assert Marked(owner, slots[k].chain.wire, k + 1);
    }
    forall d | 0 <= d < |owner'| && owner'[d] != 0 ensures OwnedBy(slots', owner'[d], d) {
      assert OwnedBy(slots, owner[d], d);
    }
  }

  lemma OwnersAfterAmend(slots: seq<Slot>, owner: seq<u16>, h: nat, slot: Slot)
    requires |slots| == |owner| && h < |slots| && slots[h].Held? && OwnersExact(slots, owner)
    requires slot.Held? && slot.chain.wire == slots[h].chain.wire
    ensures OwnersExact(slots[h := slot], owner)
  {
    forall d | 0 <= d < |owner| && owner[d] != 0 ensures OwnedBy(slots[h := slot], owner[d], d) {
      assert OwnedBy(slots, owner[d], d);
    }
  }

  lemma ApartAfterClaim(slots: seq<Slot>, handle: nat, c: Chain)
    requires c.wire.head < |slots| && HeldApart(slots)
    requires forall h :: 0 <= h < |slots| && slots[h].Held? ==> WiresApart(c.wire, slots[h].chain.wire)
    ensures HeldApart(slots[c.wire.head := Held(handle, c)])
  {
    var slots' := slots[c.wire.head := Held(handle, c)];
    forall h, k | 0 <= h < |slots'| && 0 <= k < |slots'| && h != k && slots'[h].Held? && slots'[k].Held?
      ensures WiresApart(slots'[h].chain.wire, slots'[k].chain.wire)
    {
      if k == c.wire.head { WiresApartSymmetric(c.wire, slots[h].chain.wire); }
    }
  }

  lemma TablesAfterClaim(e: State, handle: nat, c: Chain)
    requires Tables(e) && |e.slots| < U16 - 1
    requires Unclaimed(e.slots, e.owner, c.wire) && !HandleHeld(e.slots, handle)
    ensures Tables(Claim(e, handle, c))
    ensures HeldHeads(Claim(e, handle, c).slots) == HeldHeads(e.slots) + {c.wire.head as nat}
  {
    HeadsAfterUpdate(e.slots, c.wire.head, Held(handle, c));
    OwnersAfterClaim(e.slots, e.owner, handle, c);
    ApartAfterClaim(e.slots, handle, c);
    HandlesAfterUpdate(e.slots, c.wire.head, Held(handle, c));
    LastTakenStays(e.slots, e.lastTaken, c.wire.head, Held(handle, c));
  }

  /** The endpoint has room for the chain, and nothing the chain needs is in use. */
  ghost predicate MayClaim(l: Lane, side: Side, e: State, handle: nat, c: Chain)
    requires l.index < |l.queues|
  {
    && e.owned < l.Queue().maxOutstanding && !HandleHeld(e.slots, handle)
    && Unclaimed(e.slots, e.owner, c.wire) && SlotOk(l, side, c.wire.head, Held(handle, c))
  }

  lemma ClaimKeeps(l: Lane, side: Side, e: State, handle: nat, c: Chain)
    requires l.index < |l.queues| && QueueFieldsOk(l.Queue())
    requires Consistent(l, side, e) && MayClaim(l, side, e, handle, c)
    ensures c.wire.head + 1 < U16 && Consistent(l, side, Claim(e, handle, c))
    ensures HeldHeads(Claim(e, handle, c).slots) == HeldHeads(e.slots) + {c.wire.head as nat}
  {
    TablesAfterClaim(e, handle, c);
    SlotsAfterUpdate(l, side, e.slots, c.wire.head, Held(handle, c));
  }

  lemma LastTakenStays(slots: seq<Slot>, lastTaken: Option<nat>, h: nat, slot: Slot)
    requires h < |slots| && (lastTaken.Some? ==> HandleHeld(slots, lastTaken.value))
    requires slots[h].Held? && lastTaken == Some(slots[h].handle) ==> slot.Held? && slot.handle == slots[h].handle
    ensures lastTaken.Some? ==> HandleHeld(slots[h := slot], lastTaken.value)
  {
    if lastTaken.Some? {
      var k :| 0 <= k < |slots| && slots[k].Held? && slots[k].handle == lastTaken.value;
      assert slots[h := slot][k].Held?;
    }
  }

  lemma DropKeeps(l: Lane, side: Side, e: State, h: nat)
    requires l.index < |l.queues| && Consistent(l, side, e) && h < |e.slots| && e.slots[h].Held?
    ensures e.owned > 0 && Consistent(l, side, Drop(e, h))
    ensures HeldHeads(Drop(e, h).slots) == HeldHeads(e.slots) - {h}
  {
    assert h in HeldHeads(e.slots);
    HeadsAfterUpdate(e.slots, h, Empty);
    OwnersAfterDrop(e.slots, e.owner, h);
    SlotsAfterUpdate(l, side, e.slots, h, Empty);
    HandlesAfterUpdate(e.slots, h, Empty);
    if e.lastTaken != Some(e.slots[h].handle) { LastTakenStays(e.slots, e.lastTaken, h, Empty); }
  }

  lemma AmendKeeps(l: Lane, side: Side, e: State, h: nat, c: Chain)
    requires l.index < |l.queues| && Consistent(l, side, e) && h < |e.slots| && e.slots[h].Held?
    requires c.wire == e.slots[h].chain.wire && SlotOk(l, side, h, Held(e.slots[h].handle, c))
    ensures Consistent(l, side, Amend(e, h, c))
    ensures HeldHeads(Amend(e, h, c).slots) == HeldHeads(e.slots)
  {
    var slot := Held(e.slots[h].handle, c);
    HeadsAfterUpdate(e.slots, h, slot);
    assert h in HeldHeads(e.slots);
    assert HeldHeads(e.slots[h := slot]) == HeldHeads(e.slots);
    OwnersAfterAmend(e.slots, e.owner, h, slot);
    SlotsAfterUpdate(l, side, e.slots, h, slot);
    HandlesAfterUpdate(e.slots, h, slot);
    LastTakenStays(e.slots, e.lastTaken, h, slot);
  }

  /** A held chain moves into another chain object. */
  function Move(e: State, h: nat, handle: nat, capacity: nat): State
    requires h < |e.slots| && e.slots[h].Held?
  {
    e.(slots := e.slots[h := Held(handle, e.slots[h].chain.(capacity := capacity))],
       lastTaken := if e.lastTaken == Some(e.slots[h].handle) then Some(handle) else e.lastTaken)
  }

  lemma MoveKeeps(l: Lane, side: Side, e: State, h: nat, handle: nat, capacity: nat)
    requires l.index < |l.queues| && Consistent(l, side, e) && h < |e.slots| && e.slots[h].Held?
    requires !HandleHeld(e.slots, handle)
    ensures Consistent(l, side, Move(e, h, handle, capacity))
    ensures HeldHeads(Move(e, h, handle, capacity).slots) == HeldHeads(e.slots)
  {
    var e', slot := Move(e, h, handle, capacity), Held(handle, e.slots[h].chain.(capacity := capacity));
    HeadsAfterUpdate(e.slots, h, slot);
    assert h in HeldHeads(e.slots);
    assert HeldHeads(e.slots[h := slot]) == HeldHeads(e.slots);
    OwnersAfterAmend(e.slots, e.owner, h, slot);
    assert SlotOk(l, side, h, e.slots[h]);
    SlotsAfterUpdate(l, side, e.slots, h, slot);
    HandlesAfterUpdate(e.slots, h, slot);
    if e.lastTaken == Some(e.slots[h].handle) { assert e'.slots[h].Held? && e'.slots[h].handle == handle; }
    else { LastTakenStays(e.slots, e.lastTaken, h, slot); }
  }

  // -------------------------------------------------------- admission

  /** A validated chain as it enters a slot. */
  function Prepared(w: Wire, capacity: nat, state: ChainState): Chain {
    Chain(w, capacity, Total(w.segments, false), Total(w.segments, true), 0, 0, state)
  }

  lemma AdmittedMayClaim(l: Lane, side: Side, e: State, handle: nat, w: Wire, capacity: nat, state: ChainState)
    requires l.index < |l.queues| && Admissible(l, e.slots, e.owner, w, capacity) && StateFits(side, state)
    requires e.owned < l.Queue().maxOutstanding && !HandleHeld(e.slots, handle)
    ensures MayClaim(l, side, e, handle, Prepared(w, capacity, state))
  {
  }

  /** The chain object is the one last taken, and no response byte was written to it. */
  predicate MayReturn(side: Side, e: State, handle: nat, head: u16) {
    && side.Device? && head < |e.slots| && e.slots[head].Held? && e.slots[head].handle == handle
    && e.slots[head].chain.state.Accepted? && e.slots[head].chain.written == 0 && e.lastTaken == Some(handle)
  }

  /** A used entry the driver accepts: a submitted chain, and no more bytes than it can hold. */
  predicate UsedFits(e: State, head: nat, length: nat) {
    && head < |e.slots| && e.slots[head].Held? && e.slots[head].chain.state.Submitted?
    && length <= e.slots[head].chain.writable
  }

  function Reap(e: State, head: nat, length: nat): State
    requires UsedFits(e, head, length)
  {
    Amend(e, head, e.slots[head].chain.(usedLength := length, state := Returned)).(consumed := Next16(e.consumed))
  }

  lemma ReapKeeps(l: Lane, e: State, head: nat, length: nat)
    requires l.index < |l.queues| && Consistent(l, Driver, e) && UsedFits(e, head, length)
    ensures Consistent(l, Driver, Reap(e, head, length)) && HeldHeads(Reap(e, head, length).slots) == HeldHeads(e.slots)
  {
    assert SlotOk(l, Driver, head, e.slots[head]);
    AmendKeeps(l, Driver, e, head, e.slots[head].chain.(usedLength := length, state := Returned));
  }

  /** A response append the device may make: it fits, and the total stays a 32-bit number. */
  predicate MayWrite(c: Chain, bytes: seq<byte>) {
    |bytes| <= c.writable - c.written && |bytes| <= U32 - 1 - c.written
  }

  function Write(e: State, head: nat, size: nat): State
    requires head < |e.slots| && e.slots[head].Held?
  {
    Amend(e, head, e.slots[head].chain.(written := e.slots[head].chain.written + size))
  }

  lemma WriteKeeps(l: Lane, e: State, head: nat, size: nat)
    requires l.index < |l.queues| && Consistent(l, Device, e) && head < |e.slots| && e.slots[head].Held?
    requires e.slots[head].chain.written + size <= e.slots[head].chain.writable
    requires e.slots[head].chain.written + size < U32
    ensures Consistent(l, Device, Write(e, head, size)) && HeldHeads(Write(e, head, size).slots) == HeldHeads(e.slots)
  {
    assert SlotOk(l, Device, head, e.slots[head]);
    AmendKeeps(l, Device, e, head, e.slots[head].chain.(written := e.slots[head].chain.written + size));
  }

  function Fresh(size: nat): State {
    State(seq(size, _ => Empty), seq(size, _ => 0), 0, 0, 0, None)
  }

  lemma FreshConsistent(l: Lane, side: Side)
    requires l.index < |l.queues|
    ensures Consistent(l, side, Fresh(l.Queue().size))
  {
    assert HeldHeads(Fresh(l.Queue().size).slots) == {};
  }

  // -------------------------------------------------------- ring arithmetic

  /** 16-bit difference a - b, with its wrap-around. */
  function Minus16(a: u16, b: u16): u16 {
    if a >= b then a - b else a - b + U16
  }

  function Next16(a: u16): u16 {
    if a + 1 < U16 then a + 1 else 0
  }

  function Previous16(a: u16): u16 {
    if a > 0 then a - 1 else U16 - 1
  }

  datatype Status = Ok | NothingPending | Full | Invalid | Stale | Faulted | Io

  /** What the published index of the peer's ring tells this side. */
  function Pending(q: Queue, side: Side, e: State, index: u16): Status {
    var distance := Minus16(index, e.consumed);
    if distance > q.maxOutstanding || (side.Driver? && distance > Minus16(e.produced, e.consumed)) then Faulted
    else if distance == 0 then NothingPending else Ok
  }

  /** Event suppression: did the new index pass the peer's event index? */
  predicate MustNotify(before: u16, next: u16, threshold: u16) {
    Minus16(Minus16(next, threshold), 1) < Minus16(next, before)
  }

  function AvailableSlot(q: Queue, index: u16): int
    requires q.size > 0
  {
    q.available + 4 + 2 * (index % q.size)
  }

  function UsedSlot(q: Queue, index: u16): int
    requires q.size > 0
  {
    q.used + 4 + 8 * (index % q.size)
  }

  /** Index words and event words of the two rings. */
  function AvailableIndex(q: Queue): int { q.available + 2 }
  function UsedIndex(q: Queue): int { q.used + 2 }
  function AvailableEvent(q: Queue): int { q.used + 4 + 8 * q.size }
  function UsedEvent(q: Queue): int { q.available + 4 + 2 * q.size }

  function EventWord(q: Queue, side: Side): int { if side.Driver? then UsedEvent(q) else AvailableEvent(q) }
  function PeerIndex(q: Queue, side: Side): int { if side.Driver? then UsedIndex(q) else AvailableIndex(q) }

  /** A store into shared memory. */
  datatype Store = Store(at: int, bytes: seq<byte>)

  /** The stores of a publication, in order: descriptors, indirect reference, ring entry, index. */
  function PublishStore(q: Queue, w: Wire, produced: u16, k: nat): Store
    requires q.size > 0 && k <= RecordCount(w) + 1
  {
    if k < |w.segments| then var r := SegmentRecord(q, w, k); Store(r.at, Encode(r.desc))
    else if k < RecordCount(w) then var r := ReferenceRecord(q, w); Store(r.at, Encode(r.desc))
    else if k == RecordCount(w) then Store(AvailableSlot(q, produced), Le(w.head, 2))
    else Store(AvailableIndex(q), Le(Next16(produced), 2))
  }

  function PublishStores(q: Queue, w: Wire, produced: u16): (r: seq<Store>)
    requires q.size > 0
    ensures |r| == RecordCount(w) + 2
  {
    seq(RecordCount(w) + 2, k requires 0 <= k < RecordCount(w) + 2 => PublishStore(q, w, produced, k))
  }

  /** The stores of a completion: the used entry, then the index. */
  function CompleteStores(q: Queue, head: u16, written: nat, produced: u16): (r: seq<Store>)
    requires q.size > 0
    ensures |r| == 2
  {
    [Store(UsedSlot(q, produced), Le(head, 4) + Le(written, 4)), Store(UsedIndex(q), Le(Next16(produced), 2))]
  }
}
