/** A driver and a device on one lane, interleaved access by access.

    Each side runs one call at a time, as its queue has a single owner; between any two of
    its memory accesses the other side may do anything its own calls allow. The steps use the
    same tables, checks and stores as the engine. `published`, `completed`, `delivered` and
    `phase` are bookkeeping: the engine does not see them.
 */
module SplitRing {
  import opened Bytes
  import opened Ranges
  import opened Channel
  import opened Chains
  import opened Descriptors
  import opened Endpoint
  import opened ScatterGather
  import opened Footprint

  /** One chain made available; its number is its position in the available ring. */
  datatype Publication = Publication(handle: nat, wire: Wire, request: seq<byte>)
  /** One used entry; its number is its position in the used ring. */
  datatype Completion = Completion(publication: nat, head: u16, response: seq<byte>)
  /** What take_used gave the driver. */
  datatype Delivery = Delivery(handle: nat, length: nat)

  /** Where a chain the driver holds is on its way. */
  datatype Phase =
    | Preparing
    | Queued(publication: nat)
    | Serving(publication: nat, response: seq<byte>)
    | Answered(publication: nat, completion: nat)
    | Back(publication: nat, completion: nat)

  /** The call a side is in the middle of. */
  datatype DriverCall = DriverIdle | Publishing(stores: nat) | Reaping
  datatype DeviceCall =
    | DeviceIdle
    | Seen
    | Walking(handle: nat, capacity: nat, walk: Walk, count: nat)
    | Completing(head: u16)

  /** The private tables of both sides, and the history of the two rings. */
  datatype Ledger = Ledger(
    driver: State, device: State, preparing: Option<nat>,
    published: seq<Publication>, taken: nat,
    completed: seq<Completion>, reaped: nat,
    delivered: seq<Delivery>, phase: map<nat, Phase>)

  datatype System = System(memory: Memory, b: Ledger, driving: DriverCall, serving: DeviceCall, faulted: bool)

  datatype Step =
    | Publish(handle: nat, chain: Chain)
    | StoreNext
    | LookUsed
    | ReadUsed
    | Release(head: nat)
    | ArmDriver
    | Touch(at: int, bytes: seq<byte>)
    | LookAvailable
    | ReadEntry(handle: nat, capacity: nat)
    | ReadDescriptor
    | GiveBack(head: nat)
    | MoveTo(head: nat, handle: nat, capacity: nat)
    | Append(head: nat, bytes: seq<byte>)
    | StoreUsed(head: nat)
    | StoreUsedIndex
    | ArmDevice

  function Load16(m: Memory, a: int): u16 {
    FieldCanonical(ReadMem(m, a, 2));
    Value(ReadMem(m, a, 2))
  }

  function UsedEntry(head: nat, length: nat): seq<byte> {
    Le(head, 4) + Le(length, 4)
  }

  // ------------------------------------------------------------- driver steps

  /** Validation and ownership. */
  ghost function DoPublish(l: Lane, s: System, handle: nat, chain: Chain): System
    requires l.Valid()
  {
    if s.driving.DriverIdle? && chain.state.Free? && !HandleHeld(s.b.driver.slots, handle)
       && s.b.driver.owned < l.Queue().maxOutstanding
       && Admissible(l, s.b.driver.slots, s.b.driver.owner, chain.wire, chain.capacity)
    then s.(b := Begin(l, s.b, handle, chain.wire, chain.capacity), driving := Publishing(0)) else s
  }

  ghost function Begin(l: Lane, b: Ledger, handle: nat, w: Wire, capacity: nat): Ledger
    requires l.Valid() && ValidWire(l, w) && w.head < |b.driver.slots|
  {
    LaneQueueOk(l);
    b.(driver := Claim(b.driver, handle, Prepared(w, capacity, Submitted)),
       preparing := Some(w.head), phase := b.phase[w.head as nat := Preparing])
  }

  /** One store of the running publication; the last one is the index. */
  ghost function DoStoreNext(l: Lane, s: System): System
    requires l.index < |l.queues| && l.Queue().size > 0
  {
    if !s.driving.Publishing? || s.b.preparing.None? || s.b.preparing.value >= |s.b.driver.slots|
       || !s.b.driver.slots[s.b.preparing.value].Held? then s
    else
      var k, slot := s.driving.stores, s.b.driver.slots[s.b.preparing.value];
      if k > RecordCount(slot.chain.wire) + 1 then s else
      var store := PublishStore(l.Queue(), slot.chain.wire, s.b.driver.produced, k);
      var m := WriteMem(s.memory, store.at, store.bytes);
      if k <= RecordCount(slot.chain.wire) then s.(memory := m, driving := Publishing(k + 1))
      else s.(memory := m, driving := DriverIdle,
              b := Announce(s.b, s.b.preparing.value, Gather(m, slot.chain.wire.segments, false)))
  }

  ghost function Announce(b: Ledger, h: nat, request: seq<byte>): Ledger
    requires h < |b.driver.slots| && b.driver.slots[h].Held?
  {
    b.(driver := b.driver.(produced := Next16(b.driver.produced)), preparing := None,
       published := b.published + [Publication(b.driver.slots[h].handle, b.driver.slots[h].chain.wire, request)],
       phase := b.phase[h := Queued(|b.published|)])
  }

  ghost function DoLookUsed(l: Lane, s: System): System
    requires l.index < |l.queues|
  {
    if !s.driving.DriverIdle? then s else
    match Pending(l.Queue(), Driver, s.b.driver, Load16(s.memory, UsedIndex(l.Queue())))
    case Ok => s.(driving := Reaping)
    case NothingPending => s
    case _ => s.(faulted := true)
  }

  ghost function DoReadUsed(l: Lane, s: System): System
    requires l.index < |l.queues| && l.Queue().size > 0
  {
    if !s.driving.Reaping? then s else
    var bytes := ReadMem(s.memory, UsedSlot(l.Queue(), s.b.driver.consumed), 8);
    var head, length := Value(bytes[..4]), Value(bytes[4..]);
    if !UsedFits(s.b.driver, head, length) then s.(faulted := true)
    else s.(b := Collect(s.b, head, length), driving := DriverIdle)
  }

  ghost function Collect(b: Ledger, h: nat, length: nat): Ledger
    requires UsedFits(b.driver, h, length)
  {
    b.(driver := Reap(b.driver, h, length), reaped := b.reaped + 1,
       delivered := b.delivered + [Delivery(b.driver.slots[h].handle, length)],
       phase := if h in b.phase && b.phase[h].Answered?
                then b.phase[h := Back(b.phase[h].publication, b.phase[h].completion)] else b.phase)
  }

  ghost function DoRelease(s: System, h: nat): System {
    if s.driving.DriverIdle? && h < |s.b.driver.slots| && s.b.driver.slots[h].Held?
       && s.b.driver.slots[h].chain.state.Returned? && s.b.driver.owned > 0
    then s.(b := s.b.(driver := Drop(s.b.driver, h), phase := s.b.phase - {h})) else s
  }

  /** The address is in no ring of the lane and in no range of a chain the driver holds. */
  ghost predicate Outside(l: Lane, b: Ledger, x: int)
    requires l.index < |l.queues|
  {
    && OffRings(l.Queue(), x)
    && forall h :: 0 <= h < |b.driver.slots| && b.driver.slots[h].Held? ==> OffChain(b.driver.slots[h].chain.wire, x)
  }

  ghost predicate OffChain(w: Wire, x: int) {
    !InTable(w, x) && !OnSegment(w.segments, false, x) && !OnSegment(w.segments, true, x)
  }

  /** The driver's application, or another lane, writes memory that no owned chain covers. */
  ghost function DoTouch(l: Lane, s: System, at: int, bytes: seq<byte>): System
    requires l.index < |l.queues|
  {
    if forall x :: In(x, at, |bytes|) ==> Outside(l, s.b, x) then s.(memory := WriteMem(s.memory, at, bytes)) else s
  }

  // ------------------------------------------------------------- device steps

  ghost function DoLookAvailable(l: Lane, s: System): System
    requires l.index < |l.queues|
  {
    if !s.serving.DeviceIdle? then s else
    var index := Load16(s.memory, AvailableIndex(l.Queue()));
    match Pending(l.Queue(), Device, s.b.device, index)
    case NothingPending => s
    case Ok =>
      if s.b.device.owned + Minus16(index, s.b.device.consumed) > l.Queue().maxOutstanding then s.(faulted := true)
      else s.(serving := Seen)
    case _ => s.(faulted := true)
  }

  ghost function DoReadEntry(l: Lane, s: System, handle: nat, capacity: nat): System
    requires l.index < |l.queues| && l.Queue().size > 0
  {
    if !s.serving.Seen? || HandleHeld(s.b.device.slots, handle) || capacity < l.Queue().maxChain then s else
    var head := Load16(s.memory, AvailableSlot(l.Queue(), s.b.device.consumed));
    if head < |s.b.device.slots| && head < |s.b.device.owner| && s.b.device.slots[head].Empty? && s.b.device.owner[head] == 0
    then s.(serving := Walking(handle, capacity, Start(head), 0)) else s.(faulted := true)
  }

  ghost function DoReadDescriptor(l: Lane, s: System): System
    requires l.Valid()
  {
    if !s.serving.Walking? then s else
    if !s.serving.walk.Reading? || !MayRead(l.Queue(), s.serving.walk) then s.(faulted := true) else
    var walk := s.serving.walk;
    Continue(l, s, WalkStep(l, walk, ReadMem(s.memory, TableBase(l.Queue(), walk) + walk.index * DESC_SIZE, DESC_SIZE)))
  }

  /** What the device does once the walk has moved on to `next`. */
  ghost function Continue(l: Lane, s: System, next: Walk): System
    requires l.Valid() && s.serving.Walking?
  {
    match next
    case Broken => s.(faulted := true)
    case Reading(_, _, _, _, _, _, _, _) => s.(serving := s.serving.(walk := next, count := s.serving.count + 1))
    case Finished(w) =>
      if !Admissible(l, s.b.device.slots, s.b.device.owner, w, s.serving.capacity) then s.(faulted := true)
      else s.(b := Take(l, s.b, s.serving.handle, w, s.serving.capacity), serving := DeviceIdle)
  }

  ghost function Take(l: Lane, b: Ledger, handle: nat, w: Wire, capacity: nat): Ledger
    requires l.Valid() && ValidWire(l, w) && w.head < |b.device.slots|
  {
    LaneQueueOk(l);
    b.(device := Claim(b.device, handle, Prepared(w, capacity, Accepted)).(
                   consumed := Next16(b.device.consumed), lastTaken := Some(handle)),
       taken := b.taken + 1, phase := b.phase[w.head as nat := Serving(b.taken, [])])
  }

  ghost predicate Accepts(s: System, h: nat) {
    && s.serving.DeviceIdle? && h < |s.b.device.slots| && s.b.device.slots[h].Held? && h < U16
    && s.b.device.slots[h].chain.state.Accepted?
  }

  ghost function DoGiveBack(s: System, h: nat): System {
    if Accepts(s, h) && MayReturn(Device, s.b.device, s.b.device.slots[h].handle, h) && s.b.device.owned > 0 && s.b.taken > 0
    then s.(b := GiveUp(s.b, h)) else s
  }

  ghost function GiveUp(b: Ledger, h: nat): Ledger
    requires h < |b.device.slots| && b.device.slots[h].Held? && b.device.owned > 0 && b.taken > 0
  {
    b.(device := Drop(b.device, h).(consumed := Previous16(b.device.consumed)), taken := b.taken - 1,
       phase := b.phase[h := Queued(b.taken - 1)])
  }

  ghost function DoMoveTo(s: System, h: nat, handle: nat, capacity: nat): System {
    if Accepts(s, h) && !HandleHeld(s.b.device.slots, handle) && capacity >= |s.b.device.slots[h].chain.wire.segments|
    then s.(b := s.b.(device := Move(s.b.device, h, handle, capacity))) else s
  }

  ghost function DoAppend(s: System, h: nat, bytes: seq<byte>): System {
    if !Accepts(s, h) || !MayWrite(s.b.device.slots[h].chain, bytes) then s
    else
      var c := s.b.device.slots[h].chain;
      if c.written + |bytes| > Total(c.wire.segments, true) then s
      else s.(memory := Scatter(s.memory, c.wire.segments, true, c.written, bytes), b := Grow(s.b, h, bytes))
  }

  ghost function Grow(b: Ledger, h: nat, bytes: seq<byte>): Ledger
    requires h < |b.device.slots| && b.device.slots[h].Held?
  {
    b.(device := Write(b.device, h, |bytes|),
       phase := if h in b.phase && b.phase[h].Serving?
                then b.phase[h := Serving(b.phase[h].publication, b.phase[h].response + bytes)] else b.phase)
  }

  ghost function DoStoreUsed(l: Lane, s: System, h: nat): System
    requires l.index < |l.queues| && l.Queue().size > 0
  {
    if !Accepts(s, h) then s
    else s.(memory := WriteMem(s.memory, UsedSlot(l.Queue(), s.b.device.produced), UsedEntry(h, s.b.device.slots[h].chain.written)),
            serving := Completing(h))
  }

  ghost function DoStoreUsedIndex(l: Lane, s: System): System
    requires l.index < |l.queues|
  {
    if s.serving.Completing? && s.serving.head < |s.b.device.slots| && s.b.device.slots[s.serving.head].Held?
       && s.b.device.owned > 0 && s.serving.head as nat in s.b.phase && s.b.phase[s.serving.head as nat].Serving?
    then s.(memory := WriteMem(s.memory, UsedIndex(l.Queue()), Le(Next16(s.b.device.produced), 2)),
            b := Finish(s.b, s.serving.head), serving := DeviceIdle)
    else s
  }

  ghost function Finish(b: Ledger, h: u16): Ledger
    requires h < |b.device.slots| && b.device.slots[h].Held? && b.device.owned > 0
    requires h as nat in b.phase && b.phase[h as nat].Serving?
  {
    b.(device := Drop(b.device.(produced := Next16(b.device.produced)), h),
       completed := b.completed + [Completion(b.phase[h as nat].publication, h, b.phase[h as nat].response)],
       phase := b.phase[h as nat := Answered(b.phase[h as nat].publication, |b.completed|)])
  }

  /** One step of one side; a step that its caller may not take changes nothing. */
  ghost function Next(l: Lane, s: System, step: Step): System
    requires l.Valid() && l.Queue().size > 0
  {
    if s.faulted then s else
    match step
    case Publish(handle, chain) => DoPublish(l, s, handle, chain)
    case StoreNext => DoStoreNext(l, s)
    case LookUsed => DoLookUsed(l, s)
    case ReadUsed => DoReadUsed(l, s)
    case Release(h) => DoRelease(s, h)
    case ArmDriver => s.(memory := WriteMem(s.memory, UsedEvent(l.Queue()), Le(s.b.driver.consumed, 2)))
    case Touch(at, bytes) => DoTouch(l, s, at, bytes)
    case LookAvailable => DoLookAvailable(l, s)
    case ReadEntry(handle, capacity) => DoReadEntry(l, s, handle, capacity)
    case ReadDescriptor => DoReadDescriptor(l, s)
    case GiveBack(h) => DoGiveBack(s, h)
    case MoveTo(h, handle, capacity) => DoMoveTo(s, h, handle, capacity)
    case Append(h, bytes) => DoAppend(s, h, bytes)
    case StoreUsed(h) => DoStoreUsed(l, s, h)
    case StoreUsedIndex => DoStoreUsedIndex(l, s)
    case ArmDevice => s.(memory := WriteMem(s.memory, AvailableEvent(l.Queue()), Le(s.b.device.consumed, 2)))
  }

  ghost function Run(l: Lane, s: System, steps: seq<Step>): System
    requires l.Valid() && l.Queue().size > 0
  {
    if steps == [] then s else Next(l, Run(l, s, steps[..|steps| - 1]), steps[|steps| - 1])
  }

  /** Two freshly bound endpoints over memory whose two index words are zero. */
  ghost predicate Initial(l: Lane, s: System)
    requires l.index < |l.queues|
  {
    && Holds(s.memory, AvailableIndex(l.Queue()), Le(0, 2)) && Holds(s.memory, UsedIndex(l.Queue()), Le(0, 2))
    && s.b == Ledger(Fresh(l.Queue().size), Fresh(l.Queue().size), None, [], 0, [], 0, [], map[])
    && s.driving.DriverIdle? && s.serving.DeviceIdle? && !s.faulted
  }
}
