/** The queue engine of one endpoint. Shared memory belongs to the peer as much as to this
    side, so whatever an access returned is an argument of the call; the stores the call
    makes are its result. The endpoint keeps `Valid()` whatever those answers are.
 */
module Virtqueue {
  import opened Bytes
  import opened Channel
  import opened Chains
  import opened Descriptors
  import opened Endpoint
  import opened ScatterGather

  /** What the accesses of one call return: the k-th one reads `n` bytes at `a`. */
  type Reads = (nat, int, nat) -> Option<seq<byte>>

  function Answer(io: Reads, k: nat, a: int, n: nat): (r: Option<seq<byte>>)
    ensures r.Some? ==> |r.value| == n
  {
    match io(k, a, n)
    case Some(bytes) => if |bytes| == n then Some(bytes) else None
    case None => None
  }

  function Index(bytes: seq<byte>): u16
    requires |bytes| == 2
  {
    FieldCanonical(bytes);
    Value(bytes)
  }

  function PendingAnswer(q: Queue, side: Side, e: State, answer: Option<seq<byte>>): Status
    requires answer.Some? ==> |answer.value| == 2
  {
    match answer case None => Io case Some(bytes) => Pending(q, side, e, Index(bytes))
  }

  /** The first two accesses of take_available: the index word, then the next ring entry. */
  function HeadStatus(q: Queue, side: Side, e: State, io: Reads): Status
    requires q.size > 0
  {
    var index := Answer(io, 0, AvailableIndex(q), 2);
    var pending := PendingAnswer(q, side, e, index);
    if !pending.Ok? then pending
    else if e.owned + Minus16(Index(index.value), e.consumed) > q.maxOutstanding then Faulted
    else if Answer(io, 1, AvailableSlot(q, e.consumed), 2).None? then Io
    else
      var head := NextHead(q, e, io);
      if head < |e.slots| && head < |e.owner| && e.slots[head].Empty? && e.owner[head] == 0 then Ok else Faulted
  }

  function NextHead(q: Queue, e: State, io: Reads): u16
    requires q.size > 0
  {
    match Answer(io, 1, AvailableSlot(q, e.consumed), 2)
    case Some(bytes) => Index(bytes)
    case None => 0
  }

  /** The peer's index, ring entry and descriptors make an admissible chain. */
  ghost predicate TakeOk(l: Lane, side: Side, e: State, io: Reads, capacity: nat)
    requires l.index < |l.queues| && l.Queue().size > 0
  {
    && HeadStatus(l.Queue(), side, e, io).Ok?
    && TakeWalk(l, e, io).Walked? && TakeWalk(l, e, io).walk.Finished?
    && Admissible(l, e.slots, e.owner, TakeWalk(l, e, io).walk.wire, capacity)
  }

  ghost function TakeWalk(l: Lane, e: State, io: Reads): WalkResult
    requires l.index < |l.queues| && l.Queue().size > 0
  {
    WalkFrom(l, io, 2, Start(NextHead(l.Queue(), e, io)))
  }

  ghost function TakeWire(l: Lane, e: State, io: Reads): Wire
    requires l.index < |l.queues| && l.Queue().size > 0
    requires TakeWalk(l, e, io).Walked? && TakeWalk(l, e, io).walk.Finished?
  {
    TakeWalk(l, e, io).walk.wire
  }

  /** What the index and the next used entry tell the driver. */
  function UsedStatus(q: Queue, e: State, io: Reads): Status
    requires q.size > 0
  {
    var pending := PendingAnswer(q, Driver, e, Answer(io, 0, UsedIndex(q), 2));
    if !pending.Ok? then pending
    else if Answer(io, 1, UsedSlot(q, e.consumed), 8).None? then Io
    else if UsedFits(e, UsedHead(q, e, io), UsedLength(q, e, io)) then Ok else Faulted
  }

  function UsedHead(q: Queue, e: State, io: Reads): nat
    requires q.size > 0
  {
    match Answer(io, 1, UsedSlot(q, e.consumed), 8) case Some(bytes) => Value(bytes[..4]) case None => 0
  }

  function UsedLength(q: Queue, e: State, io: Reads): nat
    requires q.size > 0
  {
    match Answer(io, 1, UsedSlot(q, e.consumed), 8) case Some(bytes) => Value(bytes[4..]) case None => 0
  }

  datatype WalkResult = Walked(walk: Walk) | IoError

  /** The whole descriptor walk, from the k-th access on. */
  ghost function WalkFrom(l: Lane, io: Reads, k: nat, walk: Walk): WalkResult
    requires l.index < |l.queues| && walk.Reading?
    decreases l.Queue().maxChain as int - |walk.segments|, if walk.inTable then 0 else 1
  {
    if !MayRead(l.Queue(), walk) then Walked(Broken) else
    match Answer(io, k, TableBase(l.Queue(), walk) + walk.index * DESC_SIZE, DESC_SIZE)
    case None => IoError
    case Some(bytes) =>
      var next := WalkStep(l, walk, bytes);
      if next.Reading? then WalkFrom(l, io, k + 1, next) else Walked(next)
  }

  /** `notify` is the suppression decision for the event index that access `k` returned. */
  predicate Notified(io: Reads, k: nat, event: int, before: u16, notify: bool) {
    && Answer(io, k, event, 2).Some?
    && notify == MustNotify(before, Next16(before), Index(Answer(io, k, event, 2).value))
  }

  /** One turn of the descriptor walk. */
  method StepWalk(l: Lane, walk: Walk, bytes: seq<byte>) returns (next: Walk)
    requires l.Valid() && walk.Reading? && |bytes| == DESC_SIZE
    ensures next == WalkStep(l, walk, bytes)
  {
    var d := Decode(bytes);
    if !KnownFlags(d.flags) { return Broken; }
    var first := if walk.inTable then walk.indirectFirst else 0;
    var i: nat := first;
    while i < |walk.segments|
      invariant first <= i
      invariant forall j :: first <= j < i && j < |walk.segments| ==> walk.segments[j].descriptor != walk.index
    {
      if walk.segments[i].descriptor == walk.index { return Broken; }
      i := i + 1;
    }
    if HasIndirect(d.flags) {
      if walk.inTable || HasNext(d.flags) || d.address % DESC_SIZE != 0 || d.length == 0
         || d.length % DESC_SIZE != 0 || d.length / DESC_SIZE > l.Queue().maxIndirect { return Broken; }
      var allowed := PayloadRange(l, d.address, d.length, RIGHT_READ);
      if !allowed { return Broken; }
      return Reading(walk.head, 0, true, walk.segments, d.address, d.length, walk.index, |walk.segments|);
    }
    var ss := walk.segments + [Segment(d.address, d.length, walk.index, if HasWrite(d.flags) then 1 else 0)];
    if HasNext(d.flags) { return walk.(index := d.next, segments := ss); }
    return Finished(Wire(walk.head, ss, walk.indirect, walk.indirectLength, walk.indirectDescriptor, walk.indirectFirst));
  }

  /** read_chain: walk the peer's descriptors. It stops after at most max_chain_length + 1 of them. */
  method ReadChain(l: Lane, head: u16, io: Reads, k: nat) returns (result: WalkResult, count: nat)
    requires l.Valid()
    ensures result == WalkFrom(l, io, k, Start(head)) && !(result.Walked? && result.walk.Reading?)
    ensures count <= l.Queue().maxChain + 1
  {
    hide ChannelValid;
    var walk := Start(head);
    count := 0;
    while walk.Reading?
      invariant !walk.Reading? ==> WalkFrom(l, io, k, Start(head)) == Walked(walk)
      invariant walk.Reading? ==> count == Progress(walk) && |walk.segments| <= l.Queue().maxChain
      invariant walk.Reading? ==> WalkFrom(l, io, k, Start(head)) == WalkFrom(l, io, k + count, walk)
      invariant count <= l.Queue().maxChain + 1
      decreases if walk.Reading? then 1 else 0, l.Queue().maxChain + 1 - count
    {
      if !MayRead(l.Queue(), walk) { return Walked(Broken), count; }
      match Answer(io, k + count, TableBase(l.Queue(), walk) + walk.index * DESC_SIZE, DESC_SIZE)
      case None => return IoError, count;
      case Some(bytes) =>
        count := count + 1;
        walk := StepWalk(l, walk, bytes);
    }
    return Walked(walk), count;
  }

  /** Everything a publication stores before the index. */
  method StoreChain(q: Queue, w: Wire, produced: u16, stored: nat -> bool) returns (complete: bool, stores: seq<Store>)
    requires q.size > 0
    ensures stores <= PublishStores(q, w, produced)
    ensures if complete then |stores| == RecordCount(w) + 1 else |stores| <= RecordCount(w)
    ensures complete <==> forall k: nat :: k <= RecordCount(w) ==> stored(k)
  {
    stores := [];
    for k := 0 to RecordCount(w) + 1
      invariant |stores| == k && stores == PublishStores(q, w, produced)[..k]
      invariant forall j: nat :: j < k ==> stored(j)
    {
      if !stored(k) { return false, stores; }
      stores := stores + [PublishStore(q, w, produced, k)];
    }
    complete := true;
  }

  /** Append to the response of a valid chain that has room for `bytes`. */
  method StoreResponse(l: Lane, c: Chain, m: Memory, bytes: seq<byte>, ok: nat -> bool) returns (stored: bool, m': Memory)
    requires l.index < |l.queues| && ValidWire(l, c.wire) && c.written + |bytes| <= Total(c.wire.segments, true)
    ensures stored ==> Stored(m, m', c.wire.segments, true, c.written, bytes)
    ensures !stored ==> exists k :: !ok(k)
  {
    ResponseUnaliased(l, c.wire);
    var result;
    ghost var done;
    result, m', done := CopyIn(m, c.wire.segments, true, c.written, bytes, ok);
    assert bytes[..|bytes|] == bytes;
    stored := result.Done?;
  }

  class Virtqueue {
    const lane: Lane
    const side: Side
    const slots: array<Slot>
    const owner: array<u16>
    var owned: nat
    var produced: u16
    var consumed: u16
    var lastTaken: Option<nat>
    var faulted: bool

    ghost function View(): State
      reads this, slots, owner
    {
      State(slots[..], owner[..], owned, produced, consumed, lastTaken)
    }

    ghost predicate Valid()
      reads this, slots, owner
    {
      && lane.Valid() && slots as object != owner && lane.Queue().size > 0
      && slots.Length == owner.Length == lane.Queue().size
      && Consistent(lane, side, View())
    }

    /** The argument is what the caller's chain object contains now. */
    ghost predicate Current(handle: nat, chain: Chain)
      reads this, slots
    {
      forall h :: 0 <= h < slots.Length && slots[h].Held? && slots[h].handle == handle ==> slots[h].chain == chain
    }

    /** A call for this generation on the right side of a channel that has not failed. */
    predicate Serving(generation: u64, wanted: Side)
      reads this`faulted
    {
      generation == lane.identity.generation && !faulted && side == wanted
    }

    method Check(generation: u64) returns (status: Status)
      ensures status == if generation == 0 then Invalid
                        else if lane.identity.generation != generation then Stale
                        else if faulted then Faulted else Ok
    {
      if generation == 0 { return Invalid; }
      if lane.identity.generation != generation { return Stale; }
      return if faulted then Faulted else Ok;
    }

    predicate Owned(handle: nat, head: u16, state: ChainState)
      reads this, slots
    {
      head < slots.Length && slots[head].Held? && slots[head].handle == handle && slots[head].chain.state == state
    }

    method ClaimChain(handle: nat, chain: Chain)
      requires Valid() && MayClaim(lane, side, View(), handle, chain)
      modifies this`owned, slots, owner
      ensures chain.wire.head + 1 < U16 && View() == Claim(old(View()), handle, chain)
      ensures Valid()
    {
      ghost var e := View();
      BeforeClaim(e, handle, chain);
      slots[chain.wire.head] := Held(handle, chain);
      owned := owned + 1;
      MarkOwner(owner, chain.wire, chain.wire.head + 1);
      assert View() == Claim(e, handle, chain);
    }

    lemma BeforeClaim(e: State, handle: nat, chain: Chain)
      requires lane.Valid() && Consistent(lane, side, e) && MayClaim(lane, side, e, handle, chain)
      ensures chain.wire.head < lane.Queue().size && chain.wire.head + 1 < U16
      ensures InRange(chain.wire, lane.Queue().size)
      ensures Consistent(lane, side, Claim(e, handle, chain))
    {
      LaneQueueOk(lane);
      UsedInRange(lane, chain.wire);
      ClaimKeeps(lane, side, e, handle, chain);
    }

    method DropChain(h: nat)
      requires Valid() && h < slots.Length && slots[h].Held?
      modifies this`owned, this`lastTaken, slots, owner
      ensures old(owned) > 0 && View() == Drop(old(View()), h)
      ensures Valid()
    {
      hide Consistent, ValidWire, Mark;
      DropKeeps(lane, side, View(), h);
      HeldSlot(lane, side, View(), h);
      UsedInRange(lane, slots[h].chain.wire);
      MarkOwner(owner, slots[h].chain.wire, 0);
      if lastTaken == Some(slots[h].handle) { lastTaken := None; }
      slots[h] := Empty;
      owned := owned - 1;
    }

    // ------------------------------------------------------------- driver

    /** What publish decides before it touches anything. */
    ghost function Admission(e: State, generation: u64, chain: Chain): Status
      requires lane.index < |lane.queues|
      reads this`faulted
    {
      if generation == 0 then Invalid
      else if lane.identity.generation != generation then Stale
      else if faulted then Faulted
      else if !side.Driver? || !chain.state.Free? then Invalid
      else if e.owned == lane.Queue().maxOutstanding then Full
      else if !Admissible(lane, e.slots, e.owner, chain.wire, chain.capacity) then Invalid
      else Ok
    }

    /** Validation and ownership: the part of publish that stores nothing. */
    method Admit(generation: u64, handle: nat, chain: Chain) returns (status: Status)
      requires Valid() && Current(handle, chain)
      modifies this`owned, slots, owner
      ensures Valid() && status == old(Admission(View(), generation, chain))
      ensures !status.Ok? ==> View() == old(View())
      ensures status.Ok? ==> chain.wire.head + 1 < U16
      ensures status.Ok? ==> View() == Claim(old(View()), handle, Prepared(chain.wire, chain.capacity, Submitted))
    {
      status := Check(generation);
      if !status.Ok? { return; }
      if !side.Driver? || !chain.state.Free? { return Invalid; }
      if owned == lane.Queue().maxOutstanding { return Full; }
      ghost var e := View();
      var ok, readable, writable := Validate(e, chain.wire, chain.capacity);
      if !ok { return Invalid; }
      FreeNotHeld(handle, chain);
      AdmittedMayClaim(lane, side, e, handle, chain.wire, chain.capacity, Submitted);
      ClaimChain(handle, Chain(chain.wire, chain.capacity, readable, writable, 0, 0, Submitted));
    }

    method Validate(ghost e: State, w: Wire, capacity: nat) returns (ok: bool, readable: nat, writable: nat)
      requires Valid() && e == View()
      ensures ok <==> Admissible(lane, e.slots, e.owner, w, capacity)
      ensures ok ==> readable == Total(w.segments, false) && writable == Total(w.segments, true)
    {
      forall h | 0 <= h < slots.Length && slots[..][h].Held? ensures ValidWire(lane, slots[..][h].chain.wire) {
        assert SlotOk(lane, side, h, e.slots[h]);
      }
      ok, readable, writable := ValidateChain(lane, slots[..], owner[..], w, capacity);
    }

    lemma FreeNotHeld(handle: nat, chain: Chain)
      requires Valid() && Current(handle, chain) && chain.state.Free?
      ensures !HandleHeld(slots[..], handle)
    {
      forall h | 0 <= h < slots.Length && slots[h].Held? ensures slots[h].handle != handle {
        assert SlotOk(lane, side, h, View().slots[h]);
      }
    }

    /** Store the new index, then read the peer's event index behind a full fence. */
    method PublishIndex(ring: int, event: int, stored: bool, io: Reads, k: nat)
      returns (status: Status, notify: bool, stores: seq<Store>)
      requires Valid()
      modifies this`produced, this`faulted
      ensures Valid() && stores <= [Store(ring, Le(Next16(old(produced)), 2))]
      ensures View() == old(View()).(produced := if stores == [] then old(produced) else Next16(old(produced)))
      ensures status.Ok? || (status.Io? && faulted)
      ensures status.Ok? <==> stored && Answer(io, k, event, 2).Some?
      ensures status.Ok? ==> faulted == old(faulted) && stores != []
      ensures status.Ok? ==> Notified(io, k, event, old(produced), notify)
    {
      notify, stores := false, [];
      if !stored {
        faulted := true;
        return Io, notify, stores;
      }
      var before := produced;
      stores := [Store(ring, Le(Next16(before), 2))];
      produced := Next16(before);
      match Answer(io, k, event, 2)
      case None =>
        faulted := true;
        return Io, notify, stores;
      case Some(bytes) =>
        notify := MustNotify(before, produced, Index(bytes));
        return Ok, notify, stores;
    }

    method Publish(generation: u64, handle: nat, chain: Chain, stored: nat -> bool, io: Reads)
      returns (status: Status, notify: bool, stores: seq<Store>)
      requires Valid() && Current(handle, chain)
      modifies this`owned, this`produced, this`faulted, slots, owner
      ensures Valid()
      ensures !old(Admission(View(), generation, chain)).Ok? ==>
          View() == old(View()) && stores == [] && status == old(Admission(View(), generation, chain))
      ensures old(Admission(View(), generation, chain)).Ok? ==> chain.wire.head + 1 < U16 && (status.Ok? || status.Io?)
      ensures status.Ok? || status.Io? ==> old(Admission(View(), generation, chain)).Ok?
      ensures status.Ok? || status.Io? ==> stores <= PublishStores(lane.Queue(), chain.wire, old(produced))
      ensures status.Ok? || status.Io? ==>
          View() == Claim(old(View()), handle, Prepared(chain.wire, chain.capacity, Submitted)).(produced :=
              if |stores| == RecordCount(chain.wire) + 2 then Next16(old(produced)) else old(produced))
      ensures status.Ok? ==> stores == PublishStores(lane.Queue(), chain.wire, old(produced)) && !faulted
      ensures status.Io? ==> faulted
      ensures status.Ok? ==>
          Notified(io, RecordCount(chain.wire) + 2, AvailableEvent(lane.Queue()), old(produced), notify)
      ensures (old(Admission(View(), generation, chain)).Ok? && (forall k: nat :: k <= RecordCount(chain.wire) + 1 ==> stored(k))
               && Answer(io, RecordCount(chain.wire) + 2, AvailableEvent(lane.Queue()), 2).Some?) ==> status.Ok?
    {
      hide Consistent, Claim, MustNotify, Admissible;
      notify, stores := false, [];
      status := Admit(generation, handle, chain);
      if !status.Ok? { return; }
      var q := lane.Queue();
      LaneQueueOk(lane);
      var complete;
      complete, stores := StoreChain(q, chain.wire, produced, stored);
      if !complete {
        faulted := true;
        return Io, notify, stores;
      }
      var last;
      status, notify, last := PublishIndex(AvailableIndex(q), AvailableEvent(q), stored(|stores|), io, |stores| + 1);
      stores := stores + last;
    }

    // ------------------------------------------------------------- device

    /** The load of the peer's index and what follows from it. */
    method PendingIndex(ring: int, io: Reads, k: nat) returns (status: Status, index: u16)
      requires lane.Valid()
      modifies this`faulted
      ensures status == PendingAnswer(lane.Queue(), side, View(), Answer(io, k, ring, 2))
      ensures faulted == (old(faulted) || status.Faulted? || status.Io?)
      ensures !status.Io? ==> index == Index(Answer(io, k, ring, 2).value)
    {
      index := 0;
      match Answer(io, k, ring, 2)
      case None =>
        faulted := true;
        return Io, index;
      case Some(bytes) =>
        index := Index(bytes);
        var distance := Minus16(index, consumed);
        if distance > lane.Queue().maxOutstanding || (side.Driver? && distance > Minus16(produced, consumed)) {
          faulted := true;
          return Faulted, index;
        }
        return if distance == 0 then NothingPending else Ok, index;
    }

    /** The checks and reads of take_available up to the head of the next chain. */
    method TakeHead(io: Reads) returns (status: Status, head: u16)
      requires Valid()
      modifies this`faulted
      ensures faulted == (old(faulted) || status.Faulted? || status.Io?)
      ensures status == HeadStatus(lane.Queue(), side, View(), io)
      ensures status.Ok? ==> head == NextHead(lane.Queue(), View(), io) && owned < lane.Queue().maxOutstanding
    {
      var q := lane.Queue();
      LaneQueueOk(lane);
      head := 0;
      var index;
      status, index := PendingIndex(AvailableIndex(q), io, 0);
      if !status.Ok? { return; }
      if owned + Minus16(index, consumed) > q.maxOutstanding {
        faulted := true;
        return Faulted, head;
      }
      match Answer(io, 1, AvailableSlot(q, consumed), 2)
      case None =>
        faulted := true;
        return Io, head;
      case Some(bytes) =>
        head := Index(bytes);
        if head >= q.size || slots[head].Held? || owner[head] != 0 {
          faulted := true;
          return Faulted, head;
        }
    }

    /** Read, check and own the next available chain. Whatever was read, only a valid chain
        that conflicts with nothing owned gets in, and a refusal changes no table. */
    method TakeAvailable(generation: u64, handle: nat, chain: Chain, io: Reads)
      returns (status: Status, taken: Chain)
      requires Valid() && Current(handle, chain)
      modifies this`owned, this`consumed, this`lastTaken, this`faulted, slots, owner
      ensures Valid()
      ensures !status.Ok? ==> View() == old(View())
      ensures status.Ok? <==> (old(Serving(generation, Device))
                               && chain.state.Free? && chain.capacity >= lane.Queue().maxChain
                               && TakeOk(lane, side, old(View()), io, chain.capacity))
      ensures status.Ok? ==> taken.wire == TakeWire(lane, old(View()), io)
      ensures status.Ok? ==> taken == Prepared(taken.wire, chain.capacity, Accepted) && taken.wire.head + 1 < U16
      ensures status.Ok? ==> View() == Claim(old(View()), handle, taken).(
          consumed := Next16(old(consumed)), lastTaken := Some(handle))
      ensures faulted == (old(faulted) || status.Faulted? || status.Io?)
    {
      hide ValidWire, WalkFrom, Admissible, HeadStatus;
      taken := chain;
      status := Check(generation);
      if !status.Ok? { return; }
      if !side.Device? || !chain.state.Free? || chain.capacity < lane.Queue().maxChain { return Invalid, taken; }
      var head;
      status, head := TakeHead(io);
      if !status.Ok? { return; }
      var result, count := ReadChain(lane, head, io, 2);
      match result
      case IoError =>
        faulted := true;
        return Io, taken;
      case Walked(walk) =>
        if walk.Broken? {
          faulted := true;
          return Faulted, taken;
        }
        ghost var e := View();
        var ok, readable, writable := Validate(e, walk.wire, chain.capacity);
        if !ok {
          faulted := true;
          return Faulted, taken;
        }
        FreeNotHeld(handle, chain);
        AdmittedMayClaim(lane, side, e, handle, walk.wire, chain.capacity, Accepted);
        taken := Chain(walk.wire, chain.capacity, readable, writable, 0, 0, Accepted);
        ClaimChain(handle, taken);
        assert View().slots[walk.wire.head].Held? && View().slots[walk.wire.head].handle == handle;
        consumed := Next16(consumed);
        lastTaken := Some(handle);
    }

    method MoveAccepted(generation: u64, source: nat, head: u16, destination: nat, target: Chain)
      returns (status: Status)
      requires Valid() && Current(destination, target)
      modifies this`lastTaken, slots
      ensures Valid()
      ensures !status.Ok? ==> View() == old(View())
      ensures status.Ok? ==> old(Owned(source, head, Accepted)) && View() == Move(old(View()), head, destination, target.capacity)
      ensures status.Ok? <==> (Serving(generation, Device) && old(Owned(source, head, Accepted)) && destination != source && target.state.Free?
                               && target.capacity >= |old(slots[head]).chain.wire.segments|)
    {
      status := Check(generation);
      if !status.Ok? { return; }
      if !side.Device? || !Owned(source, head, Accepted) || destination == source || !target.state.Free?
         || target.capacity < |slots[head].chain.wire.segments| { return Invalid; }
      ghost var e := View();
      FreeNotHeld(destination, target);
      MoveKeeps(lane, side, e, head, destination, target.capacity);
      if lastTaken == Some(source) { lastTaken := Some(destination); }
      slots[head] := Held(destination, slots[head].chain.(capacity := target.capacity));
      assert View() == Move(e, head, destination, target.capacity);
    }

    /** Give back the chain taken last: its available entry becomes unread again. */
    method ReturnAvailable(generation: u64, handle: nat, head: u16) returns (status: Status)
      requires Valid()
      modifies this`owned, this`consumed, this`lastTaken, slots, owner
      ensures Valid()
      ensures !status.Ok? ==> View() == old(View())
      ensures status.Ok? <==> (Serving(generation, Device) && MayReturn(side, old(View()), handle, head))
      ensures status.Ok? ==> old(owned) > 0 && View() == Drop(old(View()), head).(consumed := Previous16(old(consumed)))
    {
      hide Mark;
      status := Check(generation);
      if !status.Ok? { return; }
      if !side.Device? || !Owned(handle, head, Accepted) || lastTaken != Some(handle) || slots[head].chain.written != 0 {
        return Invalid;
      }
      DropChain(head);
      consumed := Previous16(consumed);
    }

    /** Hand a chain back: used entry, index, and only then is ownership dropped. */
    method Complete(generation: u64, handle: nat, head: u16, stored: nat -> bool, io: Reads)
      returns (status: Status, notify: bool, stores: seq<Store>)
      requires Valid()
      modifies this`owned, this`produced, this`lastTaken, this`faulted, slots, owner
      ensures Valid()
      ensures status.Ok? || status.Io? <==> (old(Serving(generation, Device)) && old(Owned(handle, head, Accepted)))
      ensures !status.Ok? && !status.Io? ==> View() == old(View()) && stores == []
      ensures status.Ok? || status.Io? ==>
          stores <= CompleteStores(lane.Queue(), head, old(slots[head].chain.written), old(produced))
      ensures status.Ok? ==> stored(0) && stored(1) && |stores| == 2 && old(owned) > 0
      ensures stored(0) && stored(1) && Answer(io, 2, UsedEvent(lane.Queue()), 2).Some? ==> !status.Io?
      ensures status.Ok? ==> View() == Drop(old(View()).(produced := Next16(old(produced))), head)
      ensures status.Ok? ==> Notified(io, 2, UsedEvent(lane.Queue()), old(produced), notify) && !faulted
      ensures status.Io? ==> faulted && View() == old(View()).(produced :=
          if |stores| == 2 then Next16(old(produced)) else old(produced))
    {
      notify, stores := false, [];
      status := Check(generation);
      if !status.Ok? { return; }
      if !side.Device? || !Owned(handle, head, Accepted) { return Invalid, notify, stores; }
      var q := lane.Queue();
      if !stored(0) {
        faulted := true;
        return Io, notify, stores;
      }
      var entry := Store(UsedSlot(q, produced), Le(head, 4) + Le(slots[head].chain.written, 4));
      var last;
      status, notify, last := PublishIndex(UsedIndex(q), UsedEvent(q), stored(1), io, 2);
      stores := [entry] + last;
      if status.Ok? { DropChain(head); }
    }

    /** Accept the next used entry: it must name a submitted chain and fit its writable part. */
    method TakeUsed(generation: u64, io: Reads) returns (status: Status, handle: nat)
      requires Valid()
      modifies this`consumed, this`faulted, slots
      ensures Valid()
      ensures !status.Ok? ==> View() == old(View())
      ensures status.Ok? <==> (old(Serving(generation, Driver))
                               && UsedStatus(lane.Queue(), old(View()), io).Ok?)
      ensures old(Serving(generation, Driver)) ==>
          status == UsedStatus(lane.Queue(), old(View()), io)
      ensures status.Ok? ==> View() == Reap(old(View()), UsedHead(lane.Queue(), old(View()), io), UsedLength(lane.Queue(), old(View()), io))
      ensures status.Ok? ==> handle == old(View()).slots[UsedHead(lane.Queue(), old(View()), io)].handle
      ensures faulted == (old(faulted) || status.Faulted? || status.Io?)
    {
      handle := 0;
      status := Check(generation);
      if !status.Ok? { return; }
      if !side.Driver? { return Invalid, handle; }
      var q := lane.Queue();
      var index;
      status, index := PendingIndex(UsedIndex(q), io, 0);
      if !status.Ok? { return; }
      match Answer(io, 1, UsedSlot(q, consumed), 8)
      case None =>
        faulted := true;
        return Io, handle;
      case Some(bytes) =>
        var head, length := Value(bytes[..4]), Value(bytes[4..]);
        if head >= q.size || !slots[head].Held? || !slots[head].chain.state.Submitted?
           || length > slots[head].chain.writable {
          faulted := true;
          return Faulted, handle;
        }
        ghost var e := View();
        ReapKeeps(lane, e, head, length);
        handle := slots[head].handle;
        slots[head] := Held(handle, slots[head].chain.(usedLength := length, state := Returned));
        consumed := Next16(consumed);
        assert View() == Reap(e, head, length);
    }

    method Release(generation: u64, handle: nat, head: u16) returns (status: Status)
      requires Valid()
      modifies this`owned, this`lastTaken, slots, owner
      ensures Valid()
      ensures !status.Ok? ==> View() == old(View())
      ensures status.Ok? <==> (Serving(generation, Driver) && old(Owned(handle, head, Returned)))
      ensures status.Ok? ==> old(owned) > 0 && View() == Drop(old(View()), head)
    {
      status := Check(generation);
      if !status.Ok? { return; }
      if !side.Driver? || !Owned(handle, head, Returned) { return Invalid; }
      DropChain(head);
    }

    /** Before sleeping: publish the event index, fence, look at the ring once more. */
    method Arm(generation: u64, stored: bool, io: Reads) returns (status: Status, ready: bool, stores: seq<Store>)
      requires Valid()
      modifies this`faulted
      ensures Valid() && View() == old(View())
      ensures status.Ok? ==> stores == [Store(EventWord(lane.Queue(), side), Le(consumed, 2))]
      ensures status.Ok? ==> (ready <==> PendingAnswer(lane.Queue(), side, View(), Answer(io, 1, PeerIndex(lane.Queue(), side), 2)).Ok?)
      ensures faulted == (old(faulted) || status.Faulted? || status.Io?)
      ensures status.Ok? <==> (old(Serving(generation, side)) && stored
                               && PendingAnswer(lane.Queue(), side, View(), Answer(io, 1, PeerIndex(lane.Queue(), side), 2))
                                  in {Ok, NothingPending})
    {
      ready, stores := false, [];
      status := Check(generation);
      if !status.Ok? { return; }
      if !stored {
        faulted := true;
        return Io, ready, stores;
      }
      stores := [Store(EventWord(lane.Queue(), side), Le(consumed, 2))];
      var index;
      status, index := PendingIndex(PeerIndex(lane.Queue(), side), io, 1);
      if !status.Ok? && !status.NothingPending? { return; }
      ready := status.Ok?;
      status := Ok;
    }

    // ------------------------------------------------------------ payload

    /** Append to the response. The memory changes exactly at the next virtual positions. */
    method WriteResponse(generation: u64, handle: nat, head: u16, bytes: seq<byte>, m: Memory, ok: nat -> bool)
      returns (status: Status, m': Memory)
      requires Valid()
      modifies this`faulted, slots
      ensures Valid()
      ensures status.Ok? ==> old(Owned(handle, head, Accepted)) && old(MayWrite(slots[head].chain, bytes))
      ensures status.Ok? ==> View() == Write(old(View()), head, |bytes|)
      ensures status.Ok? ==>
          Stored(m, m', old(slots[head].chain.wire.segments), true, old(slots[head].chain.written), bytes)
      ensures !status.Ok? ==> View() == old(View())
      ensures !status.Ok? && !status.Io? ==> m' == m
      ensures old(Serving(generation, Device)) && old(Owned(handle, head, Accepted) && MayWrite(slots[head].chain, bytes)) ==>
          status.Ok? || exists k :: !ok(k)
      ensures faulted == (old(faulted) || status.Faulted? || status.Io?)
    {
      hide ValidWire, Stored;
      m' := m;
      status := Check(generation);
      if !status.Ok? { return; }
      if !side.Device? || !Owned(handle, head, Accepted) || !MayWrite(slots[head].chain, bytes) { return Invalid, m'; }
      ghost var e := View();
      var c := slots[head].chain;
      assert SlotOk(lane, side, head, e.slots[head]);
      var stored;
      stored, m' := StoreResponse(lane, c, m, bytes, ok);
      if !stored {
        faulted := true;
        return Io, m';
      }
      WriteKeeps(lane, e, head, |bytes|);
      slots[head] := Held(handle, c.(written := c.written + |bytes|));
      assert View() == Write(e, head, |bytes|);
    }

    method CopyRequest(generation: u64, handle: nat, head: u16, offset: nat, size: nat, m: Memory, ok: nat -> bool)
      returns (status: Status, bytes: seq<byte>)
      requires Valid()
      modifies this`faulted
      ensures Valid() && View() == old(View())
      ensures status.Ok? ==> Owned(handle, head, Accepted) && offset + size <= slots[head].chain.readable
      ensures status.Ok? ==> bytes == Gather(m, slots[head].chain.wire.segments, false)[offset..offset + size]
      ensures old(Serving(generation, Device)) && Owned(handle, head, Accepted) && offset + size <= slots[head].chain.readable ==>
          status.Ok? || exists k :: !ok(k)
    {
      bytes := [];
      status := Check(generation);
      if !status.Ok? { return; }
      if !side.Device? || !Owned(handle, head, Accepted) || offset > slots[head].chain.readable
         || size > slots[head].chain.readable - offset { return Invalid, bytes; }
      assert SlotOk(lane, side, head, View().slots[head]);
      var result;
      result, bytes := CopyOut(m, slots[head].chain.wire.segments, false, offset, size, ok);
      if !result.Done? {
        faulted := true;
        return Io, bytes;
      }
    }

    method CopyResponse(generation: u64, handle: nat, head: u16, offset: nat, size: nat, m: Memory, ok: nat -> bool)
      returns (status: Status, bytes: seq<byte>)
      requires Valid()
      modifies this`faulted
      ensures Valid() && View() == old(View())
      ensures status.Ok? ==> Owned(handle, head, Returned)
      ensures status.Ok? ==> offset + size <= slots[head].chain.usedLength <= slots[head].chain.writable
      ensures status.Ok? ==> bytes == Gather(m, slots[head].chain.wire.segments, true)[offset..offset + size]
      ensures old(Serving(generation, Driver)) && Owned(handle, head, Returned) && offset + size <= slots[head].chain.usedLength ==>
          status.Ok? || exists k :: !ok(k)
    {
      bytes := [];
      status := Check(generation);
      if !status.Ok? { return; }
      if !side.Driver? || !Owned(handle, head, Returned) || offset > slots[head].chain.usedLength
         || size > slots[head].chain.usedLength - offset { return Invalid, bytes; }
      assert SlotOk(lane, side, head, View().slots[head]);
      var result;
      result, bytes := CopyOut(m, slots[head].chain.wire.segments, true, offset, size, ok);
      if !result.Done? {
        faulted := true;
        return Io, bytes;
      }
    }

    /** Bind a fresh endpoint: its own index must still be zero. */
    constructor (lane: Lane, side: Side)
      requires lane.Valid() && lane.Queue().size > 0
      ensures this.lane == lane && this.side == side && !faulted
      ensures Valid() && fresh(slots) && fresh(owner)
      ensures View() == Fresh(lane.Queue().size)
    {
      this.lane, this.side := lane, side;
      slots := new Slot[lane.Queue().size](_ => Empty);
      owner := new u16[lane.Queue().size](_ => 0);
      owned, produced, consumed, lastTaken := 0, 0, 0, None;
      faulted := false;
      new;
      assert View() == Fresh(lane.Queue().size);
      FreshConsistent(lane, side);
    }
  }

  /** The position of the queue with this id. */
  ghost predicate Names(queues: seq<Queue>, id: u32, i: nat) {
    i < |queues| && queues[i].id == id
  }

  /** What binding decides; `index` is what this side's own index word reads, if it could be read. */
  ghost function Binding(queues: seq<Queue>, id: u32, capacity: nat, faulted: bool, index: Option<u16>): Status {
    if faulted then Faulted
    else if !exists i: nat :: Names(queues, id, i) && capacity >= queues[i].size then Invalid
    else match index case None => Io case Some(v) => if v == 0 then Ok else Faulted
  }

  lemma NamedOnce(identity: Identity, queues: seq<Queue>, regions: seq<Region>, id: u32, i: nat, j: nat)
    requires ChannelValid(identity, queues, regions) && Names(queues, id, i) && Names(queues, id, j)
    ensures i == j && queues[i].size > 0
  {
    assert QueueFits(queues, regions, i) && QueueFits(queues, regions, j);
  }

  /** Bind one side of a queue of an admitted channel: a fresh endpoint, or the reason why not. `breaks` says that the
      channel is faulted from here on. */
  method Bind(identity: Identity, queues: seq<Queue>, regions: seq<Region>, policy: (u32, u64, u64, bv32) -> bool,
              faulted: bool, id: u32, side: Side, capacity: nat, index: Option<u16>)
    returns (status: Status, breaks: bool, vq: Virtqueue?)
    requires ChannelValid(identity, queues, regions)
    ensures status == Binding(queues, id, capacity, faulted, index)
    ensures breaks == (faulted || status.Io? || status.Faulted?)
    ensures vq != null <==> status.Ok?
    ensures vq != null ==> fresh(vq) && vq.Valid() && vq.side == side && !vq.faulted && vq.View() == Fresh(vq.lane.Queue().size)
    ensures vq != null ==> vq.lane == Lane(identity, queues, regions, vq.lane.index, policy) && Names(queues, id, vq.lane.index)
  {
    hide ChannelValid;
    if faulted { return Faulted, true, null; }
    var found: Option<nat> := None;
    for i := 0 to |queues|
      invariant found.Some? ==> Names(queues, id, found.value)
      invariant found.None? ==> forall j: nat :: j < i ==> queues[j].id != id
    {
      if queues[i].id == id { found := Some(i); }
    }
    if found.None? { return Invalid, false, null; }
    var at := found.value;
    forall i: nat | Names(queues, id, i) ensures i == at { NamedOnce(identity, queues, regions, id, i, at); }
    NamedOnce(identity, queues, regions, id, at, at);
    if capacity < queues[at].size { return Invalid, false, null; }
    if index.None? { return Io, true, null; }
    if index.value != 0 { return Faulted, true, null; }
    vq := new Virtqueue(Lane(identity, queues, regions, at, policy), side);
    return Ok, false, vq;
  }

  /** The chain's main descriptors are entries of a table of `n`. */
  ghost predicate InRange(w: Wire, n: nat) {
    && Direct(w) <= |w.segments| && (w.indirectLength != 0 ==> w.indirectDescriptor < n)
    && forall i :: 0 <= i < Direct(w) ==> w.segments[i].descriptor < n
  }

  lemma UsedInRange(l: Lane, w: Wire)
    requires l.index < |l.queues| && ValidWire(l, w)
    ensures InRange(w, l.Queue().size)
  {
    forall i | 0 <= i < Direct(w) ensures w.segments[i].descriptor < l.Queue().size {
      assert SegmentOk(l, w, i);
    }
  }

  method MarkOwner(owner: array<u16>, w: Wire, mark: u16)
    requires InRange(w, owner.Length)
    modifies owner
    ensures owner[..] == Mark(old(owner[..]), w, mark)
  {
    if w.indirectLength != 0 { owner[w.indirectDescriptor] := mark; }
    for i := 0 to Direct(w)
      invariant forall d :: 0 <= d < owner.Length ==> owner[d] == if UsesBefore(w, i, d) then mark else old(owner[d])
    {
      owner[w.segments[i].descriptor] := mark;
    }
  }

  /** Main descriptors met once the reference and the first `n` direct segments are done. */
  predicate UsesBefore(w: Wire, n: nat, d: nat) {
    (w.indirectLength != 0 && d == w.indirectDescriptor)
    || exists i :: 0 <= i < n && i < |w.segments| && w.segments[i].descriptor == d
  }
}
