/** The engine's calls and the steps of the interleaved system: a call whose reads all come from one memory is the run of
    its accesses, one step each. */
module RingCalls {
  import opened Bytes
  import opened Channel
  import opened Chains
  import opened Descriptors
  import opened Endpoint
  import opened ScatterGather
  import opened SplitRing
  import opened RingProgress
  import V = Virtqueue

  /** Every read is answered from this memory. */
  function From(m: Memory): V.Reads {
    (k: nat, a: int, n: nat) => Some(ReadMem(m, a, n))
  }

  /** The stores, in order. */
  function StoreAll(m: Memory, stores: seq<Store>): Memory {
    if stores == [] then m
    else WriteMem(StoreAll(m, stores[..|stores| - 1]), stores[|stores| - 1].at, stores[|stores| - 1].bytes)
  }

  // --------------------------------------------------------------------- take_used

  /** take_used is a look at the index and a read of the entry: accepted, nothing there, or a fault, in both alike. */
  lemma TakeUsedIsSteps(l: Lane, s: System)
    requires l.Valid() && l.Queue().size > 0 && !s.faulted && s.driving.DriverIdle?
    ensures var q, e, io := l.Queue(), s.b.driver, From(s.memory);
            var status, t := V.UsedStatus(q, e, io), Run(l, s, [LookUsed, ReadUsed]);
            && status in {Ok, NothingPending, Faulted} && (t.faulted <==> status.Faulted?)
            && (status.NothingPending? ==> t == s)
            && (status.Ok? ==> t == s.(b := Collect(s.b, V.UsedHead(q, e, io), V.UsedLength(q, e, io)))
                               && t.b.driver == Reap(e, V.UsedHead(q, e, io), V.UsedLength(q, e, io)))
  {
    hide UsedFits, UsedSlot, UsedIndex;
    var a := Next(l, s, LookUsed);
    RunThen(l, s, [], LookUsed);
    RunThen(l, s, [LookUsed], ReadUsed);
    assert [] + [LookUsed] == [LookUsed] && [LookUsed] + [ReadUsed] == [LookUsed, ReadUsed];
    hide Run;
    assert Run(l, s, []) == s by { EmptyRun(l, s); }
  }

  lemma EmptyRun(l: Lane, s: System)
    requires l.Valid() && l.Queue().size > 0
    ensures Run(l, s, []) == s
  {
  }

  // ----------------------------------------------------------------- take_available

  /** What comes of the walk: a fault, or the chain taken. */
  ghost predicate WalkDecides(l: Lane, s: System, result: V.WalkResult, t: System)
    requires l.Valid() && s.serving.Walking?
  {
    && result.Walked? && !result.walk.Reading?
    && (t.faulted <==> result.walk.Broken?
                       || !Admissible(l, s.b.device.slots, s.b.device.owner, result.walk.wire, s.serving.capacity))
    && (!t.faulted ==> t == s.(b := Take(l, s.b, s.serving.handle, result.walk.wire, s.serving.capacity), serving := DeviceIdle))
  }

  /** One descriptor read, as the step and as the walk of the engine see it. */
  lemma OneRead(l: Lane, s: System)
    requires l.Valid() && l.Queue().size > 0 && !s.faulted && s.serving.Walking? && s.serving.walk.Reading?
    ensures var walk, t := s.serving.walk, Next(l, s, ReadDescriptor);
            if !MayRead(l.Queue(), walk) then t == s.(faulted := true)
            else var bytes := ReadMem(s.memory, TableBase(l.Queue(), walk) + walk.index * DESC_SIZE, DESC_SIZE);
                 t == Continue(l, s, WalkStep(l, walk, bytes))
  {
    hide Continue, WalkStep, MayRead;
  }

  /** A walk that goes on has one more segment, or has entered its table. */
  lemma WalkShrinks(l: Lane, walk: Walk, bytes: seq<byte>)
    requires l.index < |l.queues| && walk.Reading? && |bytes| == DESC_SIZE && WalkStep(l, walk, bytes).Reading?
    ensures var next := WalkStep(l, walk, bytes);
            |next.segments| > |walk.segments| || (|next.segments| == |walk.segments| && next.inTable && !walk.inTable)
  {
    hide PayloadAllowed, Visited, Decode;
  }

  /** The walk goes on after this read. */
  ghost predicate GoesOn(l: Lane, s: System)
    requires l.Valid() && s.serving.Walking? && s.serving.walk.Reading?
  {
    MayRead(l.Queue(), s.serving.walk) && WalkStep(l, s.serving.walk, NextBytes(l, s)).Reading?
  }

  function NextBytes(l: Lane, s: System): (bytes: seq<byte>)
    requires l.index < |l.queues| && s.serving.Walking? && s.serving.walk.Reading?
    ensures |bytes| == DESC_SIZE
  {
    ReadMem(s.memory, TableBase(l.Queue(), s.serving.walk) + s.serving.walk.index * DESC_SIZE, DESC_SIZE)
  }

  lemma WalkStops(l: Lane, s: System, k: nat)
    requires l.Valid() && l.Queue().size > 0 && !s.faulted && s.serving.Walking? && s.serving.walk.Reading? && !GoesOn(l, s)
    ensures WalkDecides(l, s, V.WalkFrom(l, From(s.memory), k, s.serving.walk), Next(l, s, ReadDescriptor))
  {
    hide Next, Admissible, Take, WalkStep, MayRead;
    OneRead(l, s);
  }

  lemma WalkGoes(l: Lane, s: System, k: nat)
    requires l.Valid() && l.Queue().size > 0 && !s.faulted && s.serving.Walking? && s.serving.walk.Reading? && GoesOn(l, s)
    ensures var t := Next(l, s, ReadDescriptor);
            && t.serving.Walking? && t == s.(serving := t.serving) && t.serving.walk == WalkStep(l, s.serving.walk, NextBytes(l, s))
            && t.serving.handle == s.serving.handle && t.serving.capacity == s.serving.capacity
            && V.WalkFrom(l, From(s.memory), k, s.serving.walk) == V.WalkFrom(l, From(t.memory), k + 1, t.serving.walk)
  {
    hide Next, Admissible, Take, WalkStep, MayRead;
    OneRead(l, s);
  }

  lemma {:induction false} WalkRuns(l: Lane, s: System, k: nat) returns (n: nat)
    requires l.Valid() && l.Queue().size > 0 && !s.faulted && s.serving.Walking? && s.serving.walk.Reading?
    ensures WalkDecides(l, s, V.WalkFrom(l, From(s.memory), k, s.serving.walk), Run(l, s, ReadDescriptors(n)))
    decreases l.Queue().maxChain as int - |s.serving.walk.segments|, if s.serving.walk.inTable then 0 else 1
  {
    hide Next, Admissible, Take, WalkStep, V.WalkFrom, Run, NextBytes;
    var t := Next(l, s, ReadDescriptor);
    EmptyRun(l, s);
    RunThen(l, s, [], ReadDescriptor);
    assert ReadDescriptors(1) == [] + [ReadDescriptor] == [ReadDescriptor];
    n := 1;
    if GoesOn(l, s) {
      WalkGoes(l, s, k);
      WalkShrinks(l, s.serving.walk, NextBytes(l, s));
      var rest := WalkRuns(l, t, k + 1);
      RunAppend(l, s, [ReadDescriptor], ReadDescriptors(rest));
      assert [ReadDescriptor] + ReadDescriptors(rest) == ReadDescriptors(rest + 1);
      n := rest + 1;
    } else {
      WalkStops(l, s, k);
    }
  }

  /** take_available is a look at the index, a read of the entry and the descriptor walk: it takes the chain, finds nothing
      or faults, in both alike. */
  lemma TakeAvailableIsSteps(l: Lane, s: System, handle: nat, capacity: nat) returns (n: nat)
    requires l.Valid() && l.Queue().size > 0 && !s.faulted && s.serving.DeviceIdle?
    requires !HandleHeld(s.b.device.slots, handle) && capacity >= l.Queue().maxChain
    ensures var q, e, io := l.Queue(), s.b.device, From(s.memory);
            var t := Run(l, s, TakeSteps(handle, capacity, n));
            && (V.HeadStatus(q, Device, e, io).NothingPending? ==> t == s)
            && (t.faulted <==> !V.HeadStatus(q, Device, e, io).NothingPending? && !V.TakeOk(l, Device, e, io, capacity))
            && (V.TakeOk(l, Device, e, io, capacity) ==>
                  t == s.(b := Take(l, s.b, handle, V.TakeWire(l, e, io), capacity)))
  {
    hide V.HeadStatus, Run, Take, Admissible, V.WalkFrom, HandleHeld;
    var opening := [LookAvailable, ReadEntry(handle, capacity)];
    HeadRuns(l, s, handle, capacity);
    var u := Run(l, s, opening);
    n := 0;
    if u.serving.Walking? && !u.faulted {
      n := WalkRuns(l, u, 2);
    } else {
      EmptyRun(l, u);
    }
    RunAppend(l, s, opening, ReadDescriptors(n));
  }

  lemma HeadRuns(l: Lane, s: System, handle: nat, capacity: nat)
    requires l.Valid() && l.Queue().size > 0 && !s.faulted && s.serving.DeviceIdle?
    requires !HandleHeld(s.b.device.slots, handle) && capacity >= l.Queue().maxChain
    ensures var q, e, io := l.Queue(), s.b.device, From(s.memory);
            var status, t := V.HeadStatus(q, Device, e, io), Run(l, s, [LookAvailable, ReadEntry(handle, capacity)]);
            && status in {Ok, NothingPending, Faulted} && (t.faulted <==> status.Faulted?)
            && (status.NothingPending? ==> t == s)
            && (status.Ok? ==> t == s.(serving := Walking(handle, capacity, Start(V.NextHead(q, e, io)), 0)))
  {
    hide AvailableSlot, AvailableIndex, HandleHeld;
    RunThen(l, s, [], LookAvailable);
    RunThen(l, s, [LookAvailable], ReadEntry(handle, capacity));
    assert [] + [LookAvailable] == [LookAvailable];
    assert [LookAvailable] + [ReadEntry(handle, capacity)] == [LookAvailable, ReadEntry(handle, capacity)];
    EmptyRun(l, s);
    hide Run;
  }

  // ------------------------------------------------------------- publish and complete

  function StoreNexts(n: nat): (r: seq<Step>) {
    if n == 0 then [] else StoreNexts(n - 1) + [StoreNext]
  }

  /** The driver owns the chain and has made `n` of its stores. */
  ghost predicate Storing(l: Lane, s: System, u: System, handle: nat, chain: Chain, n: nat)
    requires l.Valid() && l.Queue().size > 0
  {
    && ValidWire(l, chain.wire) && chain.wire.head < |s.b.driver.slots| && n <= RecordCount(chain.wire) + 1
    && u == s.(b := Begin(l, s.b, handle, chain.wire, chain.capacity), driving := Publishing(n),
               memory := StoreAll(s.memory, PublishStores(l.Queue(), chain.wire, s.b.driver.produced)[..n]))
  }

  /** The publication in progress, as its stores find it. */
  lemma Begun(l: Lane, s: System, u: System, handle: nat, chain: Chain, n: nat)
    requires l.Valid() && l.Queue().size > 0 && Storing(l, s, u, handle, chain, n) && !s.faulted
    ensures chain.wire.head + 1 < U16
    ensures var e := Claim(s.b.driver, handle, Prepared(chain.wire, chain.capacity, Submitted));
            && !u.faulted && u.b.driver == e && u.b.preparing == Some(chain.wire.head as nat)
            && |e.slots| == |s.b.driver.slots| && e.slots[chain.wire.head] == Held(handle, Prepared(chain.wire, chain.capacity, Submitted))
            && e.produced == s.b.driver.produced
  {
    LaneQueueOk(l);
    hide ChannelValid, ValidWire, RecordCount, Mark;
  }

  lemma StoredOnce(m: Memory, stores: seq<Store>, n: nat)
    requires n < |stores|
    ensures StoreAll(m, stores[..n + 1]) == WriteMem(StoreAll(m, stores[..n]), stores[n].at, stores[n].bytes)
  {
    assert stores[..n + 1][..n] == stores[..n];
  }

  lemma StoresNext(l: Lane, s: System, u: System, handle: nat, chain: Chain, n: nat)
    requires l.Valid() && l.Queue().size > 0 && !s.faulted && Storing(l, s, u, handle, chain, n) && n <= RecordCount(chain.wire)
    ensures Storing(l, s, Next(l, u, StoreNext), handle, chain, n + 1)
  {
    hide ChannelValid, ValidWire, RecordCount, Begin, Claim, PublishStore, WriteMem, StoreAll, Announce, Gather;
    Begun(l, s, u, handle, chain, n);
    StoredOnce(s.memory, PublishStores(l.Queue(), chain.wire, s.b.driver.produced), n);
  }

  lemma {:induction false} Stores(l: Lane, s: System, u: System, handle: nat, chain: Chain, n: nat)
    requires l.Valid() && l.Queue().size > 0 && !s.faulted && Storing(l, s, u, handle, chain, 0) && n <= RecordCount(chain.wire) + 1
    ensures Storing(l, s, Run(l, u, StoreNexts(n)), handle, chain, n)
    decreases n
  {
    hide Next, Storing, RecordCount;
    if n > 0 {
      Stores(l, s, u, handle, chain, n - 1);
      StoresNext(l, s, Run(l, u, StoreNexts(n - 1)), handle, chain, n - 1);
      RunThen(l, u, StoreNexts(n - 1), StoreNext);
    } else {
      EmptyRun(l, u);
    }
  }

  /** What the class promises of an accepted publication, of the state after its steps. */
  ghost predicate PublishedAs(l: Lane, s: System, t: System, handle: nat, chain: Chain)
    requires l.Valid() && l.Queue().size > 0
  {
    && chain.wire.head < |s.b.driver.slots| && chain.wire.head + 1 < U16 && t.driving.DriverIdle? && !t.faulted
    && t.memory == StoreAll(s.memory, PublishStores(l.Queue(), chain.wire, s.b.driver.produced))
    && t.b.driver == Claim(s.b.driver, handle, Prepared(chain.wire, chain.capacity, Submitted)).(
                       produced := Next16(s.b.driver.produced))
  }

  lemma LastStore(l: Lane, s: System, u: System, handle: nat, chain: Chain)
    requires l.Valid() && l.Queue().size > 0 && !s.faulted && Storing(l, s, u, handle, chain, RecordCount(chain.wire) + 1)
    ensures PublishedAs(l, s, Next(l, u, StoreNext), handle, chain)
  {
    hide ChannelValid, ValidWire, RecordCount, Begin, Claim, PublishStore, WriteMem, StoreAll, Gather;
    var n, stores := RecordCount(chain.wire) + 1, PublishStores(l.Queue(), chain.wire, s.b.driver.produced);
    Begun(l, s, u, handle, chain, n);
    StoredOnce(s.memory, stores, n);
    assert stores[..n + 1] == stores;
  }

  /** publish of an admissible chain is the claim and then its stores, one step each. */
  lemma PublishIsSteps(l: Lane, s: System, handle: nat, chain: Chain)
    requires l.Valid() && l.Queue().size > 0 && !s.faulted && s.driving.DriverIdle? && chain.state.Free?
    requires !HandleHeld(s.b.driver.slots, handle) && s.b.driver.owned < l.Queue().maxOutstanding
    requires Admissible(l, s.b.driver.slots, s.b.driver.owner, chain.wire, chain.capacity)
    ensures PublishedAs(l, s, Run(l, s, [Publish(handle, chain)] + StoreNexts(RecordCount(chain.wire) + 2)), handle, chain)
  {
    var n := RecordCount(chain.wire) + 1;
    var u := Next(l, s, Publish(handle, chain));
    Starts(l, s, handle, chain);
    hide Next, Storing, RecordCount, Admissible, PublishedAs, Run;
    Stores(l, s, u, handle, chain, n);
    var v := Run(l, u, StoreNexts(n));
    LastStore(l, s, v, handle, chain);
    RunThen(l, u, StoreNexts(n), StoreNext);
    EmptyRun(l, s);
    RunThen(l, s, [], Publish(handle, chain));
    assert [] + [Publish(handle, chain)] == [Publish(handle, chain)];
    RunAppend(l, s, [Publish(handle, chain)], StoreNexts(n + 1));
  }

  lemma Starts(l: Lane, s: System, handle: nat, chain: Chain)
    requires l.Valid() && l.Queue().size > 0 && !s.faulted && s.driving.DriverIdle? && chain.state.Free?
    requires !HandleHeld(s.b.driver.slots, handle) && s.b.driver.owned < l.Queue().maxOutstanding
    requires Admissible(l, s.b.driver.slots, s.b.driver.owner, chain.wire, chain.capacity)
    ensures Storing(l, s, Next(l, s, Publish(handle, chain)), handle, chain, 0)
  {
    hide ChannelValid, ValidWire, Begin;
    var stores := PublishStores(l.Queue(), chain.wire, s.b.driver.produced);
    assert stores[..0] == [];
  }

  /** complete is the used entry and then the index, and drops the chain. */
  lemma CompleteIsSteps(l: Lane, s: System, h: nat)
    requires l.Valid() && l.Queue().size > 0 && !s.faulted && Accepts(s, h) && s.b.device.owned > 0
    requires h in s.b.phase && s.b.phase[h].Serving?
    ensures var t := Run(l, s, [StoreUsed(h), StoreUsedIndex]);
            && t.serving.DeviceIdle? && !t.faulted
            && t.memory == StoreAll(s.memory, CompleteStores(l.Queue(), h, s.b.device.slots[h].chain.written, s.b.device.produced))
            && t.b.device == Drop(s.b.device.(produced := Next16(s.b.device.produced)), h)
  {
    hide ChannelValid, Run, WriteMem, Drop, Le, UsedSlot, UsedIndex, StoreAll;
    var stores := CompleteStores(l.Queue(), h, s.b.device.slots[h].chain.written, s.b.device.produced);
    StoredOnce(s.memory, stores, 0);
    StoredOnce(s.memory, stores, 1);
    assert stores[..0] == [] && stores[..2] == stores;
    EmptyRun(l, s);
    RunThen(l, s, [], StoreUsed(h));
    RunThen(l, s, [StoreUsed(h)], StoreUsedIndex);
    assert [] + [StoreUsed(h)] == [StoreUsed(h)] && [StoreUsed(h)] + [StoreUsedIndex] == [StoreUsed(h), StoreUsedIndex];
    NoStores(s.memory);
  }

  lemma NoStores(m: Memory)
    ensures StoreAll(m, []) == m
  {
  }
}
