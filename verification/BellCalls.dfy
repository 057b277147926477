/** The calls that put a side to sleep or wake the other one, as the steps of the ring with its bells: arm, and the end of
    publish and complete. */
module BellCalls {
  import opened Bytes
  import opened Channel
  import opened Chains
  import opened Descriptors
  import opened Endpoint
  import opened ScatterGather
  import opened SplitRing
  import opened RingEvents
  import opened RingCalls
  import opened RingBells
  import RingProgress
  import D = Doorbell
  import V = Virtqueue

  /** The tables of a side, the bell it waits for and the bell it rings. */
  function Table(r: Bells, side: Side): State { if side.Driver? then r.s.b.driver else r.s.b.device }
  function Waits(r: Bells, side: Side): Bell { if side.Driver? then r.used else r.available }
  function Rings(r: Bells, side: Side): Bell { if side.Driver? then r.available else r.used }

  lemma RunActThen(l: Lane, r: Bells, xs: seq<Act>, x: Act)
    requires l.Valid() && l.Queue().size > 0
    ensures RunActs(l, r, xs + [x]) == NextAct(l, RunActs(l, r, xs), x)
  {
    assert (xs + [x])[..|xs|] == xs;
  }

  lemma NoActs(l: Lane, r: Bells)
    requires l.Valid() && l.Queue().size > 0
    ensures RunActs(l, r, []) == r
  {
  }

  lemma {:induction false} RunActsAppend(l: Lane, r: Bells, xs: seq<Act>, ys: seq<Act>)
    requires l.Valid() && l.Queue().size > 0
    ensures RunActs(l, r, xs + ys) == RunActs(l, RunActs(l, r, xs), ys)
    decreases |ys|
  {
    hide NextAct;
    if ys == [] {
      assert xs + ys == xs;
    } else {
      var front, last := ys[..|ys| - 1], ys[|ys| - 1];
      RunActsAppend(l, r, xs, front);
      assert xs + ys == xs + front + [last];
      RunActThen(l, r, xs + front, last);
    }
  }

  // ------------------------------------------------------------------------ arm

  function ArmStep(side: Side): Step { if side.Driver? then ArmDriver else ArmDevice }

  /** arm is the store of the event word and a look at the index: the side sleeps exactly when arm reports nothing, and the
      word the peer's publications read holds the count arm stopped at. */
  lemma ArmIsSteps(l: Lane, r: Bells, side: Side)
    requires l.Valid() && l.Queue().size > 0 && !r.s.faulted && Waits(r, side).consuming.Awake?
    ensures var q, e := l.Queue(), Table(r, side);
            var m := StoreAll(r.s.memory, [Store(EventWord(q, side), Le(e.consumed, 2))]);
            var status := V.PendingAnswer(q, side, e, V.Answer(From(m), 1, PeerIndex(q, side), 2));
            var t := RunActs(l, r, [Access(ArmStep(side)), LoadIndex(side)]);
            && t.s == r.s.(memory := m) && Rings(t, side) == Rings(r, side)
            && (status.Ok? <==> Waits(t, side).consuming.Awake?)
            && (status.NothingPending? <==> Waits(t, side).consuming.Asleep?)
            && Load16(m, if side.Driver? then UsedEvent(q) else AvailableEvent(q)) == e.consumed
  {
    hide Le, Pending, RunActs;
    var step, e := Access(ArmStep(side)), Table(r, side);
    NoActs(l, r);
    RunActThen(l, r, [], step);
    RunActThen(l, r, [step], LoadIndex(side));
    assert [] + [step] == [step] && [step] + [LoadIndex(side)] == [step, LoadIndex(side)];
    var stores := [Store(EventWord(l.Queue(), side), Le(e.consumed, 2))];
    StoredOnce(r.s.memory, stores, 0);
    NoStores(r.s.memory);
    assert stores[..0] == [] && stores[..1] == stores;
    LoadStored(r.s.memory, EventWord(l.Queue(), side), e.consumed);
  }

  // --------------------------------------------------------- the end of a publication

  /** The decision at the end of publish and complete is the look at the event word. */
  lemma NotifyIsStep(l: Lane, r: Bells, side: Side, k: nat, before: u16, notify: bool)
    requires l.Valid() && l.Queue().size > 0 && Rings(r, side).producing.Fenced? && Table(r, side).produced == Next16(before)
    requires V.Notified(From(r.s.memory), k, if side.Driver? then AvailableEvent(l.Queue()) else UsedEvent(l.Queue()), before, notify)
    ensures var t := NextAct(l, r, LoadEvent(side));
            && t.s == r.s && Waits(t, side) == Waits(r, side)
            && Rings(t, side) == Rings(r, side).(producing := D.Ready, rung := Rings(r, side).rung || notify)
  {
    hide MustNotify;
    assert Previous16(Next16(before)) == before;
  }

  /** The used index is announced by the second store, and nothing else is. */
  lemma CompletionGrows(l: Lane, s: System, h: nat)
    requires l.Valid() && l.Queue().size > 0 && !s.faulted && Accepts(s, h) && s.b.device.owned > 0
    requires h in s.b.phase && s.b.phase[h].Serving?
    ensures var u := Next(l, s, StoreUsed(h));
            && !u.faulted && Next(l, u, StoreUsedIndex) == Run(l, s, [StoreUsed(h), StoreUsedIndex])
            && |Next(l, u, StoreUsedIndex).b.completed| == |s.b.completed| + 1
            && Drop(s.b.device.(produced := Next16(s.b.device.produced)), h).produced == Next16(s.b.device.produced)
  {
    hide WriteMem, UsedSlot, UsedIndex, Mark;
    EmptyRun(l, s);
    RingProgress.RunThen(l, s, [], StoreUsed(h));
    RingProgress.RunThen(l, s, [StoreUsed(h)], StoreUsedIndex);
    assert [] + [StoreUsed(h)] == [StoreUsed(h)] && [StoreUsed(h)] + [StoreUsedIndex] == [StoreUsed(h), StoreUsedIndex];
  }

  lemma CompletionActs(l: Lane, r: Bells, h: nat)
    requires l.Valid() && l.Queue().size > 0 && !r.s.faulted && Accepts(r.s, h) && r.s.b.device.owned > 0
    requires h in r.s.b.phase && r.s.b.phase[h].Serving? && r.used.producing.Ready?
    ensures RunActs(l, r, [Access(StoreUsed(h)), Access(StoreUsedIndex)])
            == r.(s := Run(l, r.s, [StoreUsed(h), StoreUsedIndex]), used := r.used.(producing := D.Fenced))
  {
    CompletionGrows(l, r.s, h);
    hide Next, RunActs, Run, Drop, Accepts;
    var a, b := Access(StoreUsed(h)), Access(StoreUsedIndex);
    NoActs(l, r);
    RunActThen(l, r, [], a);
    RunActThen(l, r, [a], b);
    assert [] + [a] == [a] && [a] + [b] == [a, b];
    SameCompleted(l, r.s, h);
  }

  lemma SameCompleted(l: Lane, s: System, h: nat)
    requires l.Valid() && l.Queue().size > 0
    ensures Next(l, s, StoreUsed(h)).b == s.b
  {
  }

  /** complete over one memory: the two stores, the drop, and the bell rung exactly when complete says notify. */
  lemma CompleteRings(l: Lane, r: Bells, h: nat, notify: bool)
    requires l.Valid() && l.Queue().size > 0 && !r.s.faulted && Accepts(r.s, h) && r.s.b.device.owned > 0
    requires h in r.s.b.phase && r.s.b.phase[h].Serving? && r.used.producing.Ready?
    requires var m := StoreAll(r.s.memory, CompleteStores(l.Queue(), h, r.s.b.device.slots[h].chain.written, r.s.b.device.produced));
             V.Notified(From(m), 2, UsedEvent(l.Queue()), r.s.b.device.produced, notify)
    ensures RunActs(l, r, [Access(StoreUsed(h)), Access(StoreUsedIndex), LoadEvent(Device)])
            == r.(s := Run(l, r.s, [StoreUsed(h), StoreUsedIndex]), used := r.used.(rung := r.used.rung || notify))
  {
    CompleteIsSteps(l, r.s, h);
    hide Next, NextAct, RunActs, V.Notified, StoreAll, CompleteStores, Run, Accepts, Mark, From;
    CompletionActs(l, r, h);
    var a, b, c := Access(StoreUsed(h)), Access(StoreUsedIndex), LoadEvent(Device);
    RunActThen(l, r, [a, b], c);
    assert [a, b] + [c] == [a, b, c];
    NotifyIsStep(l, RunActs(l, r, [a, b]), Device, 2, r.s.b.device.produced, notify);
  }

  function StoreActs(n: nat): seq<Act> {
    if n == 0 then [] else StoreActs(n - 1) + [Access(StoreNext)]
  }

  /** The stores before the index announce nothing. */
  lemma {:induction false} StoresQuietly(l: Lane, r: Bells, u: Bells, handle: nat, chain: Chain, n: nat)
    requires l.Valid() && l.Queue().size > 0 && !r.s.faulted && n <= RecordCount(chain.wire) + 1
    requires Storing(l, r.s, u.s, handle, chain, 0) && u == r.(s := u.s) && r.available.producing.Ready?
    ensures var v := RunActs(l, u, StoreActs(n)); Storing(l, r.s, v.s, handle, chain, n) && v == r.(s := v.s)
    ensures RunActs(l, u, StoreActs(n)).s == Run(l, u.s, StoreNexts(n))
    decreases n
  {
    hide Next, RecordCount, Begin, RunActs, Run, ValidWire, PublishStores, StoreAll;
    if n > 0 {
      StoresQuietly(l, r, u, handle, chain, n - 1);
      var v := RunActs(l, u, StoreActs(n - 1));
      StoresNext(l, r.s, v.s, handle, chain, n - 1);
      Begun(l, r.s, v.s, handle, chain, n - 1);
      RunActThen(l, u, StoreActs(n - 1), Access(StoreNext));
      RingProgress.RunThen(l, u.s, StoreNexts(n - 1), StoreNext);
    } else {
      NoActs(l, u);
      EmptyRun(l, u.s);
    }
  }

  /** The index store announces the chain. */
  lemma PublicationGrows(l: Lane, s: System, u: System, handle: nat, chain: Chain)
    requires l.Valid() && l.Queue().size > 0 && !s.faulted && Storing(l, s, u, handle, chain, RecordCount(chain.wire) + 1)
    ensures !u.faulted && |Next(l, u, StoreNext).b.published| == |u.b.published| + 1
  {
    Begun(l, s, u, handle, chain, RecordCount(chain.wire) + 1);
    hide ChannelValid, ValidWire, RecordCount, Begin, Claim, PublishStore, WriteMem, StoreAll, Gather;
  }

  function PublishActs(handle: nat, chain: Chain): seq<Act> {
    [Access(Publish(handle, chain))] + StoreActs(RecordCount(chain.wire) + 2) + [LoadEvent(Driver)]
  }

  /** publish of an admissible chain over one memory: the claim, the stores, and the bell rung exactly when publish says
      notify. */
  lemma PublishRings(l: Lane, r: Bells, handle: nat, chain: Chain, notify: bool)
    requires l.Valid() && l.Queue().size > 0 && !r.s.faulted && r.s.driving.DriverIdle? && chain.state.Free?
    requires !HandleHeld(r.s.b.driver.slots, handle) && r.s.b.driver.owned < l.Queue().maxOutstanding
    requires Admissible(l, r.s.b.driver.slots, r.s.b.driver.owner, chain.wire, chain.capacity) && r.available.producing.Ready?
    requires var m := StoreAll(r.s.memory, PublishStores(l.Queue(), chain.wire, r.s.b.driver.produced));
             V.Notified(From(m), RecordCount(chain.wire) + 2, AvailableEvent(l.Queue()), r.s.b.driver.produced, notify)
    ensures var t := RunActs(l, r, PublishActs(handle, chain));
            PublishedAs(l, r.s, t.s, handle, chain) && t == r.(s := t.s, available := r.available.(rung := r.available.rung || notify))
  {
    hide Next, RunActs, Run, Storing, RecordCount, Admissible, V.Notified, StoreAll, PublishStores, Claim, StoreActs;
    var n, first, last := RecordCount(chain.wire) + 1, Access(Publish(handle, chain)), Access(StoreNext);
    Starts(l, r.s, handle, chain);
    NoActs(l, r);
    RunActThen(l, r, [], first);
    assert [] + [first] == [first];
    var u := RunActs(l, r, [first]);
    StoresQuietly(l, r, u, handle, chain, n);
    var v := RunActs(l, u, StoreActs(n));
    PublicationGrows(l, r.s, v.s, handle, chain);
    LastStore(l, r.s, v.s, handle, chain);
    var w := NextAct(l, v, last);
    NotifyIsStep(l, w, Driver, n + 1, r.s.b.driver.produced, notify);
    OneMore(n);
    RunActThen(l, u, StoreActs(n), last);
    RunActsAppend(l, r, [first], StoreActs(n + 1));
    RunActThen(l, r, [first] + StoreActs(n + 1), LoadEvent(Driver));
  }

  lemma OneMore(n: nat)
    ensures StoreActs(n + 1) == StoreActs(n) + [Access(StoreNext)]
  {
  }
}
