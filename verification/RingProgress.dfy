/** What waits on a lane can be taken: the next step of a side that may move always finds it. */
module RingProgress {
  import opened Channel
  import opened Chains
  import opened Descriptors
  import opened Endpoint
  import opened ScatterGather
  import opened Wrap
  import opened SplitRing
  import opened RingInvariant
  import opened Conservation
  import opened RingLooks
  import opened RingReturns
  import opened RingTheorems

  lemma RunThen(l: Lane, s: System, xs: seq<Step>, x: Step)
    requires l.Valid() && l.Queue().size > 0
    ensures Run(l, s, xs + [x]) == Next(l, Run(l, s, xs), x)
  {
    assert (xs + [x])[..|xs|] == xs;
  }

  lemma {:induction false} RunAppend(l: Lane, s: System, xs: seq<Step>, ys: seq<Step>)
    requires l.Valid() && l.Queue().size > 0
    ensures Run(l, s, xs + ys) == Run(l, Run(l, s, xs), ys)
    decreases |ys|
  {
    hide Next;
    if ys == [] {
      assert xs + ys == xs;
    } else {
      var front, last := ys[..|ys| - 1], ys[|ys| - 1];
      RunAppend(l, s, xs, front);
      assert xs + ys == xs + front + [last];
      RunThen(l, s, xs + front, last);
    }
  }

  // ------------------------------------------------------------------- take_used

  lemma LooksUsed(l: Lane, s: System)
    requires l.Valid() && l.Queue().size > 0 && Inv(l, s) && s.driving.DriverIdle? && s.b.reaped < |s.b.completed|
    ensures Next(l, s, LookUsed) == s.(driving := Reaping)
  {
    hide Ends, Phases, Once, LastTakenOk, AvailableOk, ChainsOk, DeviceCallOk;
    Windows(l, s.b);
    LoadHeld(s.memory, UsedIndex(l.Queue()), Index16(|s.b.completed|));
  }

  /** The chain take_used accepts next. */
  ghost predicate Accepted(b: Ledger, b': Ledger)
    requires b.reaped < |b.completed|
  {
    var c := b.completed[b.reaped];
    && c.publication < |b.published| && b'.reaped == b.reaped + 1 && b'.completed == b.completed && b'.published == b.published
    && b'.delivered == b.delivered + [Delivery(b.published[c.publication].handle, |c.response|)]
    && c.head < |b'.driver.slots| && b'.driver.slots[c.head].Held?
    && b'.driver.slots[c.head].handle == b.published[c.publication].handle
    && b'.driver.slots[c.head].chain.wire == b.published[c.publication].wire
    && b'.driver.slots[c.head].chain.state.Returned? && b'.driver.slots[c.head].chain.usedLength == |c.response|
  }

  lemma CollectAccepts(b: Ledger)
    requires Phases(b) && b.reaped < |b.completed| && AnsweredAt(b, b.reaped)
    requires var c := b.completed[b.reaped]; UsedFits(b.driver, c.head, |c.response|)
    ensures Accepted(b, Collect(b, b.completed[b.reaped].head, |b.completed[b.reaped].response|))
  {
    var h := b.completed[b.reaped].head as nat;
    assert PhaseOk(b, h, b.phase[h]);
  }

  lemma ReadsUsed(l: Lane, s: System)
    requires l.Valid() && l.Queue().size > 0 && Inv(l, s) && s.driving.Reaping?
    ensures s.b.reaped < |s.b.completed|
    ensures var t := Next(l, s, ReadUsed); t.driving.DriverIdle? && !t.faulted && Accepted(s.b, t.b)
  {
    hide Ends, Counts, Once, LastTakenOk, AvailableOk, UsedOk, ChainsOk, DeviceCallOk, Collect, Accepted;
    NextUsed(l, s.b, s.memory);
    CollectAccepts(s.b);
  }

  /** One take_used call of an idle driver delivers the oldest completion, with its handle and length. */
  lemma NextDelivered(l: Lane, r: System)
    requires l.Valid() && l.Queue().size > 0 && Inv(l, r) && r.driving.DriverIdle? && r.b.reaped < |r.b.completed|
    ensures var t := Run(l, r, [LookUsed, ReadUsed]); Inv(l, t) && t.driving.DriverIdle? && Accepted(r.b, t.b)
  {
    hide Inv, Next, Accepted;
    var s := Next(l, r, LookUsed);
    LooksUsed(l, r);
    NextKeeps(l, r, LookUsed);
    ReadsUsed(l, s);
    NextKeeps(l, s, ReadUsed);
    RunThen(l, r, [], LookUsed);
    RunThen(l, r, [LookUsed], ReadUsed);
    assert [] + [LookUsed] == [LookUsed] && [LookUsed] + [ReadUsed] == [LookUsed, ReadUsed];
  }

  /** In every run, whatever waits in the used ring comes back from the next take_used. */
  lemma CompletedComesBack(l: Lane, s: System, steps: seq<Step>)
    requires l.Valid() && l.Queue().size > 0 && Initial(l, s)
    requires var r := Run(l, s, steps); r.driving.DriverIdle? && r.b.reaped < |r.b.completed|
    ensures Accepted(Run(l, s, steps).b, Run(l, s, steps + [LookUsed, ReadUsed]).b)
  {
    hide Inv, Run, Accepted;
    RunKeeps(l, s, steps);
    NextDelivered(l, Run(l, s, steps));
    RunAppend(l, s, steps, [LookUsed, ReadUsed]);
  }

  function TakeUsedTimes(n: nat): seq<Step> {
    if n == 0 then [] else [LookUsed, ReadUsed] + TakeUsedTimes(n - 1)
  }

  lemma {:induction false} Drains(l: Lane, r: System, n: nat)
    requires l.Valid() && l.Queue().size > 0 && Inv(l, r) && r.driving.DriverIdle? && r.b.reaped + n <= |r.b.completed|
    ensures var t := Run(l, r, TakeUsedTimes(n));
            && Inv(l, t) && t.b.reaped == r.b.reaped + n && t.b.completed == r.b.completed && t.b.published == r.b.published
    decreases n
  {
    hide Inv, Next;
    if n > 0 {
      NextDelivered(l, r);
      var t := Run(l, r, [LookUsed, ReadUsed]);
      hide Run;
      Drains(l, t, n - 1);
      RunAppend(l, r, [LookUsed, ReadUsed], TakeUsedTimes(n - 1));
    }
  }

  /** Every completion of `b` has been delivered in `t`, once each and in order, with its handle and its length. */
  ghost predicate AllBack(b: Ledger, t: Ledger) {
    && t.completed == b.completed && |t.delivered| == |b.completed|
    && forall j :: 0 <= j < |b.completed| ==>
           && b.completed[j].publication < |b.published|
           && t.delivered[j] == Delivery(b.published[b.completed[j].publication].handle, |b.completed[j].response|)
  }

  /** A driver that keeps calling take_used gets every completed chain back: exactly once each, in order. */
  lemma EveryCompletionComesBack(l: Lane, s: System, steps: seq<Step>)
    requires l.Valid() && l.Queue().size > 0 && Initial(l, s) && Run(l, s, steps).driving.DriverIdle?
    ensures var b := Run(l, s, steps).b;
            b.reaped <= |b.completed| && AllBack(b, Run(l, s, steps + TakeUsedTimes(|b.completed| - b.reaped)).b)
  {
    hide Inv, Run, Next;
    var b := Run(l, s, steps).b;
    assert b.reaped <= |b.completed| by { RunConserves(l, s, steps); }
    RunKeeps(l, s, steps);
    var n := |b.completed| - b.reaped;
    Drains(l, Run(l, s, steps), n);
    RunAppend(l, s, steps, TakeUsedTimes(n));
    DrainedInOrder(l, Run(l, s, steps + TakeUsedTimes(n)));
  }

  lemma DrainedInOrder(l: Lane, t: System)
    requires l.index < |l.queues| && l.Queue().size > 0 && Inv(l, t) && t.b.reaped == |t.b.completed|
    ensures |t.b.delivered| == |t.b.completed|
    ensures forall j :: 0 <= j < |t.b.completed| ==>
                && t.b.completed[j].publication < |t.b.published|
                && t.b.delivered[j] == Delivery(t.b.published[t.b.completed[j].publication].handle, |t.b.completed[j].response|)
  {
    hide Ends, Counts, Phases, LastTakenOk, MemoryOk, DriverCallOk, DeviceCallOk;
    forall j | 0 <= j < |t.b.completed|
      ensures && t.b.completed[j].publication < |t.b.published|
              && t.b.delivered[j] == Delivery(t.b.published[t.b.completed[j].publication].handle, |t.b.completed[j].response|)
    {
      assert Delivered(t.b, j);
    }
  }

  // --------------------------------------------------------------- take_available

  lemma LooksAvailable(l: Lane, s: System)
    requires l.Valid() && l.Queue().size > 0 && Inv(l, s) && s.serving.DeviceIdle? && s.b.taken < |s.b.published|
    ensures Next(l, s, LookAvailable) == s.(serving := Seen)
  {
    hide Ends, Phases, Once, LastTakenOk, UsedOk, ChainsOk, DriverCallOk;
    Windows(l, s.b);
    LoadHeld(s.memory, AvailableIndex(l.Queue()), Index16(|s.b.published|));
  }

  lemma ReadsEntry(l: Lane, s: System, handle: nat, capacity: nat)
    requires l.Valid() && l.Queue().size > 0 && Inv(l, s) && s.serving.Seen?
    requires !HandleHeld(s.b.device.slots, handle) && capacity >= l.Queue().maxChain
    ensures s.b.taken < |s.b.published| && WalkOk(s.b.published[s.b.taken].wire, Start(s.b.published[s.b.taken].wire.head), 0)
    ensures Next(l, s, ReadEntry(handle, capacity))
            == s.(serving := Walking(handle, capacity, Start(s.b.published[s.b.taken].wire.head), 0))
  {
    hide Once, LastTakenOk, UsedOk, ChainsOk, DriverCallOk, Consistent, WalkOk, AvailableOk;
    var h := s.b.published[s.b.taken].wire.head as nat;
    assert QueuedAt(s.b, s.b.taken);
    NextEntry(l, s.b, s.memory);
    NextIsUnclaimed(l, s.b, h);
    EntryStarts(l, s.b, h);
  }

  /** The device is `k` records into the next publication, and nothing else has changed. */
  ghost predicate WalkingAt(r: System, s: System, handle: nat, capacity: nat, k: nat) {
    && r.b.taken < |r.b.published| && s == r.(serving := s.serving)
    && s.serving.Walking? && s.serving.handle == handle && s.serving.capacity == capacity && s.serving.count == k
  }

  lemma WalksOn(l: Lane, r: System, s: System, handle: nat, capacity: nat, k: nat)
    requires l.Valid() && l.Queue().size > 0 && Inv(l, s) && WalkingAt(r, s, handle, capacity, k)
    requires k + 1 < RecordCount(r.b.published[r.b.taken].wire)
    ensures WalkingAt(r, Next(l, s, ReadDescriptor), handle, capacity, k + 1)
  {
    hide Inv, DoReadDescriptor, Admissible, Take, RecordCount;
    Unfaulted(l, s);
    Continues(l, s);
  }

  /** The next descriptor read continues the walk as the wire says. */
  lemma Continues(l: Lane, s: System)
    requires l.Valid() && l.Queue().size > 0 && Inv(l, s) && s.serving.Walking?
    ensures s.b.taken < |s.b.published| && s.serving.count < RecordCount(s.b.published[s.b.taken].wire)
    ensures var w := s.b.published[s.b.taken].wire;
            && Direct(w) <= |w.segments| && DoReadDescriptor(l, s) == Continue(l, s, Expected(w, s.serving.count + 1))
            && w.head as nat in s.b.phase && s.b.phase[w.head as nat] == Queued(s.b.taken)
  {
    hide Once, LastTakenOk, AvailableOk, UsedOk, ChainsOk, DriverCallOk, Consistent, DoReadDescriptor, Continue, Counts;
    var w := s.b.published[s.b.taken].wire;
    assert QueuedAt(s.b, s.b.taken);
    QueuedIsLaid(l, s.b, s.memory, w.head);
    ReadContinues(l, s, w);
  }

  function ReadDescriptors(n: nat): (r: seq<Step>)
    ensures |r| == n && forall i :: 0 <= i < n ==> r[i] == ReadDescriptor
  {
    if n == 0 then [] else ReadDescriptors(n - 1) + [ReadDescriptor]
  }

  lemma {:induction false} Walks(l: Lane, r: System, s: System, handle: nat, capacity: nat, n: nat)
    requires l.Valid() && l.Queue().size > 0 && Inv(l, s) && WalkingAt(r, s, handle, capacity, 0)
    requires n < RecordCount(r.b.published[r.b.taken].wire)
    ensures Inv(l, Run(l, s, ReadDescriptors(n))) && WalkingAt(r, Run(l, s, ReadDescriptors(n)), handle, capacity, n)
    decreases n
  {
    hide Next, WalkingAt, Inv;
    if n > 0 {
      Walks(l, r, s, handle, capacity, n - 1);
      var t := Run(l, s, ReadDescriptors(n - 1));
      WalksOn(l, r, t, handle, capacity, n - 1);
      NextKeeps(l, t, ReadDescriptor);
      RunThen(l, s, ReadDescriptors(n - 1), ReadDescriptor);
    }
  }

  lemma Unfaulted(l: Lane, s: System)
    requires l.index < |l.queues| && l.Queue().size > 0 && Inv(l, s)
    ensures !s.faulted
  {
  }

  /** The device has taken the next publication whole. */
  ghost predicate Took(l: Lane, r: System, t: System, handle: nat, capacity: nat)
    requires r.b.taken < |r.b.published|
  {
    var w := r.b.published[r.b.taken].wire;
    && t.serving.DeviceIdle? && t.memory == r.memory && t.b.published == r.b.published && t.b.taken == r.b.taken + 1
    && w.head < |t.b.device.slots| && t.b.device.slots[w.head] == Held(handle, Prepared(w, capacity, Chains.Accepted))
    && t.b.device.owned == r.b.device.owned + 1 && t.b.device.lastTaken == Some(handle)
  }

  lemma WalkEnds(l: Lane, r: System, s: System, handle: nat, capacity: nat, k: nat)
    requires l.Valid() && l.Queue().size > 0 && Inv(l, s) && WalkingAt(r, s, handle, capacity, k)
    requires k + 1 == RecordCount(r.b.published[r.b.taken].wire)
    ensures Took(l, r, Next(l, s, ReadDescriptor), handle, capacity)
  {
    hide Inv, DoReadDescriptor, Admissible, Expected, Continue, ValidWire;
    Unfaulted(l, s);
    Continues(l, s);
    Ending(l, s);
  }

  lemma Ending(l: Lane, s: System)
    requires l.Valid() && l.Queue().size > 0 && Inv(l, s) && s.serving.Walking?
    requires s.b.taken < |s.b.published|
    requires var w := s.b.published[s.b.taken].wire;
             && Direct(w) <= |w.segments| && s.serving.count + 1 == RecordCount(w)
             && w.head as nat in s.b.phase && s.b.phase[w.head as nat] == Queued(s.b.taken)
    ensures var w := s.b.published[s.b.taken].wire;
            && ValidWire(l, w) && w.head < |s.b.device.slots|
            && Continue(l, s, Expected(w, s.serving.count + 1))
               == s.(b := Take(l, s.b, s.serving.handle, w, s.serving.capacity), serving := DeviceIdle)
  {
    hide Once, LastTakenOk, AvailableOk, UsedOk, ChainsOk, DriverCallOk, Counts, Continue, Take, Consistent;
    var w := s.b.published[s.b.taken].wire;
    ReadDescriptorEnds(l, s, w.head);
    assert Expected(w, RecordCount(w)) == Finished(w);
  }

  /** The accesses of a take_available call over a chain of `n` records. */
  function TakeSteps(handle: nat, capacity: nat, n: nat): seq<Step> {
    [LookAvailable, ReadEntry(handle, capacity)] + ReadDescriptors(n)
  }

  /** The first two accesses of take_available start a walk over the oldest unread publication. */
  lemma WalkStarts(l: Lane, r: System, handle: nat, capacity: nat)
    requires l.Valid() && l.Queue().size > 0 && Inv(l, r) && r.serving.DeviceIdle? && r.b.taken < |r.b.published|
    requires !HandleHeld(r.b.device.slots, handle) && capacity >= l.Queue().maxChain
    ensures var t := Run(l, r, [LookAvailable, ReadEntry(handle, capacity)]);
            Inv(l, t) && WalkingAt(r, t, handle, capacity, 0) && RecordCount(r.b.published[r.b.taken].wire) > 0
  {
    hide Inv, Next, RecordCount;
    var s := Next(l, r, LookAvailable);
    LooksAvailable(l, r);
    NextKeeps(l, r, LookAvailable);
    ReadsEntry(l, s, handle, capacity);
    NextKeeps(l, s, ReadEntry(handle, capacity));
    RunThen(l, r, [], LookAvailable);
    RunThen(l, r, [LookAvailable], ReadEntry(handle, capacity));
    assert [] + [LookAvailable] == [LookAvailable];
    assert [LookAvailable] + [ReadEntry(handle, capacity)] == [LookAvailable, ReadEntry(handle, capacity)];
  }

  lemma NextTaken(l: Lane, r: System, handle: nat, capacity: nat)
    requires l.Valid() && l.Queue().size > 0 && Inv(l, r) && r.serving.DeviceIdle? && r.b.taken < |r.b.published|
    requires !HandleHeld(r.b.device.slots, handle) && capacity >= l.Queue().maxChain
    ensures var t := Run(l, r, TakeSteps(handle, capacity, RecordCount(r.b.published[r.b.taken].wire)));
            Inv(l, t) && Took(l, r, t, handle, capacity)
  {
    hide Inv, Next, RecordCount, Run, WalkingAt, Took;
    var opening := [LookAvailable, ReadEntry(handle, capacity)];
    var s := Run(l, r, opening);
    WalkStarts(l, r, handle, capacity);
    var n := RecordCount(r.b.published[r.b.taken].wire) - 1;
    Walks(l, r, s, handle, capacity, n);
    var t := Run(l, s, ReadDescriptors(n));
    WalkEnds(l, r, t, handle, capacity, n);
    NextKeeps(l, t, ReadDescriptor);
    RunThen(l, s, ReadDescriptors(n), ReadDescriptor);
    RunAppend(l, r, opening, ReadDescriptors(n + 1));
  }

  /** In every run, an idle device with a free chain object takes exactly the oldest unread publication: the published
      wire under its own handle, with the request bytes in place. */
  lemma PublishedIsTaken(l: Lane, s: System, steps: seq<Step>, handle: nat, capacity: nat)
    requires l.Valid() && l.Queue().size > 0 && Initial(l, s) && capacity >= l.Queue().maxChain
    requires var r := Run(l, s, steps);
             r.serving.DeviceIdle? && r.b.taken < |r.b.published| && !HandleHeld(r.b.device.slots, handle)
    ensures var r := Run(l, s, steps);
            var p := r.b.published[r.b.taken];
            var t := Run(l, s, steps + TakeSteps(handle, capacity, RecordCount(p.wire)));
            Took(l, r, t, handle, capacity) && Gather(t.memory, p.wire.segments, false) == p.request
  {
    hide Inv, Run, RecordCount, Took;
    var r := Run(l, s, steps);
    var p := r.b.published[r.b.taken];
    RunKeeps(l, s, steps);
    RequestWaits(l, r);
    NextTaken(l, r, handle, capacity);
    RunAppend(l, s, steps, TakeSteps(handle, capacity, RecordCount(p.wire)));
    TookMemory(l, r, Run(l, s, steps + TakeSteps(handle, capacity, RecordCount(p.wire))), handle, capacity);
  }

  lemma TookMemory(l: Lane, r: System, t: System, handle: nat, capacity: nat)
    requires r.b.taken < |r.b.published| && Took(l, r, t, handle, capacity)
    ensures t.memory == r.memory
  {
  }

  lemma RequestWaits(l: Lane, r: System)
    requires l.Valid() && l.Queue().size > 0 && Inv(l, r) && r.b.taken < |r.b.published|
    ensures Gather(r.memory, r.b.published[r.b.taken].wire.segments, false) == r.b.published[r.b.taken].request
  {
    hide Ends, Counts, Once, LastTakenOk, AvailableOk, UsedOk, DriverCallOk, DeviceCallOk, Gather, Laid;
    var h := r.b.published[r.b.taken].wire.head as nat;
    assert QueuedAt(r.b, r.b.taken);
    assert PhaseOk(r.b, h, r.b.phase[h]) && ChainOk(l.Queue(), r.b, h, r.memory);
  }
}
