/** What holds in every run of a driver and a device on one lane. */
module RingTheorems {
  import opened Bytes
  import opened Ranges
  import opened Channel
  import opened Chains
  import opened Descriptors
  import opened Endpoint
  import opened ScatterGather
  import opened Counting
  import opened SplitRing
  import opened RingInvariant
  import opened Conservation
  import opened RingSteps
  import opened RingLooks
  import opened RingMemory
  import opened RingReturns
  import opened RingAnswers

  /** A running publication has at most its index store left. */
  lemma RunningPublication(l: Lane, s: System)
    requires l.index < |l.queues| && l.Queue().size > 0 && s.driving.Publishing?
    requires DriverCallOk(l.Queue(), s.b, s.memory, s.driving)
    ensures s.b.preparing.Some? && Prepares(s.b, s.b.preparing.value)
    ensures s.driving.stores <= RecordCount(WireOf(s.b, s.b.preparing.value)) + 1
  {
  }

  lemma StoreNextKeeps(l: Lane, s: System)
    requires l.Valid() && l.Queue().size > 0 && Inv(l, s)
    ensures Inv(l, DoStoreNext(l, s))
  {
    if s.driving.Publishing? {
      RunningPublication(l, s);
      StoreKeeps(l, s, s.b.preparing.value);
    }
  }

  lemma StoreKeeps(l: Lane, s: System, h: nat)
    requires l.Valid() && l.Queue().size > 0 && Inv(l, s) && s.driving.Publishing? && Prepares(s.b, h)
    requires s.driving.stores <= RecordCount(WireOf(s.b, h)) + 1
    ensures Inv(l, DoStoreNext(l, s))
  {
    hide Inv;
    var n := RecordCount(WireOf(s.b, h));
    if s.driving.stores < n { StoreRecordKeeps(l, s, h, s.driving.stores); }
    else if s.driving.stores == n { StoreEntryKeeps(l, s, h); }
    else { AnnounceKeepsInv(l, s, h); }
  }

  lemma DoTouchKeeps(l: Lane, s: System, at: int, bytes: seq<byte>)
    requires l.Valid() && l.Queue().size > 0 && Inv(l, s)
    ensures Inv(l, DoTouch(l, s, at, bytes))
  {
    if forall x :: In(x, at, |bytes|) ==> Outside(l, s.b, x) { TouchKeeps(l, s, at, bytes); }
  }

  predicate DriverStep(step: Step) {
    step.Publish? || step.StoreNext? || step.LookUsed? || step.ReadUsed? || step.Release? || step.ArmDriver? || step.Touch?
  }

  lemma DriverNextKeeps(l: Lane, s: System, step: Step)
    requires l.Valid() && l.Queue().size > 0 && Inv(l, s) && DriverStep(step)
    ensures Inv(l, Next(l, s, step))
  {
    hide Inv;
    match step
    case Publish(handle, chain) => PublishKeeps(l, s, handle, chain);
    case StoreNext => StoreNextKeeps(l, s);
    case LookUsed => LookUsedKeeps(l, s);
    case ReadUsed => ReadUsedKeeps(l, s);
    case Release(h) => DoReleaseKeeps(l, s, h);
    case ArmDriver => ArmDriverKeeps(l, s, Le(s.b.driver.consumed, 2));
    case Touch(at, bytes) => DoTouchKeeps(l, s, at, bytes);
  }

  lemma DeviceNextKeeps(l: Lane, s: System, step: Step)
    requires l.Valid() && l.Queue().size > 0 && Inv(l, s) && !DriverStep(step)
    ensures Inv(l, Next(l, s, step))
  {
    hide Inv;
    match step
    case LookAvailable => LookAvailableKeeps(l, s);
    case ReadEntry(handle, capacity) => ReadEntryKeeps(l, s, handle, capacity);
    case ReadDescriptor => ReadDescriptorKeeps(l, s);
    case GiveBack(h) => GiveBackKeeps(l, s, h);
    case MoveTo(h, handle, capacity) => MoveToKeeps(l, s, h, handle, capacity);
    case Append(h, bytes) => AppendKeeps(l, s, h, bytes);
    case StoreUsed(h) => StoreUsedKeeps(l, s, h);
    case StoreUsedIndex => StoreUsedIndexKeeps(l, s);
    case ArmDevice => ArmDeviceKeeps(l, s, Le(s.b.device.consumed, 2));
  }

  /** Every step of either side keeps the invariant, whatever the other side is in the middle of. */
  lemma NextKeeps(l: Lane, s: System, step: Step)
    requires l.Valid() && l.Queue().size > 0 && Inv(l, s)
    ensures Inv(l, Next(l, s, step))
  {
    hide Inv;
    if DriverStep(step) { DriverNextKeeps(l, s, step); } else { DeviceNextKeeps(l, s, step); }
  }

  lemma {:induction false} RunKeeps(l: Lane, s: System, steps: seq<Step>)
    requires l.Valid() && l.Queue().size > 0 && Initial(l, s)
    ensures Inv(l, Run(l, s, steps))
    decreases |steps|
  {
    if steps == [] {
      InitialInv(l, s);
    } else {
      RunKeeps(l, s, steps[..|steps| - 1]);
      NextKeeps(l, Run(l, s, steps[..|steps| - 1]), steps[|steps| - 1]);
    }
  }

  /** In no interleaving does either side meet anything it takes for a fault. */
  lemma NeverFaults(l: Lane, s: System, steps: seq<Step>)
    requires l.Valid() && l.Queue().size > 0 && Initial(l, s)
    ensures !Run(l, s, steps).faulted
  {
    RunKeeps(l, s, steps);
  }

  /** Both endpoints stay consistent and the private 16-bit counters are the counts modulo 65536. */
  lemma EndsConsistent(l: Lane, s: System, steps: seq<Step>)
    requires l.Valid() && l.Queue().size > 0 && Initial(l, s)
    ensures var b := Run(l, s, steps).b;
            && Consistent(l, Driver, b.driver) && Consistent(l, Device, b.device)
            && b.driver.produced == |b.published| % U16 && b.driver.consumed == b.reaped % U16
            && b.device.produced == |b.completed| % U16 && b.device.consumed == b.taken % U16
  {
    RunKeeps(l, s, steps);
  }

  /** In every run, what the driver owns is in exactly one place. */
  lemma RunConserves(l: Lane, s: System, steps: seq<Step>)
    requires l.Valid() && l.Queue().size > 0 && Initial(l, s)
    ensures var b := Run(l, s, steps).b;
            && b.reaped <= |b.completed| <= b.taken <= |b.published|
            && b.driver.owned == (if b.preparing.Some? then 1 else 0) + (|b.published| - b.taken)
                                 + b.device.owned + (|b.completed| - b.reaped) + |Unreleased(b)|
            && b.driver.owned <= l.Queue().maxOutstanding
  {
    RunKeeps(l, s, steps);
    Conserved(Run(l, s, steps).b);
  }

  // ------------------------------------------------------------ exactly once

  ghost predicate CompletedAs(b: Ledger, p: nat, j: nat) {
    j < |b.completed| && b.completed[j].publication == p
  }

  ghost predicate ServedAs(b: Ledger, p: nat, h: nat) {
    h in b.phase && b.phase[h].Serving? && b.phase[h].publication == p
  }

  /** The publications answered so far. */
  ghost function CompletedSet(b: Ledger, n: nat): set<nat>
    requires n <= |b.completed|
  {
    set j: nat | j < n :: b.completed[j].publication
  }

  lemma {:induction false} CompletedCount(b: Ledger, n: nat)
    requires n <= |b.completed|
    requires forall i, j :: 0 <= i < j < |b.completed| ==> b.completed[i].publication != b.completed[j].publication
    ensures |CompletedSet(b, n)| == n
  {
    if n > 0 {
      CompletedCount(b, n - 1);
      assert CompletedSet(b, n) == CompletedSet(b, n - 1) + {b.completed[n - 1].publication};
    }
  }

  /** The publication served at `h`, if one is. */
  ghost function Serves(b: Ledger, h: nat): nat {
    if ServingAt(b, h) then b.phase[h].publication else 0
  }

  ghost function ServedSet(b: Ledger, heads: set<nat>): set<nat> {
    set h | h in heads :: Serves(b, h)
  }

  lemma {:induction false} ServedCount(b: Ledger, heads: set<nat>)
    requires forall h, k :: h in heads && k in heads && h != k ==> Serves(b, h) != Serves(b, k)
    ensures |ServedSet(b, heads)| == |heads|
  {
    if heads != {} {
      var h :| h in heads;
      ServedCount(b, heads - {h});
      assert ServedSet(b, heads) == ServedSet(b, heads - {h}) + {Serves(b, h)};
    }
  }

  lemma ServedDistinct(b: Ledger, h: nat, k: nat)
    requires Phases(b) && ServingAt(b, h) && ServingAt(b, k) && h != k
    ensures b.phase[h].publication != b.phase[k].publication
  {
    assert PhaseOk(b, h, b.phase[h]) && PhaseOk(b, k, b.phase[k]);
  }

  lemma ServedNotCompleted(b: Ledger, p: nat, h: nat)
    requires Once(b) && ServedAs(b, p, h)
    ensures forall j :: 0 <= j < |b.completed| ==> b.completed[j].publication != p
  {
    forall j | 0 <= j < |b.completed| ensures b.completed[j].publication != p {
      assert NotYet(b.phase[h], b.completed[j].publication);
    }
  }

  /** The publications served right now: as many as chains the device holds, none of them answered. */
  lemma ServedPublications(b: Ledger)
    requires Tables(b.device) && Phases(b) && Once(b)
    ensures |ServedSet(b, HeldHeads(b.device.slots))| == b.device.owned
    ensures forall p :: p in ServedSet(b, HeldHeads(b.device.slots)) ==> p < b.taken && exists h :: ServedAs(b, p, h)
    ensures ServedSet(b, HeldHeads(b.device.slots)) !! CompletedSet(b, |b.completed|)
  {
    var heads := HeldHeads(b.device.slots);
    forall h, k | h in heads && k in heads && h != k ensures Serves(b, h) != Serves(b, k) {
      assert ServingAt(b, h) && ServingAt(b, k);
      ServedDistinct(b, h, k);
    }
    ServedCount(b, heads);
    forall p | p in ServedSet(b, heads)
      ensures p < b.taken && (exists h :: ServedAs(b, p, h)) && p !in CompletedSet(b, |b.completed|)
    {
      var h :| h in heads && Serves(b, h) == p;
      assert ServingAt(b, h) && PhaseOk(b, h, b.phase[h]);
      assert ServedAs(b, p, h);
      ServedNotCompleted(b, p, h);
    }
  }

  /** No publication taken by the device is lost: it is being served or it was answered. */
  lemma TakenIsSomewhere(b: Ledger, p: nat)
    requires Tables(b.device) && Counts(b) && Phases(b) && Once(b) && p < b.taken
    ensures (exists j :: CompletedAs(b, p, j)) || (exists h :: ServedAs(b, p, h))
  {
    var done, served := CompletedSet(b, |b.completed|), ServedSet(b, HeldHeads(b.device.slots));
    CompletedCount(b, |b.completed|);
    ServedPublications(b);
    FillsRange(done, served, b.taken);
    if p in done {
      var j: nat :| j < |b.completed| && b.completed[j].publication == p;
      assert CompletedAs(b, p, j);
    }
  }

  /** Every publication is at every moment waiting, being served, or answered - one of the three, and once. */
  lemma ExactlyOnce(l: Lane, s: System, steps: seq<Step>, p: nat)
    requires l.Valid() && l.Queue().size > 0 && Initial(l, s) && p < |Run(l, s, steps).b.published|
    ensures var b := Run(l, s, steps).b;
            && (p < b.taken <==> (exists j :: CompletedAs(b, p, j)) || (exists h :: ServedAs(b, p, h)))
            && !((exists j :: CompletedAs(b, p, j)) && (exists h :: ServedAs(b, p, h)))
            && (forall i, j :: CompletedAs(b, p, i) && CompletedAs(b, p, j) ==> i == j)
            && (forall h, k :: ServedAs(b, p, h) && ServedAs(b, p, k) ==> h == k)
  {
    RunKeeps(l, s, steps);
    var b := Run(l, s, steps).b;
    OnceEach(b, p);
  }

  lemma OnceEach(b: Ledger, p: nat)
    requires Tables(b.device) && Counts(b) && Phases(b) && Once(b) && p < |b.published|
    ensures p < b.taken <==> (exists j :: CompletedAs(b, p, j)) || (exists h :: ServedAs(b, p, h))
    ensures !((exists j :: CompletedAs(b, p, j)) && (exists h :: ServedAs(b, p, h)))
    ensures forall i, j :: CompletedAs(b, p, i) && CompletedAs(b, p, j) ==> i == j
    ensures forall h, k :: ServedAs(b, p, h) && ServedAs(b, p, k) ==> h == k
  {
    if p < b.taken { TakenIsSomewhere(b, p); }
    forall h: nat | ServedAs(b, p, h) ensures p < b.taken && forall j :: !CompletedAs(b, p, j) {
      assert PhaseOk(b, h, b.phase[h]);
      ServedNotCompleted(b, p, h);
    }
    forall h: nat, k: nat | ServedAs(b, p, h) && ServedAs(b, p, k) ensures h == k {
      if h != k { ServedDistinct(b, h, k); }
    }
  }

  /** The chain at `h` is the last one the device took, and no response byte was written for it. */
  ghost predicate LastUntouched(b: Ledger, h: nat) {
    && b.device.lastTaken.Some? && h in b.phase && b.phase[h].Serving?
    && b.phase[h].publication + 1 == b.taken && b.phase[h].response == []
  }

  ghost predicate Returnable(b: Ledger, h: nat) {
    h < U16 && h < |b.device.slots| && b.device.slots[h].Held? && MayReturn(Device, b.device, b.device.slots[h].handle, h)
  }

  lemma ReturnableIsLast(b: Ledger, h: nat)
    requires HandlesDistinct(b.device.slots) && Phases(b) && LastTakenOk(b) && Returnable(b, h)
    ensures LastUntouched(b, h)
  {
    var last := b.published[b.taken - 1].wire.head as nat;
    assert last == h;
    assert PhaseOk(b, h, b.phase[h]);
  }

  lemma LastIsReturnable(l: Lane, b: Ledger, h: nat)
    requires l.index < |l.queues| && SlotsOk(l, Device, b.device.slots) && |b.device.slots| < U16
    requires Phases(b) && LastTakenOk(b) && LastUntouched(b, h)
    ensures Returnable(b, h)
  {
    assert PhaseOk(b, h, b.phase[h]);
    assert SlotOk(l, Device, h, b.device.slots[h]);
  }

  /** The device can give a chain back exactly when it is the last one it took, with nothing given back or completed in its
      place since, and no response byte was written; it then waits again as the publication it was. */
  lemma GivesBackExactly(l: Lane, s: System, steps: seq<Step>, h: nat)
    requires l.Valid() && l.Queue().size > 0 && Initial(l, s)
    ensures var r := Run(l, s, steps); var r' := Next(l, r, GiveBack(h));
            && (r' != r <==> r.serving.DeviceIdle? && LastUntouched(r.b, h))
            && (r' != r ==> r'.b.taken == r.b.taken - 1 && r'.b.phase == r.b.phase[h := Queued(r.b.phase[h].publication)]
                            && r'.memory == r.memory && r'.b.device.owned == r.b.device.owned - 1)
  {
    RunKeeps(l, s, steps);
    GiveBackMeans(l, Run(l, s, steps), h);
  }

  lemma GiveBackMeans(l: Lane, r: System, h: nat)
    requires l.Valid() && l.Queue().size > 0 && Inv(l, r)
    ensures var r' := Next(l, r, GiveBack(h));
            && (r' != r <==> r.serving.DeviceIdle? && LastUntouched(r.b, h))
            && (r' != r ==> r'.b.taken == r.b.taken - 1 && r'.b.phase == r.b.phase[h := Queued(r.b.phase[h].publication)]
                            && r'.memory == r.memory && r'.b.device.owned == r.b.device.owned - 1)
  {
    hide MemoryOk, DriverCallOk, DeviceCallOk, Once, Phases, LastTakenOk, LastUntouched, SlotsOk, HandlesDistinct, Mark;
    LaneQueueOk(l);
    if Returnable(r.b, h) { ReturnableIsLast(r.b, h); }
    if LastUntouched(r.b, h) { LastIsReturnable(l, r.b, h); }
    if h < |r.b.device.slots| && r.b.device.slots[h].Held? { OwnedPositive(l, r.b, h); }
    LastPhase(r.b, h);
  }

  lemma LastPhase(b: Ledger, h: nat)
    ensures LastUntouched(b, h) ==> h in b.phase && b.phase[h].Serving? && b.phase[h].publication == b.taken - 1
  {
  }

  lemma OwnedPositive(l: Lane, b: Ledger, h: nat)
    requires l.index < |l.queues| && Ends(l, b) && Counts(b) && h < |b.device.slots| && b.device.slots[h].Held?
    ensures b.device.owned > 0 && b.taken > 0
    ensures Drop(b.device, h).owned == b.device.owned - 1
  {
    assert h in HeldHeads(b.device.slots);
  }

  /** The device can append exactly what still fits: as long as the response stays within the writable part of the published
      chain and its length within 32 bits, the bytes are added; otherwise nothing changes. */
  lemma AppendsExactly(l: Lane, s: System, steps: seq<Step>, h: nat, bytes: seq<byte>)
    requires l.Valid() && l.Queue().size > 0 && Initial(l, s)
    requires var r := Run(l, s, steps); r.serving.DeviceIdle? && h in r.b.phase && r.b.phase[h].Serving?
    ensures var r := Run(l, s, steps); var r', p := Next(l, r, Append(h, bytes)), r.b.phase[h];
            && p.publication < |r.b.published| && !r'.faulted
            && var size := |p.response| + |bytes|;
               if size <= Total(r.b.published[p.publication].wire.segments, true) && size < U32
               then r'.b.phase == r.b.phase[h := Serving(p.publication, p.response + bytes)]
               else r' == r
  {
    RunKeeps(l, s, steps);
    AppendMeans(l, Run(l, s, steps), h, bytes);
  }

  lemma AppendMeans(l: Lane, r: System, h: nat, bytes: seq<byte>)
    requires l.Valid() && l.Queue().size > 0 && Inv(l, r) && r.serving.DeviceIdle? && h in r.b.phase && r.b.phase[h].Serving?
    ensures var r', p := Next(l, r, Append(h, bytes)), r.b.phase[h];
            && p.publication < |r.b.published| && !r'.faulted
            && var size := |p.response| + |bytes|;
               if size <= Total(r.b.published[p.publication].wire.segments, true) && size < U32
               then r'.b.phase == r.b.phase[h := Serving(p.publication, p.response + bytes)]
               else r' == r
  {
    hide MemoryOk, DriverCallOk, DeviceCallOk, Once, LastTakenOk, Scatter, Total, Write, Ends, Phases, Counts, ChannelValid;
    ServedTable(l, r.b, h);
  }

  /** What the device's table says of a chain it serves. */
  lemma ServedTable(l: Lane, b: Ledger, h: nat)
    requires l.Valid() && Ends(l, b) && Phases(b) && h in b.phase && b.phase[h].Serving?
    ensures h < |b.device.slots| && h < U16 && b.device.slots[h].Held? && b.phase[h].publication < |b.published|
    ensures var c, p := b.device.slots[h].chain, b.phase[h];
            && c.state.Accepted? && c.written == |p.response| && c.wire == b.published[p.publication].wire
            && c.writable == Total(c.wire.segments, true)
  {
    hide Total;
    LaneQueueOk(l);
    assert PhaseOk(b, h, b.phase[h]);
    assert SlotOk(l, Device, h, b.device.slots[h]);
  }

  /** The driver can release exactly the chains it has back, and each then leaves the lane. */
  lemma ReleasesExactly(l: Lane, s: System, steps: seq<Step>, h: nat)
    requires l.Valid() && l.Queue().size > 0 && Initial(l, s) && Run(l, s, steps).driving.DriverIdle?
    ensures var r := Run(l, s, steps); var r' := Next(l, r, Release(h));
            && (r' != r <==> h in r.b.phase && r.b.phase[h].Back?)
            && (r' != r ==> r'.b.phase == r.b.phase - {h} && r'.memory == r.memory && r'.b.driver.owned == r.b.driver.owned - 1)
  {
    RunKeeps(l, s, steps);
    ReleaseMeans(l, Run(l, s, steps), h);
  }

  lemma ReleaseMeans(l: Lane, r: System, h: nat)
    requires l.Valid() && l.Queue().size > 0 && Inv(l, r) && r.driving.DriverIdle?
    ensures var r' := Next(l, r, Release(h));
            && (r' != r <==> h in r.b.phase && r.b.phase[h].Back?)
            && (r' != r ==> r'.b.phase == r.b.phase - {h} && r'.memory == r.memory && r'.b.driver.owned == r.b.driver.owned - 1)
  {
    hide MemoryOk, DriverCallOk, DeviceCallOk, Once, LastTakenOk, Ends, Phases, Counts, ChannelValid, Mark;
    ReturnedIsBack(l, r.b, h);
    if h in r.b.phase { assert h !in r.b.phase - {h}; }
  }

  lemma ReturnedIsBack(l: Lane, b: Ledger, h: nat)
    requires l.index < |l.queues| && Ends(l, b) && Phases(b)
    ensures (h < |b.driver.slots| && b.driver.slots[h].Held? && b.driver.slots[h].chain.state.Returned?)
            <==> h in b.phase && b.phase[h].Back?
    ensures h < |b.driver.slots| && b.driver.slots[h].Held? ==> b.driver.owned > 0
  {
    if h in b.phase { assert PhaseOk(b, h, b.phase[h]); }
    if h < |b.driver.slots| && b.driver.slots[h].Held? { assert h in HeldHeads(b.driver.slots); }
  }

  /** Deliveries are the completions in order: the j-th chain the driver got back is the j-th the device
      completed, with the length of what the device wrote. */
  lemma DeliveredInOrder(l: Lane, s: System, steps: seq<Step>, j: nat)
    requires l.Valid() && l.Queue().size > 0 && Initial(l, s) && j < |Run(l, s, steps).b.delivered|
    ensures var b := Run(l, s, steps).b;
            && j < |b.completed| && b.completed[j].publication < |b.published|
            && b.delivered[j] == Delivery(b.published[b.completed[j].publication].handle, |b.completed[j].response|)
  {
    RunKeeps(l, s, steps);
    assert Delivered(Run(l, s, steps).b, j);
  }

  // -------------------------------------------------------------- end to end

  /** A chain the device holds is the chain that was published, and its request bytes are those that
      were in memory when the driver published it. */
  lemma DeviceSeesPublication(l: Lane, s: System, steps: seq<Step>, h: nat)
    requires l.Valid() && l.Queue().size > 0 && Initial(l, s)
    requires h < |Run(l, s, steps).b.device.slots| && Run(l, s, steps).b.device.slots[h].Held?
    ensures var r := Run(l, s, steps);
            h in r.b.phase && r.b.phase[h].Serving? && r.b.phase[h].publication < |r.b.published|
    ensures var r := Run(l, s, steps);
            var publication, w := r.b.published[r.b.phase[h].publication], r.b.device.slots[h].chain.wire;
            w == publication.wire && Gather(r.memory, w.segments, false) == publication.request
  {
    RunKeeps(l, s, steps);
    var b := Run(l, s, steps).b;
    assert ServingAt(b, h) && PhaseOk(b, h, b.phase[h]) && ChainOk(l.Queue(), b, h, Run(l, s, steps).memory);
  }

  /** A chain the driver took back holds exactly the bytes the device wrote for it. */
  lemma DriverSeesResponse(l: Lane, s: System, steps: seq<Step>, h: nat)
    requires l.Valid() && l.Queue().size > 0 && Initial(l, s)
    requires h < |Run(l, s, steps).b.driver.slots| && Run(l, s, steps).b.driver.slots[h].Held?
    requires Run(l, s, steps).b.driver.slots[h].chain.state.Returned?
    ensures var r := Run(l, s, steps);
            h in r.b.phase && r.b.phase[h].Back? && r.b.phase[h].completion < |r.b.completed|
    ensures var r := Run(l, s, steps);
            var c, completion := r.b.driver.slots[h].chain, r.b.completed[r.b.phase[h].completion];
            && completion.publication == r.b.phase[h].publication < |r.b.published|
            && r.b.published[completion.publication].wire == c.wire
            && c.usedLength == |completion.response| <= Total(c.wire.segments, true)
            && Gather(r.memory, c.wire.segments, true)[..c.usedLength] == completion.response
  {
    RunKeeps(l, s, steps);
    ReturnedHolds(l.Queue(), Run(l, s, steps).b, Run(l, s, steps).memory, h);
  }

  lemma ReturnedHolds(q: Queue, b: Ledger, m: Memory, h: nat)
    requires Phases(b) && ChainsOk(q, b, m)
    requires h < |b.driver.slots| && b.driver.slots[h].Held? && b.driver.slots[h].chain.state.Returned?
    ensures h in b.phase && b.phase[h].Back? && b.phase[h].completion < |b.completed|
    ensures var c, completion := b.driver.slots[h].chain, b.completed[b.phase[h].completion];
            && completion.publication == b.phase[h].publication < |b.published|
            && b.published[completion.publication].wire == c.wire
            && c.usedLength == |completion.response| <= Total(c.wire.segments, true)
            && Gather(m, c.wire.segments, true)[..c.usedLength] == completion.response
  {
    hide Laid;
    assert h in HeldHeads(b.driver.slots);
    assert PhaseOk(b, h, b.phase[h]) && ChainOk(q, b, h, m);
    PrefixIs(b.completed[b.phase[h].completion].response, Gather(m, WireOf(b, h).segments, true));
  }

  lemma PrefixIs(r: seq<byte>, g: seq<byte>)
    requires r <= g
    ensures |r| <= |g| && g[..|r|] == r
  {
  }
}
