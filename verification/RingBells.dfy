/** Sleeping and waking on a lane: the interleaved ring with the accesses that decide about notifications.

    A publication ends when its side has looked at the peer's event word; an arm ends when its side has looked at
    the peer's index once more. All decisions are made from the words in memory. Each direction of the lane then
    runs the handshake of `Doorbell`, and its theorems hold of the ring.
 */
module RingBells {
  import opened Bytes
  import opened Channel
  import opened Chains
  import opened Descriptors
  import opened Endpoint
  import opened Wrap
  import opened SplitRing
  import opened RingInvariant
  import opened Conservation
  import opened RingLooks
  import opened RingEvents
  import T = RingTheorems
  import D = Doorbell

  /** Where the two sides of one direction are, the count last armed, and whether the bell rang. */
  datatype Bell = Bell(producing: D.Producer, consuming: D.Consumer, event: nat, rung: bool)

  /** `available` wakes the device, `used` wakes the driver. */
  datatype Bells = Bells(s: System, available: Bell, used: Bell)

  datatype Act =
    | Access(step: Step)
    | LoadEvent(side: Side)
    | LoadIndex(side: Side)
    | Hear(side: Side)
    | Stir(side: Side)

  /** A side that has not yet looked at the event word does not publish again, and one that is arming or asleep does
      not take or arm. */
  predicate Blocked(r: Bells, step: Step) {
    match step
    case StoreNext => !r.available.producing.Ready?
    case StoreUsedIndex => !r.used.producing.Ready?
    case ArmDevice => !r.available.consuming.Awake?
    case ReadDescriptor => !r.available.consuming.Awake?
    case GiveBack(_) => !r.available.consuming.Awake?
    case ArmDriver => !r.used.consuming.Awake?
    case ReadUsed => !r.used.consuming.Awake?
    case _ => false
  }

  function Announced(b: Bell, more: bool): Bell {
    if more then b.(producing := D.Fenced) else b
  }

  function Armed(b: Bell, count: nat): Bell {
    b.(consuming := D.Armed, event := count)
  }

  ghost function DoAccess(l: Lane, r: Bells, step: Step): Bells
    requires l.Valid() && l.Queue().size > 0
  {
    if r.s.faulted || Blocked(r, step) then r else
    var s' := Next(l, r.s, step);
    match step
    case StoreNext => r.(s := s', available := Announced(r.available, |s'.b.published| > |r.s.b.published|))
    case StoreUsedIndex => r.(s := s', used := Announced(r.used, |s'.b.completed| > |r.s.b.completed|))
    case ArmDevice => r.(s := s', available := Armed(r.available, r.s.b.taken))
    case ArmDriver => r.(s := s', used := Armed(r.used, r.s.b.reaped))
    case _ => r.(s := s')
  }

  /** The decision of a publication that moved the index to `produced`, from the word in memory. */
  function Decided(b: Bell, produced: u16, word: u16): Bell {
    if b.producing.Fenced?
    then b.(producing := D.Ready, rung := b.rung || MustNotify(Previous16(produced), produced, word)) else b
  }

  /** The decision of an arm, from what the index in memory means to its side. */
  function Looked(b: Bell, status: Status): Bell {
    if b.consuming.Armed? && status.Ok? then b.(consuming := D.Awake)
    else if b.consuming.Armed? && status.NothingPending? then b.(consuming := D.Asleep) else b
  }

  function Woken(b: Bell, heard: bool): Bell {
    if !b.consuming.Asleep? || (heard && !b.rung) then b
    else b.(consuming := D.Awake, rung := b.rung && !heard)
  }

  ghost function NextAct(l: Lane, r: Bells, act: Act): Bells
    requires l.Valid() && l.Queue().size > 0
  {
    var q, m, b := l.Queue(), r.s.memory, r.s.b;
    match act
    case Access(step) => DoAccess(l, r, step)
    case LoadEvent(side) =>
      if side.Driver? then r.(available := Decided(r.available, b.driver.produced, Load16(m, AvailableEvent(q))))
      else r.(used := Decided(r.used, b.device.produced, Load16(m, UsedEvent(q))))
    case LoadIndex(side) =>
      if side.Driver? then r.(used := Looked(r.used, Pending(q, Driver, b.driver, Load16(m, UsedIndex(q)))))
      else r.(available := Looked(r.available, Pending(q, Device, b.device, Load16(m, AvailableIndex(q)))))
    case Hear(side) => if side.Driver? then r.(used := Woken(r.used, true)) else r.(available := Woken(r.available, true))
    case Stir(side) => if side.Driver? then r.(used := Woken(r.used, false)) else r.(available := Woken(r.available, false))
  }

  ghost function RunActs(l: Lane, r: Bells, acts: seq<Act>): Bells
    requires l.Valid() && l.Queue().size > 0
  {
    if acts == [] then r else NextAct(l, RunActs(l, r, acts[..|acts| - 1]), acts[|acts| - 1])
  }

  /** Freshly bound endpoints; the event words may hold anything. */
  ghost predicate Bound(l: Lane, r: Bells)
    requires l.index < |l.queues|
  {
    && Initial(l, r.s)
    && r.available == Bell(D.Ready, D.Awake, Load16(r.s.memory, AvailableEvent(l.Queue())), false)
    && r.used == Bell(D.Ready, D.Awake, Load16(r.s.memory, UsedEvent(l.Queue())), false)
  }

  // -------------------------------------------------------------- two handshakes

  /** The handshake of one direction: every store is in memory at once. */
  function Shake(b: Bell, produced: nat, consumed: nat): D.Handshake {
    D.Handshake(produced, b.producing, [], produced, consumed, b.consuming, [], b.event, b.rung)
  }

  function Down(r: Bells): D.Handshake {
    Shake(r.available, |r.s.b.published|, r.s.b.taken)
  }

  function Up(r: Bells): D.Handshake {
    Shake(r.used, |r.s.b.completed|, r.s.b.reaped)
  }

  /** Memory holds the counts last armed. */
  ghost predicate Words(l: Lane, r: Bells)
    requires l.index < |l.queues|
  {
    && Load16(r.s.memory, AvailableEvent(l.Queue())) == Index16(r.available.event)
    && Load16(r.s.memory, UsedEvent(l.Queue())) == Index16(r.used.event)
  }

  ghost predicate Sound(l: Lane, r: Bells)
    requires l.index < |l.queues| && l.Queue().size > 0
  {
    Inv(l, r.s) && Words(l, r)
  }

  lemma CountsHold(l: Lane, s: System)
    requires l.index < |l.queues| && l.Queue().size > 0 && Inv(l, s)
    ensures !s.faulted && s.b.driver.consumed == Index16(s.b.reaped) && s.b.device.consumed == Index16(s.b.taken)
  {
  }

  lemma ArmKeepsWords(l: Lane, r: Bells, step: Step)
    requires l.Valid() && l.Queue().size > 0 && Sound(l, r) && (step.ArmDriver? || step.ArmDevice?)
    ensures Words(l, DoAccess(l, r, step))
  {
    hide Next, Load16, Inv, Index16;
    var m, m', q := r.s.memory, Next(l, r.s, step).memory, l.Queue();
    CountsHold(l, r.s);
    ArmStores(l, r.s);
    if step.ArmDriver? { LoadSame(m, m', AvailableEvent(q)); } else { LoadSame(m, m', UsedEvent(q)); }
  }

  lemma WordsKept(l: Lane, r: Bells, step: Step)
    requires l.Valid() && l.Queue().size > 0 && Sound(l, r)
    ensures Words(l, DoAccess(l, r, step))
  {
    hide Next, Load16, Inv, Index16, Blocked;
    if step.ArmDriver? || step.ArmDevice? {
      ArmKeepsWords(l, r, step);
    } else {
      var m, m', q := r.s.memory, Next(l, r.s, step).memory, l.Queue();
      StepSpares(l, r.s, step);
      LoadSame(m, m', AvailableEvent(q));
      LoadSame(m, m', UsedEvent(q));
    }
  }

  lemma SoundKept(l: Lane, r: Bells, act: Act)
    requires l.Valid() && l.Queue().size > 0 && Sound(l, r)
    ensures Sound(l, NextAct(l, r, act))
  {
    hide Inv, Next, Load16;
    if act.Access? {
      WordsKept(l, r, act.step);
      T.NextKeeps(l, r.s, act.step);
    }
  }

  // ------------------------------------------------------------------ simulation

  /** What a step can do to the four counts. */
  lemma StepCounts(l: Lane, s: System, step: Step)
    requires l.Valid() && l.Queue().size > 0
    ensures var b, b' := s.b, Next(l, s, step).b;
            && (|b'.published| == |b.published| || (step.StoreNext? && |b'.published| == |b.published| + 1))
            && (|b'.completed| == |b.completed| || (step.StoreUsedIndex? && |b'.completed| == |b.completed| + 1))
            && (b'.taken == b.taken || (step.ReadDescriptor? && b'.taken == b.taken + 1)
                || (step.GiveBack? && b'.taken == b.taken - 1))
            && (b'.reaped == b.reaped || (step.ReadUsed? && b'.reaped == b.reaped + 1))
  {
    hide Admissible, WalkStep, MayRead, UsedFits, Claim, Drop, Reap, Move, Write;
  }

  /** The handshake can go from `h` to `h'`. */
  ghost predicate Leads(h: D.Handshake, h': D.Handshake) {
    exists xs :: D.Run(h, xs, true) == h'
  }

  lemma LeadsHome(h: D.Handshake)
    ensures Leads(h, h)
  {
    assert D.Run(h, [], true) == h;
  }

  lemma LeadsBy(g: D.Handshake, h: D.Handshake, x: D.Step)
    requires Leads(g, h)
    ensures Leads(g, D.Next(h, x, true))
  {
    var xs :| D.Run(g, xs, true) == h;
    var ys := D.Then(g, xs, x, true);
  }

  lemma Announces(g: D.Handshake, b: Bell, p: nat, c: nat)
    requires Leads(g, Shake(b, p, c)) && b.producing.Ready? && c <= p < c + D.WINDOW
    ensures Leads(g, Shake(Announced(b, true), p + 1, c))
  {
    hide Leads;
    var h := Shake(b, p, c);
    LeadsBy(g, h, D.StoreIndex);
    LeadsBy(g, D.Next(h, D.StoreIndex, true), D.DrainIndex);
    LeadsBy(g, D.Next(D.Next(h, D.StoreIndex, true), D.DrainIndex, true), D.FenceIndex);
  }

  lemma Arms(g: D.Handshake, b: Bell, p: nat, c: nat)
    requires Leads(g, Shake(b, p, c)) && b.consuming.Awake?
    ensures Leads(g, Shake(Armed(b, c), p, c))
  {
    hide Leads;
    var h := Shake(b, p, c);
    LeadsBy(g, h, D.StoreEvent);
    LeadsBy(g, D.Next(h, D.StoreEvent, true), D.DrainEvent);
    LeadsBy(g, D.Next(D.Next(h, D.StoreEvent, true), D.DrainEvent, true), D.FenceEvent);
  }

  /** Taking the next one, and giving the last one back. */
  lemma Takes(g: D.Handshake, b: Bell, p: nat, c: nat, d: nat)
    requires Leads(g, Shake(b, p, c)) && b.consuming.Awake?
    requires c <= p <= c + D.WINDOW && d <= p <= d + D.WINDOW && (d == c + 1 || d == c - 1)
    ensures Leads(g, Shake(b, p, d))
  {
    hide Leads;
    D.FindsExactly(Shake(b, p, c));
    LeadsBy(g, Shake(b, p, c), if d > c then D.Consume else D.GiveBack);
  }

  lemma Decides(g: D.Handshake, b: Bell, p: nat, c: nat)
    requires Leads(g, Shake(b, p, c)) && (b.producing.Fenced? ==> p > 0)
    ensures Leads(g, Shake(Decided(b, Index16(p), Index16(b.event)), p, c))
  {
    hide Leads, Index16;
    if b.producing.Fenced? {
      PreviousIndex(p);
      LeadsBy(g, Shake(b, p, c), D.LoadEvent);
    }
  }

  lemma Looks(g: D.Handshake, b: Bell, p: nat, c: nat, status: Status)
    requires Leads(g, Shake(b, p, c)) && c <= p <= c + D.WINDOW
    requires status == if p > c then Ok else NothingPending
    ensures Leads(g, Shake(Looked(b, status), p, c))
  {
    hide Leads;
    D.FindsExactly(Shake(b, p, c));
    if b.consuming.Armed? { LeadsBy(g, Shake(b, p, c), D.LoadIndex); }
  }

  lemma Wakes(g: D.Handshake, b: Bell, p: nat, c: nat, heard: bool)
    requires Leads(g, Shake(b, p, c))
    ensures Leads(g, Shake(Woken(b, heard), p, c))
  {
    hide Leads;
    LeadsBy(g, Shake(b, p, c), if heard then D.Hear else D.Stir);
  }

  // ------------------------------------------------------------------- the run

  lemma Bounds(l: Lane, b: Ledger)
    requires l.Valid() && Ends(l, b) && Counts(b) && Phases(b)
    ensures b.taken <= |b.published| <= b.taken + D.WINDOW && b.reaped <= |b.completed| <= b.reaped + D.WINDOW
  {
    hide Ends, Phases;
    Windows(l, b);
  }

  /** An access of either side moves both handshakes along, or leaves them where they are. */
  lemma AccessFollows(l: Lane, r: Bells, step: Step, down: D.Handshake, up: D.Handshake)
    requires l.Valid() && l.Queue().size > 0 && Inv(l, r.s) && Leads(down, Down(r)) && Leads(up, Up(r))
    ensures Leads(down, Down(DoAccess(l, r, step))) && Leads(up, Up(DoAccess(l, r, step)))
  {
    hide Leads, Next, Ends, Phases, Once, MemoryOk, DriverCallOk, DeviceCallOk;
    var b, b' := r.s.b, Next(l, r.s, step).b;
    T.NextKeeps(l, r.s, step);
    StepCounts(l, r.s, step);
    Bounds(l, b);
    Bounds(l, b');
    match step
    case StoreNext =>
      if !Blocked(r, step) && |b'.published| > |b.published| { Announces(down, r.available, |b.published|, b.taken); }
    case StoreUsedIndex =>
      if !Blocked(r, step) && |b'.completed| > |b.completed| { Announces(up, r.used, |b.completed|, b.reaped); }
    case ArmDevice => if !Blocked(r, step) { Arms(down, r.available, |b.published|, b.taken); }
    case ArmDriver => if !Blocked(r, step) { Arms(up, r.used, |b.completed|, b.reaped); }
    case ReadDescriptor =>
      if !Blocked(r, step) && b'.taken != b.taken { Takes(down, r.available, |b.published|, b.taken, b'.taken); }
    case GiveBack(_) =>
      if !Blocked(r, step) && b'.taken != b.taken { Takes(down, r.available, |b.published|, b.taken, b'.taken); }
    case ReadUsed =>
      if !Blocked(r, step) && b'.reaped != b.reaped { Takes(up, r.used, |b.completed|, b.reaped, b'.reaped); }
    case _ =>
  }

  /** What the index in memory tells an armed side. */
  lemma IndexMeans(l: Lane, s: System)
    requires l.Valid() && l.Queue().size > 0 && Inv(l, s)
    ensures Pending(l.Queue(), Device, s.b.device, Load16(s.memory, AvailableIndex(l.Queue())))
            == if |s.b.published| > s.b.taken then Ok else NothingPending
    ensures Pending(l.Queue(), Driver, s.b.driver, Load16(s.memory, UsedIndex(l.Queue())))
            == if |s.b.completed| > s.b.reaped then Ok else NothingPending
  {
    hide Ends, Phases, Once, LastTakenOk, ChainsOk, DriverCallOk, DeviceCallOk;
    Windows(l, s.b);
    LoadHeld(s.memory, AvailableIndex(l.Queue()), Index16(|s.b.published|));
    LoadHeld(s.memory, UsedIndex(l.Queue()), Index16(|s.b.completed|));
  }

  /** A publication that has still to look at the event word has happened. */
  ghost predicate Owed(r: Bells) {
    && (r.available.producing.Fenced? ==> |r.s.b.published| > 0)
    && (r.used.producing.Fenced? ==> |r.s.b.completed| > 0)
  }

  lemma OwedKept(l: Lane, r: Bells, act: Act)
    requires l.Valid() && l.Queue().size > 0 && Owed(r)
    ensures Owed(NextAct(l, r, act))
  {
    hide Next, Pending, MustNotify, Load16;
    if act.Access? { StepCounts(l, r.s, act.step); }
  }

  lemma ActFollows(l: Lane, r: Bells, act: Act, down: D.Handshake, up: D.Handshake)
    requires l.Valid() && l.Queue().size > 0 && Sound(l, r) && Owed(r) && Leads(down, Down(r)) && Leads(up, Up(r))
    ensures Leads(down, Down(NextAct(l, r, act))) && Leads(up, Up(NextAct(l, r, act)))
  {
    var b := r.s.b;
    Bounds(l, b);
    assert Counts(b);
    hide Leads, DoAccess, Inv, Pending, Load16, Decided, Looked, Woken, Index16;
    match act
    case Access(step) => AccessFollows(l, r, step, down, up);
    case LoadEvent(side) =>
      if side.Driver? { Decides(down, r.available, |b.published|, b.taken); }
      else { Decides(up, r.used, |b.completed|, b.reaped); }
    case LoadIndex(side) =>
      IndexMeans(l, r.s);
      if side.Driver? { Looks(up, r.used, |b.completed|, b.reaped, if |b.completed| > b.reaped then Ok else NothingPending); }
      else { Looks(down, r.available, |b.published|, b.taken, if |b.published| > b.taken then Ok else NothingPending); }
    case Hear(side) =>
      if side.Driver? { Wakes(up, r.used, |b.completed|, b.reaped, true); }
      else { Wakes(down, r.available, |b.published|, b.taken, true); }
    case Stir(side) =>
      if side.Driver? { Wakes(up, r.used, |b.completed|, b.reaped, false); }
      else { Wakes(down, r.available, |b.published|, b.taken, false); }
  }

  /** Whatever the two sides do, the ring stays in order and each direction is a run of the handshake. */
  lemma {:induction false} RunFollows(l: Lane, r: Bells, acts: seq<Act>)
    requires l.Valid() && l.Queue().size > 0 && Bound(l, r)
    ensures var t := RunActs(l, r, acts); Sound(l, t) && Owed(t)
    ensures Leads(D.Initial(r.available.event), Down(RunActs(l, r, acts)))
    ensures Leads(D.Initial(r.used.event), Up(RunActs(l, r, acts)))
    decreases |acts|
  {
    hide Leads, NextAct, Inv;
    if acts == [] {
      InitialInv(l, r.s);
      LeadsHome(D.Initial(r.available.event));
      LeadsHome(D.Initial(r.used.event));
    } else {
      var t, act := RunActs(l, r, acts[..|acts| - 1]), acts[|acts| - 1];
      RunFollows(l, r, acts[..|acts| - 1]);
      SoundKept(l, t, act);
      OwedKept(l, t, act);
      ActFollows(l, t, act, D.Initial(r.available.event), D.Initial(r.used.event));
    }
  }

  // ------------------------------------------------------------------- theorems

  /** A side of this direction sleeps although something is there, the peer is done publishing, and nobody rang. */
  ghost predicate Oversleeps(b: Bell, produced: nat, consumed: nat) {
    b.consuming.Asleep? && produced > consumed && b.producing.Ready? && !b.rung
  }

  /** On no run over one memory does either side oversleep. */
  lemma NobodyOversleeps(l: Lane, r: Bells, acts: seq<Act>)
    requires l.Valid() && l.Queue().size > 0 && Bound(l, r)
    ensures var t := RunActs(l, r, acts);
            && !t.s.faulted
            && !Oversleeps(t.available, |t.s.b.published|, t.s.b.taken)
            && !Oversleeps(t.used, |t.s.b.completed|, t.s.b.reaped)
  {
    hide RunActs;
    RunFollows(l, r, acts);
    var t := RunActs(l, r, acts);
    var down :| D.Run(D.Initial(r.available.event), down, true) == Down(t);
    var up :| D.Run(D.Initial(r.used.event), up, true) == Up(t);
    D.NoLostWakeup(r.available.event, down);
    D.NoLostWakeup(r.used.event, up);
  }

  /** While a side is armed or asleep, its event word, behind the ring it writes, holds the count it stopped at. */
  lemma EventsAreLaidOut(l: Lane, r: Bells, acts: seq<Act>)
    requires l.Valid() && l.Queue().size > 0 && Bound(l, r)
    ensures var t := RunActs(l, r, acts); var q := l.Queue();
            && (t.used.consuming.Armed? || t.used.consuming.Asleep? ==>
                  Load16(t.s.memory, q.available + 4 + 2 * q.size) == t.s.b.reaped % 65536)
            && (t.available.consuming.Armed? || t.available.consuming.Asleep? ==>
                  Load16(t.s.memory, q.used + 4 + 8 * q.size) == t.s.b.taken % 65536)
  {
    hide RunActs, Load16, Inv, Leads;
    RunFollows(l, r, acts);
    var t := RunActs(l, r, acts);
    EventIsCount(r.available.event, t.available, |t.s.b.published|, t.s.b.taken);
    EventIsCount(r.used.event, t.used, |t.s.b.completed|, t.s.b.reaped);
  }

  lemma EventIsCount(event: nat, b: Bell, produced: nat, consumed: nat)
    requires Leads(D.Initial(event), Shake(b, produced, consumed))
    ensures b.consuming.Armed? || b.consuming.Asleep? ==> b.event == consumed
  {
    var xs :| D.Run(D.Initial(event), xs, true) == Shake(b, produced, consumed);
    D.RunKeeps(event, xs);
  }
}
