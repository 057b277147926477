/** The event-index handshake between a publishing and a sleeping side, with store buffers.

    A store first enters its side's buffer and reaches memory later; a fence passes only when the
    buffer is empty. The producer stores its index, fences, loads the event word and decides
    whether to notify. The consumer stores its event word, fences, loads the index and sleeps if
    nothing is there. `fences` says whether fences do their work. Counts are unbounded; the words
    in memory are 16 bits wide.
 */
module Doorbell {
  import opened Bytes
  import opened Endpoint
  import opened Wrap

  const WINDOW: nat := 32768

  datatype Producer = Ready | Stored | Fenced
  datatype Consumer = Awake | Arming | Armed | Asleep

  datatype Handshake = Handshake(
    produced: nat, producing: Producer, indexBuffer: seq<nat>, index: nat,
    consumed: nat, consuming: Consumer, eventBuffer: seq<nat>, event: nat,
    bell: bool)

  datatype Step =
    | StoreIndex | DrainIndex | FenceIndex | LoadEvent
    | StoreEvent | DrainEvent | FenceEvent | LoadIndex
    | Consume | GiveBack | Hear | Stir

  /** The producer's decision when it loads the event word. */
  predicate Notifies(s: Handshake)
    requires s.produced > 0
  {
    MustNotify(Index16(s.produced - 1), Index16(s.produced), Index16(s.event))
  }

  /** The consumer's decision when it loads the index: is there anything to take? */
  predicate Finds(s: Handshake) {
    Minus16(Index16(s.index), Index16(s.consumed)) != 0
  }

  function Next(s: Handshake, step: Step, fences: bool): Handshake {
    match step
    case StoreIndex =>
      if s.producing.Ready? && s.produced - s.consumed < WINDOW
      then s.(produced := s.produced + 1, indexBuffer := s.indexBuffer + [s.produced + 1], producing := Stored) else s
    case DrainIndex =>
      if s.indexBuffer != [] then s.(index := s.indexBuffer[0], indexBuffer := s.indexBuffer[1..]) else s
    case FenceIndex =>
      if s.producing.Stored? && (s.indexBuffer == [] || !fences) then s.(producing := Fenced) else s
    case LoadEvent =>
      if s.producing.Fenced? && s.produced > 0 then s.(producing := Ready, bell := s.bell || Notifies(s)) else s
    case StoreEvent =>
      if s.consuming.Awake? then s.(eventBuffer := s.eventBuffer + [s.consumed], consuming := Arming) else s
    case DrainEvent =>
      if s.eventBuffer != [] then s.(event := s.eventBuffer[0], eventBuffer := s.eventBuffer[1..]) else s
    case FenceEvent =>
      if s.consuming.Arming? && (s.eventBuffer == [] || !fences) then s.(consuming := Armed) else s
    case LoadIndex =>
      if s.consuming.Armed? then s.(consuming := if Finds(s) then Awake else Asleep) else s
    case Consume =>
      if s.consuming.Awake? && Finds(s) then s.(consumed := s.consumed + 1) else s
    case GiveBack =>
      if s.consuming.Awake? && s.consumed > 0 && s.produced - s.consumed < WINDOW then s.(consumed := s.consumed - 1) else s
    case Hear =>
      if s.consuming.Asleep? && s.bell then s.(consuming := Awake, bell := false) else s
    case Stir =>
      if s.consuming.Asleep? then s.(consuming := Awake) else s
  }

  function Run(s: Handshake, steps: seq<Step>, fences: bool): Handshake {
    if steps == [] then s else Next(Run(s, steps[..|steps| - 1], fences), steps[|steps| - 1], fences)
  }

  /** Both sides freshly bound; the event word may hold anything. */
  function Initial(event: nat): Handshake {
    Handshake(0, Ready, [], 0, 0, Awake, [], event, false)
  }

  // --------------------------------------------------------------- invariant

  /** The index in memory trails the producer by at most the one store still buffered. */
  ghost predicate Buffers(s: Handshake) {
    && (s.indexBuffer == [] || s.indexBuffer == [s.produced])
    && s.produced == s.index + |s.indexBuffer|
    && (s.indexBuffer != [] ==> s.producing.Stored?)
    && (!s.producing.Ready? ==> s.produced > 0)
    && (s.eventBuffer == [] || s.eventBuffer == [s.consumed])
    && (s.eventBuffer != [] ==> s.consuming.Arming?)
    && s.consumed <= s.index && s.produced - s.consumed <= WINDOW
  }

  /** Once armed, and while asleep, the event word in memory is the count the consumer stopped at. */
  ghost predicate EventStands(s: Handshake) {
    && (s.consuming.Arming? && s.eventBuffer == [] ==> s.event == s.consumed)
    && (s.consuming.Armed? || s.consuming.Asleep? ==> s.event == s.consumed && s.eventBuffer == [])
  }

  /** A publication past the sleeper's count has rung the bell or has still to look at the event word. */
  ghost predicate Heard(s: Handshake) {
    s.consuming.Asleep? ==> s.index == s.consumed || s.bell || (!s.producing.Ready? && s.produced == s.consumed + 1)
  }

  ghost predicate Inv(s: Handshake) {
    Buffers(s) && EventStands(s) && Heard(s)
  }

  /** A publication notifies exactly when the event word it loads is the index it moved on from. */
  lemma NotifiesExactly(before: u16, threshold: u16)
    ensures MustNotify(before, Next16(before), threshold) <==> threshold == before
  {
  }

  lemma NotifyMeans(s: Handshake)
    requires s.produced > 0
    ensures Notifies(s) <==> Index16(s.event) == Index16(s.produced - 1)
  {
    NextIndex(s.produced - 1);
    NotifiesExactly(Index16(s.produced - 1), Index16(s.event));
  }

  lemma FindsExactly(s: Handshake)
    requires s.consumed <= s.index <= s.consumed + WINDOW
    ensures Finds(s) <==> s.index > s.consumed
  {
    DistanceIsExact(s.index, s.consumed);
  }

  predicate ProducerStep(step: Step) {
    step.StoreIndex? || step.DrainIndex? || step.FenceIndex? || step.LoadEvent?
  }

  lemma ProducerKeeps(s: Handshake, step: Step)
    requires Inv(s) && ProducerStep(step)
    ensures Inv(Next(s, step, true))
  {
    hide Finds;
    if s.produced > 0 { NotifyMeans(s); }
  }

  lemma ConsumerKeeps(s: Handshake, step: Step)
    requires Inv(s) && !ProducerStep(step)
    ensures Inv(Next(s, step, true))
  {
    FindsExactly(s);
  }

  lemma NextKeeps(s: Handshake, step: Step)
    requires Inv(s)
    ensures Inv(Next(s, step, true))
  {
    if ProducerStep(step) { ProducerKeeps(s, step); } else { ConsumerKeeps(s, step); }
  }

  lemma {:induction false} RunKeeps(event: nat, steps: seq<Step>)
    ensures Inv(Run(Initial(event), steps, true))
    decreases |steps|
  {
    if steps != [] {
      RunKeeps(event, steps[..|steps| - 1]);
      NextKeeps(Run(Initial(event), steps[..|steps| - 1], true), steps[|steps| - 1]);
    }
  }

  // ---------------------------------------------------------------- theorems

  /** No lost wakeup: whenever the consumer sleeps while something is there and no publication is
      under way, a notification is pending. */
  lemma NoLostWakeup(event: nat, steps: seq<Step>)
    ensures var s := Run(Initial(event), steps, true);
            s.consuming.Asleep? && s.produced > s.consumed && s.producing.Ready? ==> s.bell
  {
    RunKeeps(event, steps);
  }

  /** Where the event word may be after an arm that stopped at `count`; without another arm it is that count. */
  ghost predicate Near(t: Handshake, count: nat, rearmed: bool) {
    && count <= t.produced
    && (t.produced <= count + 1 ==> count <= t.event + WINDOW && t.event <= count + 1)
    && (!rearmed ==> t.event == count && t.eventBuffer == [])
  }

  lemma NearKeeps(s: Handshake, step: Step, count: nat, rearmed: bool)
    requires Inv(s) && Near(s, count, rearmed)
    ensures Near(Next(s, step, true), count, rearmed || step == StoreEvent)
  {
    hide Notifies, Finds, Heard;
  }

  lemma {:induction false} AfterQuiet(event: nat, quiet: seq<Step>, more: seq<Step>)
    requires Run(Initial(event), quiet, true).consuming.Asleep?
    ensures Near(Run(Initial(event), quiet + more, true), Run(Initial(event), quiet, true).consumed, StoreEvent in more)
    decreases |more|
  {
    if more == [] {
      assert quiet + more == quiet;
      RunKeeps(event, quiet);
    } else {
      var front, last := more[..|more| - 1], more[|more| - 1];
      AfterQuiet(event, quiet, front);
      RunKeeps(event, quiet + front);
      assert (quiet + more)[..|quiet + more| - 1] == quiet + front;
      NearKeeps(Run(Initial(event), quiet + front, true), last, Run(Initial(event), quiet, true).consumed, StoreEvent in front);
      assert more == front + [last];
      hide Next, Inv, Near;
    }
  }

  lemma WordsNear(a: nat, b: nat)
    requires b <= a + WINDOW && a <= b + 1
    ensures Index16(a) == Index16(b) <==> a == b
  {
    if a <= b { DistanceIsExact(b, a); } else { DistanceIsExact(a, b); }
  }

  lemma NearNotifies(t: Handshake, count: nat, rearmed: bool)
    requires Near(t, count, rearmed) && t.produced == count + 1
    ensures Notifies(t) <==> t.event == count
    ensures !rearmed ==> Notifies(t)
  {
    hide Notifies, Index16;
    NotifyMeans(t);
    WordsNear(t.event, count);
  }

  /** An arm stopped at a count and found nothing; the first publication past that count notifies exactly when the event
      word still names the count, and in particular when the consumer did not arm again. */
  lemma FirstPublicationNotifies(event: nat, quiet: seq<Step>, more: seq<Step>)
    requires var s, t := Run(Initial(event), quiet, true), Run(Initial(event), quiet + more, true);
             s.consuming.Asleep? && t.producing.Fenced? && t.produced == s.consumed + 1
    ensures var s, t := Run(Initial(event), quiet, true), Run(Initial(event), quiet + more, true);
            && (Notifies(t) <==> t.event == s.consumed)
            && (StoreEvent !in more ==> Notifies(t))
  {
    hide Run, Notifies, Near;
    AfterQuiet(event, quiet, more);
    NearNotifies(Run(Initial(event), quiet + more, true), Run(Initial(event), quiet, true).consumed, StoreEvent in more);
  }

  /** From any reachable state, the producer finishing the call it is in wakes a sleeper that has
      something to take. */
  lemma ProducerWakes(event: nat, steps: seq<Step>)
    ensures var s := Run(Initial(event), steps, true);
            var t := Next(Next(Next(s, DrainIndex, true), FenceIndex, true), LoadEvent, true);
            && t.producing.Ready? && t.produced == s.produced && t.consumed == s.consumed && t.consuming == s.consuming
            && (t.consuming.Asleep? && t.produced > t.consumed ==> t.bell)
  {
    RunKeeps(event, steps);
    CallWakes(Run(Initial(event), steps, true));
  }

  lemma CallWakes(s: Handshake)
    requires Inv(s)
    ensures var t := Next(Next(Next(s, DrainIndex, true), FenceIndex, true), LoadEvent, true);
            && t.producing.Ready? && t.produced == s.produced && t.consumed == s.consumed && t.consuming == s.consuming
            && (t.consuming.Asleep? && t.produced > t.consumed ==> t.bell)
  {
    var a := Next(s, DrainIndex, true);
    NextKeeps(s, DrainIndex);
    assert a == s.(index := s.produced, indexBuffer := []);
    var b := Next(a, FenceIndex, true);
    NextKeeps(a, FenceIndex);
    assert b == a.(producing := if a.producing.Stored? then Fenced else a.producing);
    NextKeeps(b, LoadEvent);
  }

  // --------------------------------------------------- why the conditions matter

  lemma Then(s: Handshake, xs: seq<Step>, x: Step, fences: bool) returns (ys: seq<Step>)
    ensures ys == xs + [x] && Run(s, ys, fences) == Next(Run(s, xs, fences), x, fences)
  {
    ys := xs + [x];
    assert ys[..|xs|] == xs;
  }

  /** A consumer that arms before anything is published goes to sleep. */
  lemma QuietArm() returns (quiet: seq<Step>)
    ensures Run(Initial(0), quiet, true) == Handshake(0, Ready, [], 0, 0, Asleep, [], 0, false)
  {
    quiet := Then(Initial(0), [], StoreEvent, true);
    quiet := Then(Initial(0), quiet, DrainEvent, true);
    quiet := Then(Initial(0), quiet, FenceEvent, true);
    assert Run(Initial(0), quiet, true) == Handshake(0, Ready, [], 0, 0, Armed, [], 0, false);
    quiet := Then(Initial(0), quiet, LoadIndex, true);
  }

  /** The word in memory decides, not the last arm: after an arm that found nothing, a consumer that
      polls and arms again between a publication's store and its load silences that publication. */
  lemma RearmSilences() returns (quiet: seq<Step>, steps: seq<Step>)
    ensures quiet <= steps
    ensures var s := Run(Initial(0), quiet, true); s.consuming.Asleep? && s.produced == s.consumed == 0
    ensures var s := Run(Initial(0), steps, true); s.producing.Fenced? && s.produced == 1 && !Notifies(s)
  {
    quiet := QuietArm();
    steps := Then(Initial(0), quiet, StoreIndex, true);
    steps := Then(Initial(0), steps, DrainIndex, true);
    assert Run(Initial(0), steps, true) == Handshake(1, Stored, [], 1, 0, Asleep, [], 0, false);
    steps := Then(Initial(0), steps, FenceIndex, true);
    steps := Then(Initial(0), steps, Stir, true);
    assert Run(Initial(0), steps, true) == Handshake(1, Fenced, [], 1, 0, Awake, [], 0, false);
    steps := Then(Initial(0), steps, Consume, true);
    assert Run(Initial(0), steps, true) == Handshake(1, Fenced, [], 1, 1, Awake, [], 0, false);
    steps := Then(Initial(0), steps, StoreEvent, true);
    steps := Then(Initial(0), steps, DrainEvent, true);
    assert Run(Initial(0), steps, true) == Handshake(1, Fenced, [], 1, 1, Arming, [], 1, false);
    NotifyMeans(Run(Initial(0), steps, true));
  }

  /** Without working fences a wakeup is lost: both sides load before either store is in memory. */
  lemma FencesNeeded() returns (steps: seq<Step>)
    ensures var s := Run(Initial(5), steps, false);
            s.consuming.Asleep? && s.produced > s.consumed && s.producing.Ready? && !s.bell
            && s.indexBuffer == [] && s.eventBuffer == []
  {
    steps := Then(Initial(5), [], StoreIndex, false);
    steps := Then(Initial(5), steps, FenceIndex, false);
    assert Run(Initial(5), steps, false) == Handshake(1, Fenced, [1], 0, 0, Awake, [], 5, false);
    NotifyMeans(Run(Initial(5), steps, false));
    steps := Then(Initial(5), steps, LoadEvent, false);
    assert Run(Initial(5), steps, false) == Handshake(1, Ready, [1], 0, 0, Awake, [], 5, false);
    steps := Then(Initial(5), steps, StoreEvent, false);
    steps := Then(Initial(5), steps, FenceEvent, false);
    assert Run(Initial(5), steps, false) == Handshake(1, Ready, [1], 0, 0, Armed, [0], 5, false);
    steps := Then(Initial(5), steps, LoadIndex, false);
    assert Run(Initial(5), steps, false) == Handshake(1, Ready, [1], 0, 0, Asleep, [0], 5, false);
    steps := Then(Initial(5), steps, DrainIndex, false);
    steps := Then(Initial(5), steps, DrainEvent, false);
  }
}
