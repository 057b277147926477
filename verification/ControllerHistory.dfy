/** What the host sees of a controller over a whole run, and in which order. */
module ControllerHistory {
  import opened Bytes
  import opened Controller
  import opened ControllerRuns

  /** One line of the host's log. */
  datatype Event =
    | Emitted(action: Action)
    | Completed(action: Action, result: Status, resources: u64, sandbox: u64)
    | Exited(generation: u64)
    | Failed(generation: u64)
  {
    function Generation(): u64 {
      match this
      case Emitted(a) => a.generation
      case Completed(a, _, _, _) => a.generation
      case Exited(g) => g
      case Failed(g) => g
    }
  }

  // ------------------------------------------------------------- log to meaning

  /** Where the sandbox process of a generation is. */
  datatype Life = Never | Up | Down | Reaped

  function LifeAfter(life: Life, e: Event, g: u64): Life {
    if e.Generation() != g then life
    else if e.Exited? then Down
    else if e.Completed? && e.result.Okay? then
      match e.action.kind
      case Launch => Up
      case Quiesce => Down
      case Terminate => Down
      case Reap => Reaped
      case _ => life
    else life
  }

  function LifeOf(log: seq<Event>, g: u64): Life {
    if log == [] then Never else LifeAfter(LifeOf(log[..|log| - 1], g), log[|log| - 1], g)
  }

  predicate Achieves(e: Event, g: u64, k: Kind) {
    e.Completed? && e.result.Okay? && e.action.kind == k && e.action.generation == g
  }

  /** The host completed an action of this kind in this generation. */
  ghost predicate Achieved(log: seq<Event>, g: u64, k: Kind) {
    exists i :: 0 <= i < |log| && Achieves(log[i], g, k)
  }

  /** The identifier a completed allocation or launch brought. */
  function Identifier(e: Event, k: Kind): u64
    requires e.Completed?
  {
    if k.Launch? then e.sandbox else e.resources
  }

  /** The host completed an action of this kind in this generation, and whenever it did it brought this identifier. */
  ghost predicate Brought(log: seq<Event>, g: u64, k: Kind, id: u64) {
    && Achieved(log, g, k)
    && forall i :: 0 <= i < |log| && Achieves(log[i], g, k) ==> Identifier(log[i], k) == id
  }

  ghost predicate FailedIn(log: seq<Event>, g: u64) {
    exists i :: 0 <= i < |log| && log[i] == Failed(g)
  }

  // --------------------------------------------------------------- what is safe

  /** What must have happened in generation `g` before an action of this kind may be emitted. */
  ghost predicate Preceded(log: seq<Event>, g: u64, k: Kind, resetRequired: bool) {
    match k
    case Allocate => LifeOf(log, g).Never? && !Achieved(log, g, Revoke)
    case Launch => LifeOf(log, g).Never?
    case Transfer => LifeOf(log, g).Up?
    case Quiesce => LifeOf(log, g).Up? && !FailedIn(log, g)
    case Terminate => LifeOf(log, g).Up?
    case Revoke => !LifeOf(log, g).Up?
    case Reset => !LifeOf(log, g).Up? && Achieved(log, g, Revoke)
    case Reap => LifeOf(log, g).Down? && Achieved(log, g, Revoke) && (resetRequired ==> Achieved(log, g, Reset))
    case Release =>
      && Achieved(log, g, Revoke) && (resetRequired ==> Achieved(log, g, Reset))
      && (LifeOf(log, g).Never? || LifeOf(log, g).Reaped?)
  }

  /** An action names the resource set its generation was granted and the sandbox its generation launched, or nothing. */
  ghost predicate NamesTrue(log: seq<Event>, a: Action) {
    && (if a.kind in {Allocate, Terminate, Reap} then a.resources == 0 else Brought(log, a.generation, Allocate, a.resources))
    && (if a.kind in {Transfer, Quiesce, Terminate, Reap} then Brought(log, a.generation, Launch, a.sandbox) else a.sandbox == 0)
  }

  ghost predicate EmissionOk(log: seq<Event>, a: Action) {
    && (forall i :: 0 <= i < |log| && log[i].Emitted? ==> log[i].action.token < a.token)
    && Preceded(log, a.generation, a.kind, ResetRequired(a.configuration)) && NamesTrue(log, a)
  }

  /** An action is completed only after it was emitted, and once. */
  ghost predicate CompletionOk(log: seq<Event>, a: Action) {
    && Emitted(a) in log
    && (forall i :: 0 <= i < |log| && log[i].Completed? ==> log[i].action.token < a.token)
  }

  ghost predicate EventOk(log: seq<Event>, e: Event) {
    match e
    case Emitted(a) => EmissionOk(log, a)
    case Completed(a, _, _, _) => CompletionOk(log, a)
    case _ => true
  }

  ghost predicate LogOk(log: seq<Event>) {
    forall i :: 0 <= i < |log| ==> EventOk(log[..i], log[i])
  }

  lemma LogOkAppend(log: seq<Event>, e: Event)
    requires LogOk(log) && EventOk(log, e)
    ensures LogOk(log + [e])
  {
    forall i | 0 <= i < |log + [e]| ensures EventOk((log + [e])[..i], (log + [e])[i]) {
      assert (log + [e])[..i] == log[..i];
      assert log[..|log|] == log;
    }
  }

  lemma HistoryAppend(log: seq<Event>, e: Event, g: u64)
    ensures LifeOf(log + [e], g) == LifeAfter(LifeOf(log, g), e, g)
    ensures forall k :: Achieved(log + [e], g, k) <==> Achieved(log, g, k) || Achieves(e, g, k)
    ensures FailedIn(log + [e], g) <==> FailedIn(log, g) || e == Failed(g)
  {
    assert (log + [e])[..|log|] == log;
    forall k ensures Achieved(log + [e], g, k) <==> Achieved(log, g, k) || Achieves(e, g, k) {
      if Achieved(log, g, k) {
        var i :| 0 <= i < |log| && Achieves(log[i], g, k);
        assert Achieves((log + [e])[i], g, k);
      }
      if Achieves(e, g, k) { assert Achieves((log + [e])[|log|], g, k); }
    }
    if FailedIn(log, g) {
      var i :| 0 <= i < |log| && log[i] == Failed(g);
      assert (log + [e])[i] == Failed(g);
    }
    if e == Failed(g) { assert (log + [e])[|log|] == Failed(g); }
  }

  lemma BroughtAppend(log: seq<Event>, e: Event, g: u64, k: Kind, id: u64)
    ensures Brought(log, g, k, id) && !Achieves(e, g, k) ==> Brought(log + [e], g, k, id)
    ensures !Achieved(log, g, k) && Achieves(e, g, k) ==> Brought(log + [e], g, k, Identifier(e, k))
  {
    HistoryAppend(log, e, g);
    assert forall i :: 0 <= i < |log| ==> (log + [e])[i] == log[i];
  }

  /** A generation that has not begun has no history. */
  lemma {:induction false} FreshGeneration(log: seq<Event>, g: u64)
    requires forall i :: 0 <= i < |log| ==> log[i].Generation() < g
    ensures LifeOf(log, g).Never? && !FailedIn(log, g) && forall k :: !Achieved(log, g, k)
    decreases |log|
  {
    if log != [] {
      var front, last := log[..|log| - 1], log[|log| - 1];
      FreshGeneration(front, g);
      HistoryAppend(front, last, g);
      assert front + [last] == log;
    }
  }

  // ------------------------------------------------------------------- traces

  /** The call changes the controller. */
  ghost predicate Accepted(m: Machine, call: Call) {
    match call
    case CallStart => m.phase.Idle? && m.action.None?
    case CallStop => m.action.None? && (m.phase.Handshaking? || m.phase.Running? || m.phase.Faulted?)
    case CallRestart => m.action.None? && (m.phase.Handshaking? || m.phase.Running? || m.phase.Faulted?)
    case CallComplete(generation, token, result, resources, sandbox) =>
      Refusal(m, generation, token, result, resources, sandbox).Okay?
    case CallFault(generation, fault, code) => ReportFault(m, generation, fault, code).1.Okay?
    case _ => false
  }

  /** What the call itself reports. */
  ghost function Outcome(m: Machine, call: Call): seq<Event> {
    if call.CallComplete? && m.action.Some? then [Completed(m.action.value, call.result, call.resources, call.sandbox)]
    else if call.CallFault? && call.fault.ProcessExit? then [Exited(m.generation)]
    else []
  }

  ghost function WithFailure(log: seq<Event>, m: Machine): seq<Event> {
    if m.phase.Faulted? then log + [Failed(m.generation)] else log
  }

  ghost function WithEmission(log: seq<Event>, token: u64, m: Machine): seq<Event> {
    if m.nextToken > token && m.action.Some? then log + [Emitted(m.action.value)] else log
  }

  datatype Trace = Trace(m: Machine, log: seq<Event>)

  ghost function Next(t: Trace, call: Call): Trace
    requires Shaped(t.m)
  {
    var m' := Apply(t.m, call).0;
    if !Accepted(t.m, call) then Trace(m', t.log)
    else Trace(m', WithEmission(WithFailure(t.log + Outcome(t.m, call), m'), t.m.nextToken, m'))
  }

  ghost function Run(calls: seq<Call>): (t: Trace)
    ensures MachineOk(t.m)
    decreases |calls|
  {
    CreatedOk();
    if calls == [] then Trace(Created(), []) else
    var t := Run(calls[..|calls| - 1]);
    ApplyKeeps(t.m, calls[|calls| - 1]);
    Next(t, calls[|calls| - 1])
  }

  // --------------------------------------------------------------- invariant

  /** The flags of the current generation say what the log says. */
  ghost predicate FlagsTrue(m: Machine, log: seq<Event>) {
    && (m.held.started <==> LifeOf(log, m.generation).Up?)
    && (m.held.exited <==> LifeOf(log, m.generation).Down?)
    && (m.held.revoked <==> Achieved(log, m.generation, Revoke))
    && (m.held.reset <==> Achieved(log, m.generation, Reset))
    && (m.held.granted ==> Brought(log, m.generation, Allocate, m.held.resources))
    && (m.held.started || m.held.exited ==> Brought(log, m.generation, Launch, m.held.sandbox))
  }

  /** No event is from the future. */
  ghost predicate Dated(m: Machine, log: seq<Event>) {
    && (forall i :: 0 <= i < |log| ==> log[i].Generation() <= m.generation)
    && (forall i :: 0 <= i < |log| && log[i].Emitted? ==> log[i].action.token <= m.nextToken)
    && (forall i :: 0 <= i < |log| && log[i].Completed? ==> log[i].action.token <= m.nextToken)
  }

  ghost predicate PendingLogged(m: Machine, log: seq<Event>) {
    m.action.Some? ==>
      && Emitted(m.action.value) in log
      && (forall i :: 0 <= i < |log| && log[i].Completed? ==> log[i].action.token < m.nextToken)
  }

  ghost predicate Unfailed(m: Machine, log: seq<Event>) {
    && (m.phase.Starting? || m.phase.Handshaking? || m.phase.Running? ==> !FailedIn(log, m.generation))
    && (m.phase.Starting? && !m.held.started ==> LifeOf(log, m.generation).Never?)
    && (m.phase.Starting? && !m.held.granted ==> !Achieved(log, m.generation, Allocate))
  }

  ghost predicate HistoryOk(m: Machine, log: seq<Event>) {
    MachineOk(m) && FlagsTrue(m, log) && Dated(m, log) && PendingLogged(m, log) && Unfailed(m, log) && LogOk(log)
  }

  /** The log between the outcome of a call and what the controller does next. */
  ghost predicate Settled(m: Machine, log: seq<Event>) {
    m.action.None? && FlagsTrue(m, log) && Dated(m, log) && LogOk(log)
  }

  ghost predicate LogFits(m: Machine, log: seq<Event>) {
    FlagsTrue(m, log) && Dated(m, log) && PendingLogged(m, log) && LogOk(log)
  }

  /** The machine holds what the action would name. */
  predicate MayName(m: Machine, k: Kind) {
    (NamesResources(k) ==> m.held.granted) && (NamesSandbox(k) ==> m.held.started || m.held.exited)
  }

  lemma EmittedNames(m: Machine, k: Kind, log: seq<Event>)
    requires FlagsTrue(m, log) && MayName(m, k) && m.nextToken < U64 - 1
    ensures NamesTrue(log, Emit(m, k).0.action.value)
  {
    hide Brought, LifeOf, Achieved;
  }

  lemma FlagsAppend(m: Machine, log: seq<Event>, e: Event)
    requires FlagsTrue(m, log) && !e.Completed? && !e.Exited?
    ensures FlagsTrue(m, log + [e])
  {
    hide LifeOf, Achieved, Brought, FailedIn;
    HistoryAppend(log, e, m.generation);
    BroughtAppend(log, e, m.generation, Allocate, m.held.resources);
    BroughtAppend(log, e, m.generation, Launch, m.held.sandbox);
  }

  lemma EmissionLogged(m: Machine, k: Kind, log: seq<Event>)
    requires Settled(m, log) && m.nextToken < U64 - 1 && MayName(m, k)
    requires Preceded(log, m.generation, k, ResetRequired(m.configuration))
    ensures var m' := Emit(m, k).0; LogFits(m', WithEmission(log, m.nextToken, m'))
    ensures var m' := Emit(m, k).0; FailedIn(WithEmission(log, m.nextToken, m'), m.generation) == FailedIn(log, m.generation)
    ensures var m' := Emit(m, k).0; LifeOf(WithEmission(log, m.nextToken, m'), m.generation) == LifeOf(log, m.generation)
    ensures var m' := Emit(m, k).0;
            Achieved(WithEmission(log, m.nextToken, m'), m.generation, Allocate) == Achieved(log, m.generation, Allocate)
  {
    hide LogOk, LifeOf, Achieved, FailedIn, Preceded, ResetRequired, FlagsTrue, NamesTrue, MayName;
    var a := Emit(m, k).0.action.value;
    EmittedNames(m, k, log);
    LogOkAppend(log, Emitted(a));
    HistoryAppend(log, Emitted(a), m.generation);
    FlagsAppend(m, log, Emitted(a));
    SameFlags(m, Emit(m, k).0, log + [Emitted(a)]);
    assert Emitted(a) in log + [Emitted(a)];
  }

  /** The flags are about the holdings and the generation only. */
  lemma SameFlags(m: Machine, m': Machine, log: seq<Event>)
    requires FlagsTrue(m, log) && m'.held == m.held && m'.generation == m.generation
    ensures FlagsTrue(m', log)
  {
    hide LifeOf, Achieved, Brought;
  }

  lemma FailureLogged(m: Machine, log: seq<Event>)
    requires Settled(m, log)
    ensures Settled(m, log + [Failed(m.generation)])
  {
    hide LogOk, LifeOf, Achieved, FailedIn, FlagsTrue;
    LogOkAppend(log, Failed(m.generation));
    FlagsAppend(m, log, Failed(m.generation));
  }

  lemma StartLogged(m: Machine, log: seq<Event>)
    requires Settled(m, log) && BeginStart(m).1.Okay?
    ensures var m' := BeginStart(m).0; var log' := WithEmission(WithFailure(log, m'), m.nextToken, m');
            LogFits(m', log') && Unfailed(m', log')
  {
    hide LogOk, LifeOf, Achieved, FailedIn, ConfigurationOk;
    var begun := m.(generation := m.generation + 1, phase := Starting, fault := NoFault, faultCode := 0, held := NOTHING);
    FreshGeneration(log, begun.generation);
    EmissionLogged(begun, Allocate, log);
  }

  /** What the flags allow as the next cleanup action is what the log asks for. */
  lemma CleanupPreceded(m: Machine, log: seq<Event>)
    requires FlagsTrue(m, log) && CleanupKind(m).Some? && (m.held.exited ==> m.held.granted)
    requires m.held.started && m.graceful ==> !FailedIn(log, m.generation)
    ensures Preceded(log, m.generation, CleanupKind(m).value, ResetRequired(m.configuration))
  {
  }

  lemma NextCleanupLogged(m: Machine, log: seq<Event>)
    requires Settled(m, log) && m.phase.Stopping? && (m.held.started || m.held.exited ==> m.held.granted)
    requires m.held.started && m.graceful ==> !FailedIn(log, m.generation)
    ensures var m' := NextCleanup(m).0; var log' := WithEmission(WithFailure(log, m'), m.nextToken, m');
            LogFits(m', log') && Unfailed(m', log')
  {
    hide LogOk, LifeOf, Achieved, FailedIn, ConfigurationOk, Preceded, ResetRequired;
    FailureLogged(m, log);
    if CleanupKind(m).Some? {
      CleanupPreceded(m, log);
      if m.nextToken < U64 - 1 { EmissionLogged(m, CleanupKind(m).value, log); }
    } else {
      var clean := m.(restart := false, phase := Idle, fault := NoFault, faultCode := 0);
      if m.restart && BeginStart(clean).1.Okay? { StartLogged(clean, log); }
    }
  }

  /** The machine right after the host answered. */
  function Answered(m: Machine, result: Status, resources: u64, sandbox: u64): Machine
    requires m.action.Some?
  {
    if result.Okay? then Done(m.(action := None), m.action.value.kind, resources, sandbox) else m.(action := None)
  }

  lemma AnswerLogged(m: Machine, log: seq<Event>, result: Status, resources: u64, sandbox: u64)
    requires HistoryOk(m, log) && m.action.Some?
    ensures var e := Completed(m.action.value, result, resources, sandbox);
            && Settled(Answered(m, result, resources, sandbox), log + [e])
            && FailedIn(log + [e], m.generation) == FailedIn(log, m.generation)
            && LifeOf(log + [e], m.generation) == LifeAfter(LifeOf(log, m.generation), e, m.generation)
  {
    hide LogOk, LifeOf, Achieved, FailedIn, ConfigurationOk, ResetRequired, Brought;
    var e := Completed(m.action.value, result, resources, sandbox);
    LogOkAppend(log, e);
    HistoryAppend(log, e, m.generation);
    LaunchedLives(log, m.generation);
    BroughtAppend(log, e, m.generation, Allocate, m.held.resources);
    BroughtAppend(log, e, m.generation, Launch, m.held.sandbox);
  }

  /** The controller logs at most a failure and an emission after what the call reported. */
  ghost predicate Logged(m': Machine, log: seq<Event>, token: u64) {
    var log' := WithEmission(WithFailure(log, m'), token, m');
    LogFits(m', log') && Unfailed(m', log')
  }

  lemma EmitLogged(m: Machine, k: Kind, log: seq<Event>)
    requires Settled(m, log) && Unfailed(m, log) && m.phase.Starting? && MayName(m, k)
    requires Preceded(log, m.generation, k, ResetRequired(m.configuration))
    ensures Logged(Emit(m, k).0, log, m.nextToken)
  {
    hide LogOk, LifeOf, Achieved, FailedIn, Preceded, ResetRequired;
    FailureLogged(m, log);
    if m.nextToken < U64 - 1 { EmissionLogged(m, k, log); }
  }

  lemma SuccessLogged(m: Machine, log: seq<Event>, resources: u64, sandbox: u64)
    requires HistoryOk(m, log) && m.action.Some?
    ensures var k := m.action.value.kind;
            Logged(AfterDone(Answered(m, Okay, resources, sandbox), k).0,
                   log + [Completed(m.action.value, Okay, resources, sandbox)], m.nextToken)
  {
    hide LogOk, LifeOf, Achieved, FailedIn, ConfigurationOk, NextCleanup;
    var k, d, log' := m.action.value.kind, Answered(m, Okay, resources, sandbox), log + [Completed(m.action.value, Okay, resources, sandbox)];
    AnswerLogged(m, log, Okay, resources, sandbox);
    match k
    case Allocate => EmitLogged(d, Launch, log');
    case Launch => EmitLogged(d, Transfer, log');
    case Transfer =>
    case _ => NextCleanupLogged(d, log');
  }

  lemma CompleteLogged(m: Machine, log: seq<Event>, call: Call)
    requires HistoryOk(m, log) && call.CallComplete? && Accepted(m, call)
    ensures Logged(Apply(m, call).0, log + Outcome(m, call), m.nextToken)
  {
    hide LogOk, LifeOf, Achieved, FailedIn, ConfigurationOk, AfterDone;
    if call.result.Okay? {
      SuccessLogged(m, log, call.resources, call.sandbox);
    } else {
      AnswerLogged(m, log, call.result, call.resources, call.sandbox);
      FailureLogged(m.(action := None), log + [Completed(m.action.value, call.result, call.resources, call.sandbox)]);
    }
  }

  lemma FaultLogged(m: Machine, log: seq<Event>, call: Call)
    requires HistoryOk(m, log) && call.CallFault? && Accepted(m, call)
    ensures Logged(Apply(m, call).0, log + Outcome(m, call), m.nextToken)
  {
    hide LogOk, LifeOf, Achieved, FailedIn, ConfigurationOk;
    var m' := Apply(m, call).0;
    if call.fault.ProcessExit? {
      LogOkAppend(log, Exited(m.generation));
      HistoryAppend(log, Exited(m.generation), m.generation);
    }
    assert log + [] == log;
    FailureLogged(m', log + Outcome(m, call));
  }

  lemma StopLogged(m: Machine, log: seq<Event>, restart: bool)
    requires HistoryOk(m, log) && m.action.None? && (m.phase.Handshaking? || m.phase.Running? || m.phase.Faulted?)
    ensures Logged(Stop(m, restart).0, log, m.nextToken)
  {
    hide LogOk, LifeOf, Achieved, FailedIn, ConfigurationOk, NextCleanup;
    NextCleanupLogged(m.(graceful := !m.phase.Faulted?, phase := Stopping, restart := restart), log);
  }

  /** Every call keeps the history in order. */
  lemma NextOk(t: Trace, call: Call)
    requires HistoryOk(t.m, t.log)
    ensures HistoryOk(Next(t, call).m, Next(t, call).log)
  {
    hide LogOk, LifeOf, Achieved, FailedIn, ConfigurationOk, AfterDone, NextCleanup, BeginStart;
    ApplyKeeps(t.m, call);
    assert t.log + [] == t.log;
    match call
    case CallComplete(_, _, _, _, _) => if Accepted(t.m, call) { CompleteLogged(t.m, t.log, call); }
    case CallFault(_, _, _) => if Accepted(t.m, call) { FaultLogged(t.m, t.log, call); }
    case CallStop => if Accepted(t.m, call) { StopLogged(t.m, t.log, false); }
    case CallRestart => if Accepted(t.m, call) { StopLogged(t.m, t.log, true); }
    case CallStart => if Accepted(t.m, call) { BeginStartLogged(t.m, t.log); }
    case _ =>
  }

  lemma BeginStartLogged(m: Machine, log: seq<Event>)
    requires HistoryOk(m, log) && m.phase.Idle? && m.action.None?
    ensures Logged(BeginStart(m).0, log, m.nextToken)
  {
    hide LogOk, LifeOf, Achieved, FailedIn, ConfigurationOk;
    if BeginStart(m).1.Okay? { StartLogged(m, log); }
  }

  lemma {:induction false} RunOk(calls: seq<Call>)
    ensures HistoryOk(Run(calls).m, Run(calls).log)
    decreases |calls|
  {
    if calls == [] {
      CreatedOk();
    } else {
      RunOk(calls[..|calls| - 1]);
      NextOk(Run(calls[..|calls| - 1]), calls[|calls| - 1]);
    }
  }

  // ---------------------------------------------------------------- theorems

  /** What had happened in its generation before the action of event `i` was emitted. */
  ghost predicate Safe(log: seq<Event>, i: nat)
    requires i < |log|
  {
    log[i].Emitted? ==>
      var a, before := log[i].action, log[..i];
      && (a.kind.Revoke? ==> !LifeOf(before, a.generation).Up?)
      && (a.kind.Release? ==>
            && Achieved(before, a.generation, Revoke)
            && (a.configuration.flags % 2 == 1 ==> Achieved(before, a.generation, Reset))
            && (Achieved(before, a.generation, Launch) ==> LifeOf(before, a.generation).Reaped?))
      && (a.kind.Quiesce? ==> !FailedIn(before, a.generation))
  }

  /** Teardown in every log the controller keeps in order. */
  lemma LogSafe(log: seq<Event>, i: nat)
    requires LogOk(log) && i < |log|
    ensures Safe(log, i)
  {
    assert EventOk(log[..i], log[i]);
    if log[i].Emitted? { LaunchedLives(log[..i], log[i].action.generation); }
  }

  /** Emitted tokens increase strictly; an action is completed at most once, and only after it was emitted. */
  ghost predicate Ordered(log: seq<Event>, i: nat, j: nat)
    requires i < j < |log|
  {
    && (log[i].Emitted? && log[j].Emitted? ==> log[i].action.token < log[j].action.token)
    && (log[i].Completed? && log[j].Completed? ==> log[i].action.token < log[j].action.token)
    && (log[j].Completed? ==> Emitted(log[j].action) in log[..j])
  }

  lemma LogOrdered(log: seq<Event>, i: nat, j: nat)
    requires LogOk(log) && i < j < |log|
    ensures Ordered(log, i, j)
  {
    assert EventOk(log[..j], log[j]);
    assert log[..j][i] == log[i];
  }

  /** Revocation is never asked for while the process is up. */
  lemma RevokeAfterExit(calls: seq<Call>, i: nat)
    requires var log := Run(calls).log; i < |log| && log[i].Emitted? && log[i].action.kind.Revoke?
    ensures var log := Run(calls).log; !LifeOf(log[..i], log[i].action.generation).Up?
  {
    hide Run, LogOk;
    RunOk(calls);
    LogSafe(Run(calls).log, i);
  }

  /** Resources are released only when they were revoked, reset if that is required, and no process is left. */
  lemma ReleaseComesLast(calls: seq<Call>, i: nat)
    requires var log := Run(calls).log; i < |log| && log[i].Emitted? && log[i].action.kind.Release?
    ensures var log := Run(calls).log; var a, before := log[i].action, log[..i];
            && Achieved(before, a.generation, Revoke)
            && (a.configuration.flags % 2 == 1 ==> Achieved(before, a.generation, Reset))
            && (Achieved(before, a.generation, Launch) ==> LifeOf(before, a.generation).Reaped?)
  {
    hide Run, LogOk;
    RunOk(calls);
    LogSafe(Run(calls).log, i);
  }

  /** Once a process was launched it is up, down or reaped. */
  lemma {:induction false} LaunchedLives(log: seq<Event>, g: u64)
    ensures Achieved(log, g, Launch) ==> !LifeOf(log, g).Never?
    decreases |log|
  {
    if log != [] {
      var front, last := log[..|log| - 1], log[|log| - 1];
      LaunchedLives(front, g);
      HistoryAppend(front, last, g);
      assert front + [last] == log;
    }
  }

  /** A sandbox is asked to stop gracefully only in a generation without a fault. */
  lemma QuiesceBeforeFault(calls: seq<Call>, i: nat)
    requires var log := Run(calls).log; i < |log| && log[i].Emitted? && log[i].action.kind.Quiesce?
    ensures var log := Run(calls).log; !FailedIn(log[..i], log[i].action.generation)
  {
    hide Run, LogOk;
    RunOk(calls);
    LogSafe(Run(calls).log, i);
  }

  /** Every action names the resource set and the sandbox its own generation was given, whatever came in between. */
  lemma ActionsNameTheirOwn(calls: seq<Call>, i: nat)
    requires i < |Run(calls).log| && Run(calls).log[i].Emitted?
    ensures var log := Run(calls).log; NamesTrue(log[..i], log[i].action)
  {
    hide Run, LogOk, NamesTrue;
    RunOk(calls);
    LogNames(Run(calls).log, i);
  }

  lemma LogNames(log: seq<Event>, i: nat)
    requires LogOk(log) && i < |log| && log[i].Emitted?
    ensures NamesTrue(log[..i], log[i].action)
  {
    hide NamesTrue;
    assert EventOk(log[..i], log[i]);
  }

  lemma TokensIncrease(calls: seq<Call>, i: nat, j: nat)
    requires i < j < |Run(calls).log|
    ensures Ordered(Run(calls).log, i, j)
  {
    hide Run, LogOk;
    RunOk(calls);
    LogOrdered(Run(calls).log, i, j);
  }

  /** A call only adds to the log. */
  lemma LogExtends(t: Trace, call: Call)
    requires Shaped(t.m)
    ensures t.log <= Next(t, call).log
  {
    hide Apply, Accepted;
  }
}
