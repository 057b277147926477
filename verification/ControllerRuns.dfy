/** Whole runs of the controller: any calls in any order, with any host results. */
module ControllerRuns {
  import opened Bytes
  import opened Controller

  datatype Call =
    | CallSetClosure(copy: ClosureCopy)
    | CallSetDigest(kind: nat, digest: Digest)
    | CallSetLimit(limit: nat, value: u64)
    | CallStart
    | CallStop
    | CallRestart
    | CallComplete(generation: u64, token: u64, result: Status, resources: u64, sandbox: u64)
    | CallReady(generation: u64)
    | CallFault(generation: u64, fault: FaultKind, code: u64)

  predicate Shaped(m: Machine) {
    |m.configuration.digests| == DIGEST_KINDS && |m.configuration.limits| == LIMIT_KINDS
  }

  ghost function Apply(m: Machine, call: Call): (Machine, Status)
    requires Shaped(m)
  {
    match call
    case CallSetClosure(copy) => SetClosure(m, copy)
    case CallSetDigest(kind, digest) => SetDigest(m, kind, digest)
    case CallSetLimit(kind, value) => SetLimit(m, kind, value)
    case CallStart => Start(m)
    case CallStop => Stop(m, false)
    case CallRestart => Stop(m, true)
    case CallComplete(generation, token, result, resources, sandbox) => Complete(m, generation, token, result, resources, sandbox)
    case CallReady(generation) => ReportReady(m, generation)
    case CallFault(generation, fault, code) => ReportFault(m, generation, fault, code)
  }

  // --------------------------------------------------------------- invariant

  /** What the pending action is for. */
  ghost predicate PendingOk(m: Machine)
    requires m.action.Some?
  {
    var a := m.action.value;
    && a.token == m.nextToken && a.generation == m.generation && a.configuration == m.configuration
    && a.resources == (if NamesResources(a.kind) then m.held.resources else 0)
    && a.sandbox == (if NamesSandbox(a.kind) then m.held.sandbox else 0)
    && match a.kind
       case Allocate => m.phase.Starting? && !m.held.granted && !m.held.started && !m.held.exited
       case Launch => m.phase.Starting? && m.held.granted && !m.held.started && !m.held.exited
       case Transfer => m.phase.Starting? && m.held.granted && m.held.started
       case _ => m.phase.Stopping? && CleanupKind(m) == Some(a.kind)
  }

  ghost predicate MachineOk(m: Machine) {
    && Shaped(m)
    && (m.action.Some? <==> m.phase.Starting? || m.phase.Stopping?)
    && (m.action.Some? ==> PendingOk(m))
    && (m.held.granted <==> m.held.resources != 0)
    && (m.held.started || m.held.exited <==> m.held.sandbox != 0)
    && !(m.held.started && m.held.exited)
    && (m.phase.Idle? ==> !m.held.granted && !m.held.started && !m.held.exited)
    && (!m.phase.Idle? ==> ConfigurationOk(m.configuration))
    && (m.phase.Handshaking? || m.phase.Running? ==> m.held.granted && m.held.started)
    && ((m.held.started || m.held.exited) ==> m.held.granted)
    && (m.phase.Starting? ==> !m.held.revoked && !m.held.reset && !m.held.exited)
  }

  lemma CreatedOk()
    ensures MachineOk(Created())
  {
  }

  /** Everything but the link between the pending action and the phase. */
  ghost predicate Between(m: Machine) {
    && Shaped(m) && m.action.None? && ConfigurationOk(m.configuration)
    && (m.held.granted <==> m.held.resources != 0)
    && (m.held.started || m.held.exited <==> m.held.sandbox != 0)
    && !(m.held.started && m.held.exited)
    && ((m.held.started || m.held.exited) ==> m.held.granted)
  }

  lemma BeginStartKeeps(m: Machine)
    requires Shaped(m) && m.action.None? && m.phase.Idle? && !m.held.granted && !m.held.started && !m.held.exited
    requires m.held.resources == 0 && m.held.sandbox == 0
    ensures MachineOk(BeginStart(m).0)
  {
  }

  lemma NextCleanupKeeps(m: Machine)
    requires Between(m) && m.phase.Stopping?
    ensures MachineOk(NextCleanup(m).0)
  {
    if CleanupKind(m).None? {
      BeginStartKeeps(m.(restart := false, phase := Idle, fault := NoFault, faultCode := 0));
    }
  }

  lemma CompleteKeeps(m: Machine, generation: u64, token: u64, result: Status, resources: u64, sandbox: u64)
    requires MachineOk(m)
    ensures MachineOk(Complete(m, generation, token, result, resources, sandbox).0)
  {
    if Refusal(m, generation, token, result, resources, sandbox).Okay? && result.Okay? {
      var k := m.action.value.kind;
      if !k.Allocate? && !k.Launch? && !k.Transfer? {
        NextCleanupKeeps(Done(m.(action := None), k, resources, sandbox));
      }
    }
  }

  /** Every call keeps the machine invariant. */
  lemma ApplyKeeps(m: Machine, call: Call)
    requires MachineOk(m)
    ensures MachineOk(Apply(m, call).0)
  {
    match call
    case CallStop => if Stop(m, false) != (m, InvalidState) && m.action.None? { StopKeeps(m, false); }
    case CallRestart => if Stop(m, true) != (m, InvalidState) && m.action.None? { StopKeeps(m, true); }
    case CallComplete(generation, token, result, resources, sandbox) =>
      CompleteKeeps(m, generation, token, result, resources, sandbox);
    case CallStart => if m.phase.Idle? { BeginStartKeeps(m); }
    case _ =>
  }

  lemma StopKeeps(m: Machine, restart: bool)
    requires MachineOk(m) && m.action.None? && (m.phase.Handshaking? || m.phase.Running? || m.phase.Faulted?)
    ensures MachineOk(Stop(m, restart).0)
  {
    NextCleanupKeeps(m.(graceful := !m.phase.Faulted?, phase := Stopping, restart := restart));
  }

  // ---------------------------------------------------------------- progress

  /** Cleanup steps still to do. */
  function Rank(m: Machine): nat {
    (if m.held.started then 2 else if m.held.exited then 1 else 0)
    + (if m.held.granted && !m.held.revoked then 1 else 0)
    + (if m.held.granted && ResetRequired(m.configuration) && !m.held.reset then 1 else 0)
    + (if m.held.granted then 1 else 0)
  }

  /** The host completes the pending action successfully. */
  ghost function Success(m: Machine): Call
    requires m.action.Some?
  {
    var a := m.action.value;
    CallComplete(a.generation, a.token, Okay, if a.kind.Allocate? then 1 else 0, if a.kind.Launch? then 1 else 0)
  }

  ghost function Succeed(m: Machine): (Machine, Status)
    requires Shaped(m) && m.action.Some?
  {
    Apply(m, Success(m))
  }

  ghost predicate Cleaned(m: Machine, m': Machine) {
    if !m.restart then m'.phase.Idle? && m'.action.None? && m'.generation == m.generation
    else if m.generation < U64 - 1 && m.nextToken + Rank(m) < U64 then
      m'.phase.Starting? && m'.generation == m.generation + 1 && m'.action.Some? && m'.action.value.kind.Allocate?
    else m'.phase.Faulted? && m'.faultCode == StatusCode(CounterExhausted) && m'.generation == m.generation
  }

  /** While cleaning up, a success either leaves one step less or was the last step. */
  lemma CleanupAdvances(m: Machine)
    requires MachineOk(m) && m.phase.Stopping? && m.nextToken + Rank(m) <= U64
    ensures 1 <= Rank(m) <= 5
    ensures var m' := Succeed(m).0;
            if Rank(m) > 1 then m'.phase.Stopping? && Rank(m') == Rank(m) - 1 && m'.nextToken == m.nextToken + 1
                                && m'.generation == m.generation && m'.restart == m.restart
            else Cleaned(m, m')
  {
    var done := Done(m.(action := None), m.action.value.kind, 0, 0);
    assert CleanupKind(done).None? <==> Rank(done) == 0;
  }

  ghost function SucceedTimes(m: Machine, n: nat): Machine
    requires MachineOk(m)
    decreases n
  {
    if n == 0 || m.action.None? then m else
    ApplyKeeps(m, Success(m));
    SucceedTimes(Succeed(m).0, n - 1)
  }

  /** Cleanup always ends: at most five successes lead to idle or to the next generation. */
  lemma {:induction false} CleanupEnds(m: Machine)
    requires MachineOk(m) && m.phase.Stopping? && m.nextToken + Rank(m) <= U64
    ensures Rank(m) <= 5 && Cleaned(m, SucceedTimes(m, Rank(m)))
    decreases Rank(m)
  {
    var m' := Succeed(m).0;
    CleanupAdvances(m);
    SucceedKeeps(m);
    hide MachineOk, Apply, Rank;
    if Rank(m) > 1 {
      CleanupEnds(m');
      assert SucceedTimes(m, Rank(m)) == SucceedTimes(m', Rank(m'));
    } else {
      assert SucceedTimes(m, 1) == SucceedTimes(m', 0);
    }
  }

  lemma SucceedKeeps(m: Machine)
    requires MachineOk(m) && m.action.Some?
    ensures MachineOk(Succeed(m).0)
  {
    hide MachineOk, Apply;
    ApplyKeeps(m, Success(m));
  }

  // ------------------------------------------------------- what the calls lead to

  /** A controller that may be stopped. */
  ghost predicate Stoppable(m: Machine) {
    MachineOk(m) && m.action.None? && (m.phase.Handshaking? || m.phase.Running? || m.phase.Faulted?)
  }

  /** The first thing a stop asks for: quiet when the sandbox runs, force after a fault. */
  lemma StopAsks(m: Machine, call: Call)
    requires Stoppable(m) && m.held.started && m.nextToken < U64 - 1 && (call.CallStop? || call.CallRestart?)
    ensures var m' := Apply(m, call).0;
            && m'.phase.Stopping? && m'.action.Some?
            && m'.action.value.kind == if m.phase.Faulted? then Terminate else Quiesce
  {
  }

  lemma StopBegins(m: Machine, restart: bool)
    requires Stoppable(m) && m.nextToken + Rank(m) < U64 && Rank(m) > 0
    ensures var m' := Stop(m, restart).0;
            && MachineOk(m') && m'.phase.Stopping? && Rank(m') == Rank(m) && m'.nextToken == m.nextToken + 1
            && m'.generation == m.generation && m'.restart == restart
  {
    StopKeeps(m, restart);
    var stopping := m.(graceful := !m.phase.Faulted?, phase := Stopping, restart := restart);
    assert Rank(stopping) == Rank(m) && CleanupKind(stopping).Some?;
  }

  /** Where a stop or a restart of `m` ends. */
  ghost predicate Ended(m: Machine, again: bool, m': Machine) {
    if !again then m'.phase.Idle? && m'.action.None? && m'.generation == m.generation
    else if m.generation < U64 - 1 && m.nextToken + Rank(m) < U64 - 1 then
      m'.phase.Starting? && m'.generation == m.generation + 1 && m'.action.Some? && m'.action.value.kind.Allocate?
    else m'.phase.Faulted? && m'.faultCode == StatusCode(CounterExhausted) && m'.generation == m.generation
  }

  lemma StopsAtOnce(m: Machine, again: bool)
    requires Stoppable(m) && Rank(m) == 0
    ensures MachineOk(Stop(m, again).0) && Ended(m, again, Stop(m, again).0)
  {
    StopKeeps(m, again);
    var stopping := m.(graceful := !m.phase.Faulted?, phase := Stopping, restart := again);
    assert CleanupKind(stopping).None?;
  }

  lemma StopEnds(m: Machine, again: bool)
    requires Stoppable(m) && m.nextToken + Rank(m) < U64
    ensures MachineOk(Stop(m, again).0) && Ended(m, again, SucceedTimes(Stop(m, again).0, Rank(m)))
  {
    hide MachineOk, Apply, Stop, Rank;
    if Rank(m) == 0 {
      StopsAtOnce(m, again);
    } else {
      StopBegins(m, again);
      CleanupEnds(Stop(m, again).0);
    }
  }

  /** A stop, followed by as many successes as there are things to undo, leaves the controller idle in the same
      generation; it does not come up again. */
  lemma StopEndsIdle(m: Machine)
    requires Stoppable(m) && m.nextToken + Rank(m) < U64
    ensures MachineOk(Apply(m, CallStop).0) && Ended(m, false, SucceedTimes(Apply(m, CallStop).0, Rank(m)))
  {
    hide MachineOk, SucceedTimes, Stop, Rank, Ended;
    StopEnds(m, false);
  }

  /** A restart, followed by the same, starts the next generation, or faults because a counter ran out. */
  lemma RestartEndsStarting(m: Machine)
    requires Stoppable(m) && m.nextToken + Rank(m) < U64
    ensures MachineOk(Apply(m, CallRestart).0) && Ended(m, true, SucceedTimes(Apply(m, CallRestart).0, Rank(m)))
  {
    hide MachineOk, SucceedTimes, Stop, Rank, Ended;
    StopEnds(m, true);
  }

  /** A start and what the host brings for its three actions. */
  ghost function ComeUp(g: u64, t: u64, resources: u64, sandbox: u64): seq<Call>
    requires t + 2 < U64
  {
    [CallStart, CallComplete(g, t, Okay, resources, 0), CallComplete(g, t + 1, Okay, 0, sandbox), CallComplete(g, t + 2, Okay, 0, 0)]
  }

  ghost function ApplyAll(m: Machine, calls: seq<Call>): Machine
    requires MachineOk(m)
    decreases |calls|
  {
    if calls == [] then m else
    ApplyKeeps(m, calls[0]);
    ApplyAll(Apply(m, calls[0]).0, calls[1..])
  }

  /** A start in progress: the action it waits for and what it holds so far. */
  ghost predicate Rises(m: Machine, k: Kind, g: u64, t: u64, held: Holdings) {
    && m.phase.Starting? && m.fault.NoFault? && m.generation == g && m.nextToken == t && m.held == held
    && m.action.Some? && m.action.value.kind == k && m.action.value.token == t
  }

  lemma Allocates(m: Machine)
    requires MachineOk(m) && m.phase.Idle? && ConfigurationOk(m.configuration) && m.generation < U64 - 1 && m.nextToken < U64 - 1
    ensures Rises(Apply(m, CallStart).0, Allocate, m.generation + 1, m.nextToken + 1, NOTHING)
  {
    hide ConfigurationOk;
  }

  lemma Launches(m: Machine, g: u64, t: u64, resources: u64)
    requires MachineOk(m) && Rises(m, Allocate, g, t, NOTHING) && t < U64 - 1 && resources != 0
    ensures Rises(Apply(m, CallComplete(g, t, Okay, resources, 0)).0, Launch, g, t + 1,
                  NOTHING.(resources := resources, granted := true))
  {
    hide MachineOk, ConfigurationOk;
  }

  lemma Transfers(m: Machine, g: u64, t: u64, held: Holdings, sandbox: u64)
    requires MachineOk(m) && Rises(m, Launch, g, t, held) && t < U64 - 1 && sandbox != 0
    ensures Rises(Apply(m, CallComplete(g, t, Okay, 0, sandbox)).0, Transfer, g, t + 1,
                  held.(sandbox := sandbox, started := true))
  {
    hide MachineOk, ConfigurationOk;
  }

  lemma Handshakes(m: Machine, g: u64, t: u64, held: Holdings)
    requires MachineOk(m) && Rises(m, Transfer, g, t, held)
    ensures var m' := Apply(m, CallComplete(g, t, Okay, 0, 0)).0;
            m'.phase.Handshaking? && m'.action.None? && m'.generation == g && m'.held == held && m'.fault.NoFault?
  {
    hide MachineOk, ConfigurationOk;
  }

  /** A configured controller comes up: start, and the host's answers to allocate, launch and transfer, lead from idle to
      the handshake of the next generation, holding what the host gave; the ready report then makes it run. */
  lemma StartRuns(m: Machine, resources: u64, sandbox: u64)
    requires MachineOk(m) && m.phase.Idle? && ConfigurationOk(m.configuration)
    requires m.generation < U64 - 1 && m.nextToken + 3 < U64 && resources != 0 && sandbox != 0
    ensures var up := ApplyAll(m, ComeUp(m.generation + 1, m.nextToken + 1, resources, sandbox));
            && MachineOk(up) && up.phase.Handshaking? && up.action.None? && up.generation == m.generation + 1
            && up.held == Holdings(resources, sandbox, true, false, false, true, false)
            && Apply(up, CallReady(m.generation + 1)) == (up.(phase := Running), Okay)
  {
    hide MachineOk, ApplyAll, Apply, Rises, ConfigurationOk;
    var g, t := m.generation + 1, m.nextToken + 1;
    var calls := ComeUp(g, t, resources, sandbox);
    var a := Unroll(m, calls);
    Allocates(m);
    var b := Unroll(a, calls[1..]);
    Launches(a, g, t, resources);
    var c := Unroll(b, calls[2..]);
    Transfers(b, g, t + 1, NOTHING.(resources := resources, granted := true), sandbox);
    var d := Unroll(c, calls[3..]);
    Handshakes(c, g, t + 2, NOTHING.(resources := resources, granted := true, sandbox := sandbox, started := true));
    assert calls[1..][1..] == calls[2..] && calls[2..][1..] == calls[3..] && calls[3..][1..] == [];
    NoCalls(d);
    GetsReady(d);
  }

  lemma NoCalls(m: Machine)
    requires MachineOk(m)
    ensures ApplyAll(m, []) == m
  {
  }

  /** A ready report makes the controller run exactly when it waits for it, in its own generation. */
  lemma ReadyRuns(m: Machine, generation: u64)
    requires MachineOk(m) && !m.phase.Running?
    ensures Apply(m, CallReady(generation)).0.phase.Running? <==> m.phase.Handshaking? && generation == m.generation
    ensures Apply(m, CallReady(generation)).0 == if m.phase.Handshaking? && generation == m.generation then m.(phase := Running) else m
  {
  }

  lemma GetsReady(m: Machine)
    requires MachineOk(m) && m.phase.Handshaking?
    ensures Apply(m, CallReady(m.generation)) == (m.(phase := Running), Okay)
  {
  }

  lemma Unroll(m: Machine, calls: seq<Call>) returns (m': Machine)
    requires MachineOk(m) && calls != []
    ensures Shaped(m) && m' == Apply(m, calls[0]).0 && MachineOk(m') && ApplyAll(m, calls) == ApplyAll(m', calls[1..])
  {
    ApplyKeeps(m, calls[0]);
    m' := Apply(m, calls[0]).0;
  }

  /** A completion is taken exactly when it is for the pending action and the current generation, reports one of the four
      results a host may report, and brings an identifier exactly where one is due; any other changes nothing. */
  lemma TakenExactly(m: Machine, generation: u64, token: u64, result: Status, resources: u64, sandbox: u64)
    requires MachineOk(m)
    ensures var m' := Apply(m, CallComplete(generation, token, result, resources, sandbox)).0;
            m' != m <==>
              && m.action.Some? && generation == m.generation && token == m.action.value.token
              && result in {Okay, ResourceDenied, ResourceExhausted, HostFailure}
              && (result.Okay? && m.action.value.kind.Allocate? <==> resources != 0)
              && (result.Okay? && m.action.value.kind.Launch? <==> sandbox != 0)
    ensures m.phase.Starting? || m.phase.Stopping? <==> m.action.Some?
  {
    var call := CallComplete(generation, token, result, resources, sandbox);
    if Refusal(m, generation, token, result, resources, sandbox).Okay? {
      CompleteGrows(m, call);
      hide Apply, MachineOk;
    }
  }

  /** Whether the controller waits for the host. */
  predicate Waits(m: Machine) {
    m.phase.Starting? || m.phase.Stopping?
  }

  /** What a call that is not for this phase is answered: it never changes anything. */
  lemma RefusalsMean(m: Machine, call: Call)
    requires MachineOk(m)
    ensures call.CallStart? && !m.phase.Idle? ==> Apply(m, call) == (m, InvalidState)
    ensures call.CallStart? && m.phase.Idle? ==> Apply(m, call).1 in {Okay, CounterExhausted, InvalidConfiguration}
    ensures (call.CallStop? || call.CallRestart?) && Waits(m) ==> Apply(m, call) == (m, ActionPending)
    ensures (call.CallStop? || call.CallRestart?) && m.phase.Idle? ==> Apply(m, call) == (m, InvalidState)
    ensures call.CallReady? && call.generation != m.generation ==> Apply(m, call) == (m, StaleGeneration)
    ensures call.CallReady? && call.generation == m.generation && Waits(m) ==> Apply(m, call) == (m, ActionPending)
    ensures call.CallReady? && call.generation == m.generation && !Waits(m) && !m.phase.Handshaking? ==>
              Apply(m, call) == (m, InvalidState)
  {
    hide ConfigurationOk, NextCleanup;
  }

  /** A fault is accepted exactly from the current generation of a sandbox that is up; it is recorded, and a process that
      exited is not up any more. */
  lemma FaultsExactly(m: Machine, generation: u64, kind: FaultKind, code: u64)
    requires MachineOk(m)
    ensures var (m', status) := Apply(m, CallFault(generation, kind, code));
            && (status.Okay? <==> kind in {ProcessExit, Protocol} && generation == m.generation
                                  && (m.phase.Handshaking? || m.phase.Running?))
            && (if status.Okay?
                then m'.phase.Faulted? && m'.fault == kind && m'.faultCode == code && m'.action.None?
                     && m'.held.exited == kind.ProcessExit? && m'.held.started == kind.Protocol?
                else m' == m)
            && (kind !in {ProcessExit, Protocol} ==> status == InvalidArgument)
            && (kind in {ProcessExit, Protocol} && generation != m.generation ==> status == StaleGeneration)
            && (kind in {ProcessExit, Protocol} && generation == m.generation && Waits(m) ==> status == ActionPending)
            && (kind in {ProcessExit, Protocol} && generation == m.generation && (m.phase.Idle? || m.phase.Faulted?) ==> status == InvalidState)
  {
  }

  /** Why a completion is refused: a result no host reports, nothing pending, another generation, another action, or
      identifiers that are not due, in this order. */
  lemma CompletionRefusals(m: Machine, generation: u64, token: u64, result: Status, resources: u64, sandbox: u64)
    requires MachineOk(m)
    ensures var (m', status) := Apply(m, CallComplete(generation, token, result, resources, sandbox));
            && (result !in {Okay, ResourceDenied, ResourceExhausted, HostFailure} ==> (m', status) == (m, InvalidArgument))
            && (result in {Okay, ResourceDenied, ResourceExhausted, HostFailure} ==>
                  && (!Waits(m) ==> (m', status) == (m, InvalidState))
                  && (Waits(m) && generation != m.generation ==> (m', status) == (m, StaleGeneration))
                  && (Waits(m) && generation == m.generation && token != m.nextToken ==> (m', status) == (m, StaleAction))
                  && (Waits(m) && generation == m.generation && token == m.nextToken && m' == m ==> status == InvalidArgument))
  {
    hide ConfigurationOk, AfterDone;
    TakenExactly(m, generation, token, result, resources, sandbox);
  }

  /** A host action that failed faults the controller with the kind of the action, and its status is what is answered. */
  lemma FailureFaults(m: Machine, result: Status)
    requires MachineOk(m) && Waits(m) && result in {ResourceDenied, ResourceExhausted, HostFailure}
    ensures m.action.Some?
    ensures var (m', status) := Apply(m, CallComplete(m.generation, m.nextToken, result, 0, 0));
            && status == result && m'.phase.Faulted? && m'.fault.HostAction? && m'.faultCode == KindCode(m.action.value.kind)
            && m'.action.None? && m'.held == m.held && m'.generation == m.generation
  {
  }

  /** What the setters ask for: the controller idle, a digest of 32 bytes and a known kind with some byte not zero, a limit
      that is not zero. */
  lemma SettersExactly(m: Machine, kind: nat, digest: Digest, limit: nat, value: u64, copy: ClosureCopy)
    requires MachineOk(m)
    ensures Apply(m, CallSetClosure(copy)).1.Okay? <==> m.phase.Idle?
    ensures Apply(m, CallSetDigest(kind, digest)).1.Okay? <==>
              m.phase.Idle? && 1 <= kind <= 3 && |digest| == 32 && exists i :: 0 <= i < 32 && digest[i] != 0
    ensures Apply(m, CallSetLimit(limit, value)).1.Okay? <==> m.phase.Idle? && limit <= 3 && value != 0
    ensures Apply(m, CallSetDigest(kind, digest)).1.InvalidArgument? <==> !(1 <= kind <= 3 && |digest| == 32)
    ensures Apply(m, CallSetLimit(limit, value)).1.InvalidArgument? <==> limit > 3
    ensures !m.phase.Idle? ==>
              && Apply(m, CallSetClosure(copy)) == (m, InvalidState)
              && Apply(m, CallSetDigest(kind, digest)) == (m, if 1 <= kind <= 3 && |digest| == 32 then InvalidState else InvalidArgument)
              && Apply(m, CallSetLimit(limit, value)) == (m, if limit <= 3 then InvalidState else InvalidArgument)
  {
  }

  // ------------------------------------------------- configuration and counters

  /** What starting and cleaning up do to the configuration and the counters. */
  ghost predicate Grows(m: Machine, r: (Machine, Status)) {
    && r.0.configuration == m.configuration
    && m.generation <= r.0.generation <= m.generation + 1
    && m.nextToken <= r.0.nextToken <= m.nextToken + 1
    && (r.0.nextToken > m.nextToken <==> r.0.action.Some?)
    && (r.0.action.Some? ==> r.0.action.value.token == r.0.nextToken)
    && (r.0.generation > m.generation ==> r.0.action.Some? && r.0.action.value.kind.Allocate?)
    && (r.1.CounterExhausted? ==> r.0.nextToken == U64 - 1 || r.0.generation == U64 - 1)
  }

  lemma EmitGrows(m: Machine, k: Kind)
    requires m.action.None?
    ensures Grows(m, Emit(m, k)) && (Emit(m, k).1.Okay? || Emit(m, k).1.CounterExhausted?)
    ensures Emit(m, k).0.phase.Faulted? && !m.phase.Faulted? ==> Exhausts(Emit(m, k))
  {
  }

  /** The call failed because a counter ran out. */
  ghost predicate Exhausts(r: (Machine, Status)) {
    r.1.CounterExhausted? && r.0.faultCode == StatusCode(CounterExhausted)
  }

  lemma BeginStartGrows(m: Machine)
    requires m.action.None?
    ensures Grows(m, BeginStart(m))
    ensures ConfigurationOk(m.configuration) ==> BeginStart(m).1.Okay? || BeginStart(m).1.CounterExhausted?
    ensures BeginStart(m).0.phase.Faulted? ==> m.phase.Faulted?
  {
    hide ConfigurationOk;
  }

  lemma NextCleanupGrows(m: Machine)
    requires m.action.None?
    ensures Grows(m, NextCleanup(m))
    ensures ConfigurationOk(m.configuration) && m.phase.Stopping? && NextCleanup(m).0.phase.Faulted? ==> Exhausts(NextCleanup(m))
  {
    hide ConfigurationOk, Emit, BeginStart;
    var clean := m.(restart := false, phase := Idle, fault := NoFault, faultCode := 0);
    BeginStartGrows(clean);
    if CleanupKind(m).Some? { EmitGrows(m, CleanupKind(m).value); }
  }

  lemma AfterDoneGrows(m: Machine, k: Kind)
    requires m.action.None?
    ensures Grows(m, AfterDone(m, k))
    ensures ConfigurationOk(m.configuration) && m.phase.Stopping? && AfterDone(m, k).0.phase.Faulted? ==> Exhausts(AfterDone(m, k))
  {
    hide ConfigurationOk, Emit, NextCleanup;
    EmitGrows(m, Launch);
    EmitGrows(m, Transfer);
    NextCleanupGrows(m);
  }

  lemma CompleteGrows(m: Machine, call: Call)
    requires MachineOk(m) && call.CallComplete? && Refusal(m, call.generation, call.token, call.result, call.resources, call.sandbox).Okay?
    ensures Grows(m.(action := None), Apply(m, call))
    ensures m.phase.Stopping? && Apply(m, call).0.phase.Faulted? && call.result.Okay? ==> Exhausts(Apply(m, call))
  {
    var k := m.action.value.kind;
    AfterDoneGrows(Done(m.(action := None), k, call.resources, call.sandbox), k);
    hide ConfigurationOk, AfterDone;
  }

  lemma StopGrows(m: Machine, restart: bool)
    requires MachineOk(m) && m.action.None? && (m.phase.Handshaking? || m.phase.Running? || m.phase.Faulted?)
    ensures Grows(m, Stop(m, restart))
  {
    NextCleanupGrows(m.(graceful := !m.phase.Faulted?, phase := Stopping, restart := restart));
    hide ConfigurationOk, NextCleanup;
  }

  /** Outside idle the configuration is frozen and stays the one that start validated. */
  lemma ConfigurationFrozen(m: Machine, call: Call)
    requires MachineOk(m) && !m.phase.Idle?
    ensures ConfigurationOk(m.configuration) && Apply(m, call).0.configuration == m.configuration
  {
    CallGrows(m, call);
  }

  /** Tokens are never reused and generations never go back. */
  lemma CallGrows(m: Machine, call: Call)
    requires MachineOk(m)
    ensures var m' := Apply(m, call).0;
            && m.generation <= m'.generation <= m.generation + 1 && m.nextToken <= m'.nextToken <= m.nextToken + 1
            && (m'.nextToken > m.nextToken <==> m'.action.Some? && m'.action != m.action)
            && (m'.generation > m.generation ==> m'.action.Some? && m'.action.value.kind.Allocate?)
            && (!m.phase.Idle? ==> m'.configuration == m.configuration)
  {
    hide ConfigurationOk, BeginStart, NextCleanup, AfterDone;
    match call
    case CallComplete(_, _, _, _, _) =>
      if Refusal(m, call.generation, call.token, call.result, call.resources, call.sandbox).Okay? { CompleteGrows(m, call); }
    case CallStop => if m.action.None? && !m.phase.Idle? { StopGrows(m, false); }
    case CallRestart => if m.action.None? && !m.phase.Idle? { StopGrows(m, true); }
    case CallStart => if m.phase.Idle? { BeginStartGrows(m); }
    case _ =>
  }

  /** A restart that was accepted can fail only because a host action failed or a counter is exhausted. */
  lemma RestartFailsOnlyByExhaustion(m: Machine, call: Call)
    requires MachineOk(m) && m.phase.Stopping?
    requires call.CallComplete? ==> call.result.Okay?
    ensures var (m', status) := Apply(m, call);
            m'.phase.Faulted? ==>
              && status.CounterExhausted? && m'.faultCode == StatusCode(CounterExhausted)
              && (m'.nextToken == U64 - 1 || m'.generation == U64 - 1)
  {
    if call.CallComplete? && Refusal(m, call.generation, call.token, call.result, call.resources, call.sandbox).Okay? {
      CompleteGrows(m, call);
    }
  }
}
