/** The sandbox controller: one owner drives it, the host completes the actions it emits.

    `Machine` is the controller as a value and the functions over it say what every call does;
    `ControllerObject.SandboxController` is the object whose methods update their fields in place.
 */
module Controller {
  import opened Bytes

  const DIGEST_SIZE: nat := 32
  const DIGEST_KINDS: nat := 4
  const LIMIT_KINDS: nat := 4
  const KNOWN_FLAGS: u32 := 1

  type Digest = seq<byte>

  datatype Status =
    | Okay | InvalidArgument | InvalidState | InvalidConfiguration | ActionPending | StaleGeneration | StaleAction
    | NoMemory | ResourceDenied | ResourceExhausted | HostFailure | CounterExhausted

  datatype Phase = Idle | Starting | Handshaking | Running | Stopping | Faulted
  datatype Kind =
    | Allocate | Launch | Transfer | Quiesce | Terminate | Revoke | Reset | Reap | Release
  datatype FaultKind = NoFault | ProcessExit | Protocol | HostAction | ControllerFault
  datatype Option<T> = None | Some(value: T)

  /** A sealed closure, as far as the controller looks at it. */
  datatype ClosureCopy = ClosureCopy(closure: nat, flags: u32)

  datatype Configuration = Configuration(
    closure: Option<ClosureCopy>, digests: seq<Digest>, limits: seq<u64>, mask: set<nat>, flags: u32)

  datatype Action = Action(
    kind: Kind, token: u64, generation: u64, resources: u64, sandbox: u64, configuration: Configuration)

  /** What the controller has the host hold for it in this generation. */
  datatype Holdings = Holdings(
    resources: u64, sandbox: u64, granted: bool, revoked: bool, reset: bool, started: bool, exited: bool)

  datatype Machine = Machine(
    configuration: Configuration, action: Option<Action>, phase: Phase, fault: FaultKind, faultCode: u64,
    generation: u64, nextToken: u64, held: Holdings, restart: bool, graceful: bool)

  const NOTHING := Holdings(0, 0, false, false, false, false, false)

  function StatusCode(s: Status): u64 {
    match s
    case Okay => 0 case InvalidArgument => 1 case InvalidState => 2 case InvalidConfiguration => 3
    case ActionPending => 4 case StaleGeneration => 5 case StaleAction => 6 case NoMemory => 7
    case ResourceDenied => 8 case ResourceExhausted => 9 case HostFailure => 10 case CounterExhausted => 11
  }

  function KindCode(k: Kind): u64 {
    match k
    case Allocate => 1 case Launch => 2 case Transfer => 3 case Quiesce => 4 case Terminate => 5
    case Revoke => 6 case Reset => 7 case Reap => 8 case Release => 9
  }

  predicate ZeroDigest(d: Digest) {
    forall i :: 0 <= i < |d| ==> d[i] == 0
  }

  ghost predicate ConfigurationOk(c: Configuration) {
    && c.closure.Some? && c.mask == {1, 2, 3} && |c.digests| == DIGEST_KINDS && |c.limits| == LIMIT_KINDS
    && (forall i :: 1 <= i < DIGEST_KINDS ==> !ZeroDigest(c.digests[i]))
    && (forall i :: 0 <= i < LIMIT_KINDS ==> c.limits[i] != 0)
    && c.flags <= KNOWN_FLAGS
  }

  /** The reset flag is the lowest bit, and the only known one. */
  predicate ResetRequired(c: Configuration) {
    c.flags % 2 == 1
  }

  // ------------------------------------------------------- the calls, as values

  predicate NamesResources(k: Kind) {
    k.Launch? || k.Reset? || k.Release? || k.Transfer? || k.Quiesce? || k.Revoke?
  }

  predicate NamesSandbox(k: Kind) {
    k.Transfer? || k.Quiesce? || k.Terminate? || k.Reap?
  }

  function Emit(m: Machine, k: Kind): (Machine, Status) {
    if m.nextToken == U64 - 1 then
      (m.(phase := Faulted, fault := ControllerFault, faultCode := StatusCode(CounterExhausted)), CounterExhausted)
    else
      (m.(nextToken := m.nextToken + 1,
          action := Some(Action(k, m.nextToken + 1, m.generation, if NamesResources(k) then m.held.resources else 0,
                                if NamesSandbox(k) then m.held.sandbox else 0, m.configuration))), Okay)
  }

  ghost function BeginStart(m: Machine): (Machine, Status) {
    if m.generation == U64 - 1 || m.nextToken == U64 - 1 then (m, CounterExhausted)
    else if !ConfigurationOk(m.configuration) then (m, InvalidConfiguration)
    else Emit(m.(generation := m.generation + 1, phase := Starting, fault := NoFault, faultCode := 0, held := NOTHING),
              Allocate)
  }

  ghost function FinishCleanup(m: Machine): (Machine, Status) {
    var clean := m.(restart := false, phase := Idle, fault := NoFault, faultCode := 0);
    if !m.restart then (clean, Okay) else
    var (next, status) := BeginStart(clean);
    if status.Okay? then (next, status)
    else (next.(phase := Faulted, fault := ControllerFault, faultCode := StatusCode(status)), status)
  }

  /** The next thing to undo, if anything is left. */
  function CleanupKind(m: Machine): Option<Kind> {
    if m.held.started then Some(if m.graceful then Quiesce else Terminate)
    else if m.held.granted && !m.held.revoked then Some(Revoke)
    else if m.held.granted && ResetRequired(m.configuration) && !m.held.reset then Some(Reset)
    else if m.held.exited then Some(Reap)
    else if m.held.granted then Some(Release)
    else None
  }

  ghost function NextCleanup(m: Machine): (Machine, Status) {
    match CleanupKind(m)
    case Some(k) => Emit(m, k)
    case None => FinishCleanup(m)
  }

  ghost function BeginCleanup(m: Machine, restart: bool): (Machine, Status) {
    NextCleanup(m.(graceful := !m.phase.Faulted?, phase := Stopping, restart := restart))
  }

  ghost function Start(m: Machine): (Machine, Status) {
    if !m.phase.Idle? then (m, InvalidState)
    else if m.action.Some? then (m, ActionPending)
    else BeginStart(m)
  }

  ghost function Stop(m: Machine, restart: bool): (Machine, Status) {
    if m.action.Some? then (m, ActionPending)
    else if !m.phase.Handshaking? && !m.phase.Running? && !m.phase.Faulted? then (m, InvalidState)
    else BeginCleanup(m, restart)
  }

  predicate ResultValid(result: Status) {
    result.Okay? || result.ResourceDenied? || result.ResourceExhausted? || result.HostFailure?
  }

  /** The identifiers a completion must bring. */
  predicate IdsFit(k: Kind, result: Status, resources: u64, sandbox: u64) {
    && (result.Okay? && k.Allocate? <==> resources != 0)
    && (result.Okay? && k.Launch? <==> sandbox != 0)
  }

  /** Why a completion is turned away, or Okay when it is taken. */
  function Refusal(m: Machine, generation: u64, token: u64, result: Status, resources: u64, sandbox: u64): Status {
    if !ResultValid(result) then InvalidArgument
    else if m.action.None? then InvalidState
    else if generation != m.generation then StaleGeneration
    else if token != m.action.value.token then StaleAction
    else if !IdsFit(m.action.value.kind, result, resources, sandbox) then InvalidArgument
    else Okay
  }

  /** What the host did, as the controller records it. */
  function Done(m: Machine, k: Kind, resources: u64, sandbox: u64): Machine {
    match k
    case Allocate => m.(held := m.held.(resources := resources, granted := true))
    case Launch => m.(held := m.held.(sandbox := sandbox, started := true))
    case Transfer => m.(phase := Handshaking)
    case Quiesce => m.(held := m.held.(started := false, exited := true))
    case Terminate => m.(held := m.held.(started := false, exited := true))
    case Revoke => m.(held := m.held.(revoked := true))
    case Reset => m.(held := m.held.(reset := true))
    case Reap => m.(held := m.held.(exited := false, sandbox := 0))
    case Release => m.(held := m.held.(granted := false, resources := 0))
  }

  ghost function AfterDone(m: Machine, k: Kind): (Machine, Status) {
    match k
    case Allocate => Emit(m, Launch)
    case Launch => Emit(m, Transfer)
    case Transfer => (m, Okay)
    case _ => NextCleanup(m)
  }

  ghost function Complete(m: Machine, generation: u64, token: u64, result: Status, resources: u64, sandbox: u64): (Machine, Status) {
    var refusal := Refusal(m, generation, token, result, resources, sandbox);
    if !refusal.Okay? then (m, refusal) else
    var k, idle := m.action.value.kind, m.(action := None);
    if !result.Okay? then (idle.(phase := Faulted, fault := HostAction, faultCode := KindCode(k)), result)
    else AfterDone(Done(idle, k, resources, sandbox), k)
  }

  function ReportReady(m: Machine, generation: u64): (Machine, Status) {
    if generation != m.generation then (m, StaleGeneration)
    else if m.action.Some? then (m, ActionPending)
    else if !m.phase.Handshaking? then (m, InvalidState)
    else (m.(phase := Running), Okay)
  }

  function ReportFault(m: Machine, generation: u64, kind: FaultKind, code: u64): (Machine, Status) {
    if !kind.ProcessExit? && !kind.Protocol? then (m, InvalidArgument)
    else if generation != m.generation then (m, StaleGeneration)
    else if m.action.Some? then (m, ActionPending)
    else if !m.phase.Handshaking? && !m.phase.Running? then (m, InvalidState)
    else
      var gone := if kind.ProcessExit? then m.(held := m.held.(started := false, exited := true)) else m;
      (gone.(phase := Faulted, fault := kind, faultCode := code), Okay)
  }

  predicate Configurable(m: Machine) {
    m.phase.Idle? && m.action.None?
  }

  function SetClosure(m: Machine, copy: ClosureCopy): (Machine, Status) {
    if !Configurable(m) then (m, InvalidState)
    else (m.(configuration := m.configuration.(closure := Some(copy), flags := copy.flags)), Okay)
  }

  function SetDigest(m: Machine, kind: nat, digest: Digest): (Machine, Status)
    requires |m.configuration.digests| == DIGEST_KINDS
  {
    if |digest| != DIGEST_SIZE || kind == 0 || kind >= DIGEST_KINDS then (m, InvalidArgument)
    else if !Configurable(m) then (m, InvalidState)
    else if ZeroDigest(digest) then (m, InvalidConfiguration)
    else (m.(configuration := m.configuration.(digests := m.configuration.digests[kind := digest],
                                               mask := m.configuration.mask + {kind})), Okay)
  }

  function SetLimit(m: Machine, kind: nat, value: u64): (Machine, Status)
    requires |m.configuration.limits| == LIMIT_KINDS
  {
    if kind >= LIMIT_KINDS then (m, InvalidArgument)
    else if !Configurable(m) then (m, InvalidState)
    else if value == 0 then (m, InvalidConfiguration)
    else (m.(configuration := m.configuration.(limits := m.configuration.limits[kind := value])), Okay)
  }

  function ZeroBytes(n: nat): (d: Digest)
    ensures |d| == n && ZeroDigest(d)
  {
    if n == 0 then [] else ZeroBytes(n - 1) + [0]
  }

  /** A newly created controller. */
  function Created(): Machine {
    Machine(Configuration(None, [ZeroBytes(DIGEST_SIZE), ZeroBytes(DIGEST_SIZE), ZeroBytes(DIGEST_SIZE), ZeroBytes(DIGEST_SIZE)], [0, 0, 0, 0], {}, 0),
            None, Idle, NoFault, 0, 0, 0, NOTHING, false, false)
  }
}
