/** The controller as the object its owner calls. */
module ControllerObject {
  import opened Bytes
  import M = Controller
  import opened ControllerRuns
  import H = ControllerHistory

  class SandboxController {
    var configuration: M.Configuration
    var action: M.Option<M.Action>
    var phase: M.Phase
    var fault: M.FaultKind
    var faultCode: u64
    var generation: u64
    var nextToken: u64
    var held: M.Holdings
    var restart: bool
    var graceful: bool
    /** Everything the host has seen of this controller. */
    ghost var log: seq<H.Event>

    ghost function View(): M.Machine
      reads this
    {
      M.Machine(configuration, action, phase, fault, faultCode, generation, nextToken, held, restart, graceful)
    }

    /** The fields and what the host has seen agree. */
    ghost predicate Valid()
      reads this
    {
      H.HistoryOk(View(), log)
    }

    ghost function History(): H.Trace
      reads this
    {
      H.Trace(View(), log)
    }

    /** This state is the state `t` after `call`, which answered `status`; the log went on and is in order. */
    ghost predicate Made(t: H.Trace, call: Call, status: M.Status)
      requires Shaped(t.m)
      reads this
    {
      Valid() && t.log <= log && History() == H.Next(t, call) && status == Apply(t.m, call).1
    }

    lemma Extend(call: Call)
      requires Valid()
      ensures H.HistoryOk(H.Next(History(), call).m, H.Next(History(), call).log) && log <= H.Next(History(), call).log
      ensures H.Next(History(), call).m == Apply(View(), call).0 && Shaped(View())
    {
      H.NextOk(History(), call);
      H.LogExtends(History(), call);
    }

    /** Whatever calls were made and whatever the host answered, teardown was safe. */
    lemma TeardownSafe(i: nat)
      requires Valid() && i < |log|
      ensures H.Safe(log, i)
    {
      H.LogSafe(log, i);
    }

    /** Every action names the resource set and the sandbox the host gave its generation. */
    lemma ActionsNameTheirOwn(i: nat)
      requires Valid() && i < |log| && log[i].Emitted?
      ensures H.NamesTrue(log[..i], log[i].action)
    {
      H.LogNames(log, i);
    }

    lemma TokensGrow(i: nat, j: nat)
      requires Valid() && i < j < |log|
      ensures H.Ordered(log, i, j)
    {
      H.LogOrdered(log, i, j);
    }

    /** A new controller is idle, unconfigured and holds nothing. */
    constructor ()
      ensures Valid() && View() == M.Created() && log == []
    {
      configuration := M.Created().configuration;
      action, phase, fault, faultCode := M.None, M.Idle, M.NoFault, 0;
      generation, nextToken, held := 0, 0, M.NOTHING;
      restart, graceful := false, false;
      log := [];
      new;
      CreatedOk();
    }

    method EmitAction(kind: M.Kind) returns (status: M.Status)
      modifies this`phase, this`fault, this`faultCode, this`nextToken, this`action
      ensures (View(), status) == M.Emit(old(View()), kind)
    {
      if nextToken == U64 - 1 {
        phase, fault, faultCode := M.Faulted, M.ControllerFault, M.StatusCode(M.CounterExhausted);
        return M.CounterExhausted;
      }
      nextToken := nextToken + 1;
      var owner, process: u64 := 0, 0;
      match kind {
        case Launch => owner := held.resources;
        case Reset => owner := held.resources;
        case Release => owner := held.resources;
        case Transfer => owner, process := held.resources, held.sandbox;
        case Quiesce => owner, process := held.resources, held.sandbox;
        case Terminate => process := held.sandbox;
        case Reap => process := held.sandbox;
        case Revoke => owner := held.resources;
        case Allocate =>
      }
      action := M.Some(M.Action(kind, nextToken, generation, owner, process, configuration));
      return M.Okay;
    }

    static method DigestIsZero(digest: M.Digest) returns (zero: bool)
      ensures zero <==> M.ZeroDigest(digest)
    {
      var combined := false;
      for i := 0 to |digest|
        invariant combined <==> exists j :: 0 <= j < i && digest[j] != 0
      {
        combined := combined || digest[i] != 0;
      }
      return !combined;
    }

    method ValidateConfiguration() returns (status: M.Status)
      requires Shaped(View())
      ensures status == if M.ConfigurationOk(configuration) then M.Okay else M.InvalidConfiguration
    {
      if configuration.closure.None? || configuration.mask != {1, 2, 3} { return M.InvalidConfiguration; }
      for i := 1 to M.DIGEST_KINDS
        invariant forall j :: 1 <= j < i ==> !M.ZeroDigest(configuration.digests[j])
      {
        var zero := DigestIsZero(configuration.digests[i]);
        if zero { return M.InvalidConfiguration; }
      }
      for i := 0 to M.LIMIT_KINDS
        invariant forall j :: 0 <= j < i ==> configuration.limits[j] != 0
      {
        if configuration.limits[i] == 0 { return M.InvalidConfiguration; }
      }
      if configuration.flags > M.KNOWN_FLAGS { return M.InvalidConfiguration; }
      return M.Okay;
    }

    method BeginStart() returns (status: M.Status)
      requires Shaped(View())
      modifies this
      ensures (View(), status) == M.BeginStart(old(View())) && log == old(log)
    {
      hide M.ConfigurationOk, M.Emit;
      if generation == U64 - 1 || nextToken == U64 - 1 { return M.CounterExhausted; }
      status := ValidateConfiguration();
      if !status.Okay? { return; }
      generation := generation + 1;
      phase, fault, faultCode := M.Starting, M.NoFault, 0;
      held := M.NOTHING;
      status := EmitAction(M.Allocate);
    }

    method FinishCleanup() returns (status: M.Status)
      requires Shaped(View())
      modifies this
      ensures (View(), status) == M.FinishCleanup(old(View())) && log == old(log)
    {
      var again := restart;
      restart := false;
      phase, fault, faultCode := M.Idle, M.NoFault, 0;
      if !again { return M.Okay; }
      status := BeginStart();
      if !status.Okay? {
        phase, fault, faultCode := M.Faulted, M.ControllerFault, M.StatusCode(status);
      }
    }

    method NextCleanupAction() returns (status: M.Status)
      requires Shaped(View())
      modifies this
      ensures (View(), status) == M.NextCleanup(old(View())) && log == old(log)
    {
      var resetRequired := configuration.flags % 2 == 1;
      if held.started {
        status := EmitAction(if graceful then M.Quiesce else M.Terminate);
      } else if held.granted && !held.revoked {
        status := EmitAction(M.Revoke);
      } else if held.granted && resetRequired && !held.reset {
        status := EmitAction(M.Reset);
      } else if held.exited {
        status := EmitAction(M.Reap);
      } else if held.granted {
        status := EmitAction(M.Release);
      } else {
        status := FinishCleanup();
      }
    }

    method BeginCleanup(again: bool) returns (status: M.Status)
      requires Shaped(View())
      modifies this
      ensures (View(), status) == M.BeginCleanup(old(View()), again) && log == old(log)
    {
      graceful := !phase.Faulted?;
      phase := M.Stopping;
      restart := again;
      status := NextCleanupAction();
    }

    method Start() returns (status: M.Status)
      requires Valid()
      modifies this
      ensures Made(old(History()), CallStart, status)
    {
      hide M.BeginStart, H.HistoryOk, H.Next;
      Extend(CallStart);
      log := H.Next(History(), CallStart).log;
      if !phase.Idle? { return M.InvalidState; }
      if action.Some? { return M.ActionPending; }
      status := BeginStart();
    }

    method Stop() returns (status: M.Status)
      requires Valid()
      modifies this
      ensures Made(old(History()), CallStop, status)
    {
      hide M.BeginCleanup, H.HistoryOk, H.Next;
      Extend(CallStop);
      log := H.Next(History(), CallStop).log;
      if action.Some? { return M.ActionPending; }
      if !phase.Handshaking? && !phase.Running? && !phase.Faulted? { return M.InvalidState; }
      status := BeginCleanup(false);
    }

    method Restart() returns (status: M.Status)
      requires Valid()
      modifies this
      ensures Made(old(History()), CallRestart, status)
    {
      hide M.BeginCleanup, H.HistoryOk, H.Next;
      Extend(CallRestart);
      log := H.Next(History(), CallRestart).log;
      if action.Some? { return M.ActionPending; }
      if !phase.Handshaking? && !phase.Running? && !phase.Faulted? { return M.InvalidState; }
      status := BeginCleanup(true);
    }

    /** Record a completed action and go on. */
    method Proceed(kind: M.Kind, resourceSet: u64, process: u64) returns (status: M.Status)
      requires Shaped(View())
      modifies this
      ensures (View(), status) == M.AfterDone(M.Done(old(View()), kind, resourceSet, process), kind) && log == old(log)
    {
      hide M.NextCleanup, M.Emit, M.ConfigurationOk;
      match kind {
        case Allocate =>
          held := held.(resources := resourceSet, granted := true);
          status := EmitAction(M.Launch);
        case Launch =>
          held := held.(sandbox := process, started := true);
          status := EmitAction(M.Transfer);
        case Transfer =>
          phase := M.Handshaking;
          status := M.Okay;
        case Quiesce =>
          held := held.(started := false, exited := true);
          status := NextCleanupAction();
        case Terminate =>
          held := held.(started := false, exited := true);
          status := NextCleanupAction();
        case Reap =>
          held := held.(exited := false, sandbox := 0);
          status := NextCleanupAction();
        case Revoke =>
          held := held.(revoked := true);
          status := NextCleanupAction();
        case Reset =>
          held := held.(reset := true);
          status := NextCleanupAction();
        case Release =>
          held := held.(granted := false, resources := 0);
          status := NextCleanupAction();
      }
    }

    /** Whether the completion is for the pending action and brings the identifiers it must. */
    method CheckCompletion(generation: u64, token: u64, result: M.Status, resourceSet: u64, process: u64) returns (status: M.Status)
      ensures status == M.Refusal(View(), generation, token, result, resourceSet, process)
      ensures status.Okay? ==> action.Some?
    {
      if !M.ResultValid(result) { return M.InvalidArgument; }
      if action.None? { return M.InvalidState; }
      if generation != this.generation { return M.StaleGeneration; }
      if token != action.value.token { return M.StaleAction; }
      if !result.Okay? {
        if resourceSet != 0 || process != 0 { return M.InvalidArgument; }
      } else {
        match action.value.kind {
          case Allocate => if resourceSet == 0 || process != 0 { return M.InvalidArgument; }
          case Launch => if resourceSet != 0 || process == 0 { return M.InvalidArgument; }
          case _ => if resourceSet != 0 || process != 0 { return M.InvalidArgument; }
        }
      }
      return M.Okay;
    }

    method CompleteAction(generation: u64, token: u64, result: M.Status, resourceSet: u64, process: u64) returns (status: M.Status)
      requires Valid()
      modifies this
      ensures Made(old(History()), CallComplete(generation, token, result, resourceSet, process), status)
    {
      hide M.AfterDone, M.Done, H.HistoryOk, H.Next, M.Refusal;
      ghost var m := View();
      Extend(CallComplete(generation, token, result, resourceSet, process));
      log := H.Next(History(), CallComplete(generation, token, result, resourceSet, process)).log;
      status := CheckCompletion(generation, token, result, resourceSet, process);
      if !status.Okay? { return; }
      var completed := action.value.kind;
      action := M.None;
      assert View() == m.(action := M.None);
      if !result.Okay? {
        phase, fault, faultCode := M.Faulted, M.HostAction, M.KindCode(completed);
        return result;
      }
      status := Proceed(completed, resourceSet, process);
    }

    method ReportReady(generation: u64) returns (status: M.Status)
      requires Valid()
      modifies this
      ensures Made(old(History()), CallReady(generation), status)
    {
      hide H.HistoryOk, H.Next;
      Extend(CallReady(generation));
      log := H.Next(History(), CallReady(generation)).log;
      if generation != this.generation { return M.StaleGeneration; }
      if action.Some? { return M.ActionPending; }
      if !phase.Handshaking? { return M.InvalidState; }
      phase := M.Running;
      return M.Okay;
    }

    method ReportFault(generation: u64, kind: M.FaultKind, code: u64) returns (status: M.Status)
      requires Valid()
      modifies this
      ensures Made(old(History()), CallFault(generation, kind, code), status)
    {
      hide H.HistoryOk, H.Next;
      Extend(CallFault(generation, kind, code));
      log := H.Next(History(), CallFault(generation, kind, code)).log;
      if !kind.ProcessExit? && !kind.Protocol? { return M.InvalidArgument; }
      if generation != this.generation { return M.StaleGeneration; }
      if action.Some? { return M.ActionPending; }
      if !phase.Handshaking? && !phase.Running? { return M.InvalidState; }
      if kind.ProcessExit? { held := held.(started := false, exited := true); }
      phase, fault, faultCode := M.Faulted, kind, code;
      return M.Okay;
    }

    /** `copy` is the private clone of the closure, or none when memory ran out. */
    method SetClosure(copy: M.Option<M.ClosureCopy>) returns (status: M.Status)
      requires Valid()
      modifies this`configuration, this`log
      ensures Valid()
      ensures copy.Some? ==> Made(old(History()), CallSetClosure(copy.value), status)
      ensures copy.None? ==> History() == old(History()) && status == if M.Configurable(View()) then M.NoMemory else M.InvalidState
    {
      hide H.HistoryOk, H.Next;
      if copy.Some? {
        Extend(CallSetClosure(copy.value));
        log := H.Next(History(), CallSetClosure(copy.value)).log;
      }
      if !phase.Idle? || action.Some? { return M.InvalidState; }
      if copy.None? { return M.NoMemory; }
      configuration := configuration.(closure := copy, flags := copy.value.flags);
      return M.Okay;
    }

    method SetDigest(kind: nat, digest: M.Digest) returns (status: M.Status)
      requires Valid()
      modifies this`configuration, this`log
      ensures Made(old(History()), CallSetDigest(kind, digest), status)
    {
      hide H.HistoryOk, H.Next;
      Extend(CallSetDigest(kind, digest));
      log := H.Next(History(), CallSetDigest(kind, digest)).log;
      if kind >= M.DIGEST_KINDS || |digest| != M.DIGEST_SIZE { return M.InvalidArgument; }
      if kind == 0 { return M.InvalidArgument; }
      if !phase.Idle? || action.Some? { return M.InvalidState; }
      var zero := DigestIsZero(digest);
      if zero { return M.InvalidConfiguration; }
      configuration := configuration.(digests := configuration.digests[kind := digest], mask := configuration.mask + {kind});
      return M.Okay;
    }

    method SetLimit(kind: nat, value: u64) returns (status: M.Status)
      requires Valid()
      modifies this`configuration, this`log
      ensures Made(old(History()), CallSetLimit(kind, value), status)
    {
      hide H.HistoryOk, H.Next;
      Extend(CallSetLimit(kind, value));
      log := H.Next(History(), CallSetLimit(kind, value)).log;
      if kind >= M.LIMIT_KINDS { return M.InvalidArgument; }
      if !phase.Idle? || action.Some? { return M.InvalidState; }
      if value == 0 { return M.InvalidConfiguration; }
      configuration := configuration.(limits := configuration.limits[kind := value]);
      return M.Okay;
    }
  }
}
