/** The reference counter: any number of threads in compare-exchange loops over one 32-bit word. */
module Refcount {
  import opened Bytes

  const SATURATED: u32 := 0xffff_ffff

  datatype Op = Increment | IncrementNotZero | DecrementAndTest

  /** A thread is outside, or in the loop of an operation with the value it last observed. */
  datatype Thread = Outside | Inside(op: Op, observed: u32)

  /** A completed operation and what it returned. */
  datatype Done = Done(op: Op, result: bool)

  datatype System = System(value: u32, threads: map<nat, Thread>, log: seq<Done>, trapped: bool)

  datatype Step = Enter(thread: nat, op: Op) | Iterate(thread: nat)

  // --------------------------------------------------------------- one iteration

  /** What one pass through the loop body does. */
  datatype Outcome = Trap | Return(result: bool) | Exchange(next: u32, trap: bool, result: bool)

  function Body(op: Op, observed: u32): Outcome {
    match op
    case Increment =>
      if observed == SATURATED then Trap
      else if observed == 0 || observed == SATURATED - 1 then Exchange(SATURATED, true, false)
      else Exchange(observed + 1, false, true)
    case IncrementNotZero =>
      if observed == 0 then Return(false)
      else if observed == SATURATED then Trap
      else if observed == SATURATED - 1 then Exchange(SATURATED, true, false)
      else Exchange(observed + 1, false, true)
    case DecrementAndTest =>
      if observed == 0 then Exchange(SATURATED, true, false)
      else if observed == SATURATED then Trap
      else Exchange(observed - 1, false, observed == 1)
  }

  function Leave(s: System, t: nat, done: Done): System {
    s.(threads := s.threads[t := Outside], log := s.log + [done])
  }

  function Stop(s: System, t: nat): System {
    s.(threads := s.threads[t := Outside], trapped := true)
  }

  function Next(s: System, step: Step): System {
    match step
    case Enter(t, op) =>
      if t in s.threads && s.threads[t].Inside? then s else s.(threads := s.threads[t := Inside(op, s.value)])
    case Iterate(t) =>
      if t !in s.threads || s.threads[t].Outside? then s else
      var thread := s.threads[t];
      match Body(thread.op, thread.observed)
      case Trap => Stop(s, t)
      case Return(result) => Leave(s, t, Done(thread.op, result))
      case Exchange(next, trap, result) =>
        if s.value != thread.observed then s.(threads := s.threads[t := Inside(thread.op, s.value)])
        else if trap then Stop(s.(value := next), t)
        else Leave(s.(value := next), t, Done(thread.op, result))
  }

  function Run(s: System, steps: seq<Step>): System {
    if steps == [] then s else Next(Run(s, steps[..|steps| - 1]), steps[|steps| - 1])
  }

  /** After set: any count but the saturated one, and no thread inside. */
  function Initial(count: u32): System
    requires count != SATURATED
  {
    System(count, map[], [], false)
  }

  // ------------------------------------------------------------ sequential meaning

  /** One operation on a plain counter: whether it may happen with this result, and the count after it. */
  predicate Allowed(count: int, done: Done) {
    match done.op
    case Increment => 0 < count && done.result
    case IncrementNotZero => done.result <==> count > 0
    case DecrementAndTest => 0 < count && (done.result <==> count == 1)
  }

  function After(count: int, done: Done): int {
    match done.op
    case Increment => count + 1
    case IncrementNotZero => if done.result then count + 1 else count
    case DecrementAndTest => count - 1
  }

  function Replay(count: int, log: seq<Done>): int {
    if log == [] then count else After(Replay(count, log[..|log| - 1]), log[|log| - 1])
  }

  /** The log is a sequential history of a plain counter that never leaves zero. */
  ghost predicate Sequential(count: int, log: seq<Done>) {
    forall i :: 0 <= i < |log| ==> Allowed(Replay(count, log[..i]), log[i])
  }

  lemma ReplayAppend(count: int, log: seq<Done>, done: Done)
    requires Sequential(count, log) && Allowed(Replay(count, log), done)
    ensures Replay(count, log + [done]) == After(Replay(count, log), done) && Sequential(count, log + [done])
  {
    var log' := log + [done];
    assert log'[..|log|] == log;
    forall i | 0 <= i < |log'| ensures Allowed(Replay(count, log'[..i]), log'[i]) {
      assert log'[..i] == log[..i];
      assert log[..|log|] == log;
    }
  }

  // ------------------------------------------------------------------ invariant

  /** Without a trap the word is the count, the log is sequential, nobody saw it saturated, and who saw zero still sees it. */
  ghost predicate Inv(count: u32, s: System) {
    !s.trapped ==>
      && s.value != SATURATED && s.value == Replay(count, s.log) && Sequential(count, s.log)
      && forall t :: t in s.threads && s.threads[t].Inside? ==>
             s.threads[t].observed != SATURATED && (s.threads[t].observed == 0 ==> s.value == 0)
  }

  lemma ExchangeKeeps(count: u32, s: System, t: nat, done: Done, next: u32)
    requires Inv(count, s) && !s.trapped && t in s.threads && next != SATURATED
    requires Allowed(s.value, done) && next == After(s.value, done) && (s.value == 0 ==> next == 0)
    ensures Inv(count, Leave(s.(value := next), t, done))
  {
    ReplayAppend(count, s.log, done);
    hide Replay, Sequential;
  }

  lemma NextKeeps(count: u32, s: System, step: Step)
    requires Inv(count, s)
    ensures Inv(count, Next(s, step))
  {
    hide Replay, Sequential;
    if step.Iterate? && step.thread in s.threads && s.threads[step.thread].Inside? && !s.trapped {
      var t, thread := step.thread, s.threads[step.thread];
      match Body(thread.op, thread.observed)
      case Trap =>
      case Return(result) => ExchangeKeeps(count, s, t, Done(thread.op, result), s.value);
      case Exchange(next, trap, result) =>
        if s.value == thread.observed && !trap { ExchangeKeeps(count, s, t, Done(thread.op, result), next); }
    }
  }

  lemma {:induction false} RunKeeps(count: u32, steps: seq<Step>)
    requires count != SATURATED
    ensures Inv(count, Run(Initial(count), steps))
    decreases |steps|
  {
    if steps != [] {
      RunKeeps(count, steps[..|steps| - 1]);
      NextKeeps(count, Run(Initial(count), steps[..|steps| - 1]), steps[|steps| - 1]);
    }
  }

  // ------------------------------------------------------------------- theorems

  /** Every interleaving without a trap is a sequential history, and the word is its count. */
  lemma Linearizes(count: u32, steps: seq<Step>)
    requires count != SATURATED && !Run(Initial(count), steps).trapped
    ensures var s := Run(Initial(count), steps);
            Sequential(count, s.log) && s.value == Replay(count, s.log) < SATURATED
  {
    RunKeeps(count, steps);
  }

  /** Operations a counter of 32 bits has no result for at this count. */
  predicate Forbidden(op: Op, count: int) {
    match op
    case Increment => count == 0 || count + 1 >= SATURATED
    case IncrementNotZero => count + 1 >= SATURATED
    case DecrementAndTest => count == 0
  }

  /** Thread `t` is in the loop of an operation. */
  predicate Busy(s: System, t: nat) {
    t in s.threads && s.threads[t].Inside?
  }

  /** In every interleaving, a step traps exactly when its thread sees the current count and the operation is forbidden
      there; the word is then saturated. */
  lemma TrapsExactly(count: u32, steps: seq<Step>, step: Step)
    requires count != SATURATED && !Run(Initial(count), steps).trapped
    ensures var s := Run(Initial(count), steps);
            && (Next(s, step).trapped <==>
                  && step.Iterate? && Busy(s, step.thread) && s.threads[step.thread].observed == s.value
                  && Forbidden(s.threads[step.thread].op, s.value))
            && (Next(s, step).trapped <==> Next(s, step).value == SATURATED)
  {
    RunKeeps(count, steps);
    NextKeeps(count, Run(Initial(count), steps), step);
    hide Replay, Sequential, Run;
  }

  /** Thread `t` completed `op` as a plain counter would, and nothing else happened. */
  ghost predicate Completed(s: System, u: System, t: nat, op: Op) {
    && u.trapped == s.trapped && u.threads == s.threads[t := Outside] && |u.log| == |s.log| + 1 && s.log <= u.log
    && u.log[|s.log|].op == op && Allowed(s.value, u.log[|s.log|]) && u.value == After(s.value, u.log[|s.log|])
  }

  /** A thread that sees the current count completes. */
  lemma Succeeds(s: System, t: nat)
    requires Busy(s, t) && s.threads[t].observed == s.value != SATURATED && !Forbidden(s.threads[t].op, s.value)
    ensures Completed(s, Next(s, Iterate(t)), t, s.threads[t].op)
  {
  }

  /** A thread that saw another count looks again. */
  lemma Retries(s: System, t: nat)
    requires Busy(s, t) && s.threads[t].observed != s.value && s.threads[t].observed !in {0, SATURATED}
    ensures Next(s, Iterate(t)) == s.(threads := s.threads[t := Inside(s.threads[t].op, s.value)])
  {
  }

  /** A thread left alone with an operation that is not forbidden completes it within two iterations. */
  lemma CompletesAlone(count: u32, steps: seq<Step>, t: nat)
    requires count != SATURATED && !Run(Initial(count), steps).trapped && Busy(Run(Initial(count), steps), t)
    requires var s := Run(Initial(count), steps); !Forbidden(s.threads[t].op, s.value)
    ensures var s := Run(Initial(count), steps);
            Completed(s, Next(Next(s, Iterate(t)), Iterate(t)), t, s.threads[t].op)
  {
    RunKeeps(count, steps);
    hide Replay, Sequential, Run, Allowed, After, Forbidden, Body;
    var s := Run(Initial(count), steps);
    if s.threads[t].observed == s.value {
      Succeeds(s, t);
    } else {
      Retries(s, t);
      var again := Next(s, Iterate(t));
      Succeeds(again, t);
      assert again.threads[t := Outside] == s.threads[t := Outside];
    }
  }

  /** An operation that begins now, and is not forbidden, completes in one iteration. */
  lemma CompletesAtOnce(count: u32, steps: seq<Step>, t: nat, op: Op)
    requires count != SATURATED && !Run(Initial(count), steps).trapped && !Busy(Run(Initial(count), steps), t)
    requires !Forbidden(op, Run(Initial(count), steps).value)
    ensures var s := Run(Initial(count), steps); Completed(s, Next(Next(s, Enter(t, op)), Iterate(t)), t, op)
  {
    RunKeeps(count, steps);
    hide Replay, Sequential, Run, Allowed, After, Forbidden, Body;
    var s := Run(Initial(count), steps);
    var inside := Next(s, Enter(t, op));
    Succeeds(inside, t);
    assert inside.threads[t := Outside] == s.threads[t := Outside];
  }

  /** From a fresh counter, the first operation that is not forbidden does what a plain counter does, without a trap. */
  lemma FirstOperation(count: u32, t: nat, op: Op)
    requires count != SATURATED && !Forbidden(op, count)
    ensures var s, u := Initial(count), Run(Initial(count), [Enter(t, op), Iterate(t)]);
            s.value == count && !u.trapped && Completed(s, u, t, op)
  {
    var steps := [Enter(t, op), Iterate(t)];
    assert steps[..1] == [Enter(t, op)] && steps[..1][..0] == [];
    CompletesAtOnce(count, [], t, op);
    hide Next;
  }

  function Gained(log: seq<Done>): nat {
    if log == [] then 0
    else Gained(log[..|log| - 1]) + (if !log[|log| - 1].op.DecrementAndTest? && log[|log| - 1].result then 1 else 0)
  }

  function Lost(log: seq<Done>): nat {
    if log == [] then 0 else Lost(log[..|log| - 1]) + (if log[|log| - 1].op.DecrementAndTest? then 1 else 0)
  }

  lemma {:induction false} ReplayCounts(count: int, log: seq<Done>)
    requires Sequential(count, log)
    ensures Replay(count, log) == count + Gained(log) - Lost(log)
    decreases |log|
  {
    if log != [] {
      SequentialPrefix(count, log, |log| - 1);
      ReplayCounts(count, log[..|log| - 1]);
      assert Allowed(Replay(count, log[..|log| - 1]), log[|log| - 1]);
    }
  }

  lemma SequentialPrefix(count: int, log: seq<Done>, n: nat)
    requires Sequential(count, log) && n <= |log|
    ensures Sequential(count, log[..n])
  {
    forall i | 0 <= i < n ensures Allowed(Replay(count, log[..n][..i]), log[..n][i]) {
      assert log[..n][..i] == log[..i];
    }
  }

  /** Without a trap, the value is the initial count plus increments minus decrements that completed. */
  lemma CountIsExact(count: u32, steps: seq<Step>)
    requires count != SATURATED && !Run(Initial(count), steps).trapped
    ensures var s := Run(Initial(count), steps); s.value == count + Gained(s.log) - Lost(s.log)
  {
    Linearizes(count, steps);
    ReplayCounts(count, Run(Initial(count), steps).log);
  }

  /** In a sequential history zero is never left. */
  lemma {:induction false} ZeroStays(count: nat, log: seq<Done>, i: nat)
    requires Sequential(count, log) && i <= |log| && Replay(count, log[..i]) == 0
    ensures Replay(count, log) == 0
    decreases |log| - i
  {
    if i < |log| {
      assert Allowed(Replay(count, log[..i]), log[i]);
      assert log[..i + 1][..i] == log[..i];
      ZeroStays(count, log, i + 1);
    } else {
      assert log[..i] == log;
    }
  }

  /** At most one decrement reports that it released the last reference. */
  lemma LastReferenceOnce(count: u32, steps: seq<Step>, i: nat, j: nat)
    requires count != SATURATED && !Run(Initial(count), steps).trapped
    requires var log := Run(Initial(count), steps).log;
             i < j < |log| && log[i].op.DecrementAndTest? && log[j].op.DecrementAndTest?
    ensures var log := Run(Initial(count), steps).log; !(log[i].result && log[j].result)
  {
    Linearizes(count, steps);
    DropsOnce(count, Run(Initial(count), steps).log, i, j);
  }

  lemma DropsOnce(count: nat, log: seq<Done>, i: nat, j: nat)
    requires Sequential(count, log) && i < j < |log| && log[i].op.DecrementAndTest? && log[j].op.DecrementAndTest?
    ensures !(log[i].result && log[j].result)
  {
    assert Allowed(Replay(count, log[..i]), log[i]) && Allowed(Replay(count, log[..j]), log[j]);
    if log[i].result {
      SequentialPrefix(count, log, j);
      assert log[..j][..i + 1][..i] == log[..i];
      ZeroStays(count, log[..j], i + 1);
    }
  }

  /** Leaving zero is a trap: a word that is zero is zero ever after, or some thread trapped and it is saturated. */
  lemma {:induction false} ZeroIsFinal(s: System, steps: seq<Step>)
    requires s.value == 0
    ensures var t := Run(s, steps); t.value == 0 || (t.value == SATURATED && t.trapped)
    decreases |steps|
  {
    if steps != [] {
      ZeroIsFinal(s, steps[..|steps| - 1]);
    }
  }

  /** Once saturated, the word is never changed again, traps or not. */
  lemma {:induction false} SaturatedIsFinal(s: System, steps: seq<Step>)
    requires s.value == SATURATED
    ensures Run(s, steps).value == SATURATED
    decreases |steps|
  {
    if steps != [] {
      SaturatedIsFinal(s, steps[..|steps| - 1]);
    }
  }
}
