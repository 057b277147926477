/** What was configured, and when a start is accepted, in terms of the calls made. */
module ControllerSetup {
  import opened Bytes
  import opened Controller
  import opened ControllerRuns
  import opened ControllerHistory

  /** The things a caller configures. */
  datatype Item = TheClosure | TheDigest(kind: nat) | TheLimit(limit: nat)

  predicate Sets(call: Call, item: Item) {
    match item
    case TheClosure => call.CallSetClosure?
    case TheDigest(k) => call.CallSetDigest? && call.kind == k
    case TheLimit(k) => call.CallSetLimit? && call.limit == k
  }

  /** The last call that set the item and was answered with success. */
  ghost function LastSet(calls: seq<Call>, item: Item): (r: Option<Call>)
    ensures r.Some? ==> Sets(r.value, item)
  {
    if calls == [] then None else
    var front, last := calls[..|calls| - 1], calls[|calls| - 1];
    if Sets(last, item) && Apply(Run(front).m, last).1.Okay? then Some(last) else LastSet(front, item)
  }

  ghost predicate ClosureSaid(c: Configuration, last: Option<Call>)
    requires last.Some? ==> last.value.CallSetClosure?
  {
    match last
    case None => c.closure.None? && c.flags == 0
    case Some(call) => c.closure == Some(call.copy) && c.flags == call.copy.flags
  }

  ghost predicate DigestSaid(c: Configuration, k: nat, last: Option<Call>)
    requires k < |c.digests| && (last.Some? ==> last.value.CallSetDigest?)
  {
    match last
    case None => k !in c.mask
    case Some(call) => k in c.mask && c.digests[k] == call.digest && |call.digest| == DIGEST_SIZE && !ZeroDigest(call.digest)
  }

  ghost predicate LimitSaid(c: Configuration, k: nat, last: Option<Call>)
    requires k < |c.limits| && (last.Some? ==> last.value.CallSetLimit?)
  {
    match last
    case None => c.limits[k] == 0
    case Some(call) => c.limits[k] == call.value != 0
  }

  /** The configuration is what the last successful calls said, and nothing else. */
  ghost predicate Said(c: Configuration, calls: seq<Call>) {
    && |c.digests| == DIGEST_KINDS && |c.limits| == LIMIT_KINDS && c.mask <= {1, 2, 3}
    && ClosureSaid(c, LastSet(calls, TheClosure))
    && (forall k :: 1 <= k < DIGEST_KINDS ==> DigestSaid(c, k, LastSet(calls, TheDigest(k))))
    && (forall k :: 0 <= k < LIMIT_KINDS ==> LimitSaid(c, k, LastSet(calls, TheLimit(k))))
  }

  predicate Configures(call: Call) {
    call.CallSetClosure? || call.CallSetDigest? || call.CallSetLimit?
  }

  /** Only the three setters change the configuration, and only when they succeed. */
  lemma OthersKeep(m: Machine, call: Call)
    requires MachineOk(m) && (!Configures(call) || !Apply(m, call).1.Okay?)
    ensures Apply(m, call).0.configuration == m.configuration
  {
    hide ConfigurationOk, BeginStart, NextCleanup, AfterDone;
    if !m.phase.Idle? { ConfigurationFrozen(m, call); }
    else if call.CallStart? { BeginStartGrows(m); }
  }

  lemma LastSetAppend(calls: seq<Call>, call: Call, item: Item)
    ensures LastSet(calls + [call], item)
            == if Sets(call, item) && Apply(Run(calls).m, call).1.Okay? then Some(call) else LastSet(calls, item)
  {
    hide Apply, Run;
    assert (calls + [call])[..|calls + [call]| - 1] == calls;
  }

  lemma SetterSays(calls: seq<Call>, call: Call)
    requires var m := Run(calls).m; Said(m.configuration, calls) && Configures(call) && Apply(m, call).1.Okay?
    ensures Said(Apply(Run(calls).m, call).0.configuration, calls + [call])
  {
    hide ZeroDigest, Run, LastSet;
    var all, m := calls + [call], Run(calls).m;
    var c := Apply(m, call).0.configuration;
    LastSetAppend(calls, call, TheClosure);
    forall k | 1 <= k < DIGEST_KINDS ensures DigestSaid(c, k, LastSet(all, TheDigest(k))) {
      LastSetAppend(calls, call, TheDigest(k));
      assert DigestSaid(m.configuration, k, LastSet(calls, TheDigest(k)));
    }
    forall k | 0 <= k < LIMIT_KINDS ensures LimitSaid(c, k, LastSet(all, TheLimit(k))) {
      LastSetAppend(calls, call, TheLimit(k));
      assert LimitSaid(m.configuration, k, LastSet(calls, TheLimit(k)));
    }
  }

  lemma OtherSays(calls: seq<Call>, call: Call)
    requires var m := Run(calls).m; Said(m.configuration, calls) && !(Configures(call) && Apply(m, call).1.Okay?)
    ensures Said(Apply(Run(calls).m, call).0.configuration, calls + [call])
  {
    OthersKeep(Run(calls).m, call);
    hide ZeroDigest, Run, Apply;
    var all, m := calls + [call], Run(calls).m;
    assert all[..|all| - 1] == calls;
    assert forall item :: LastSet(all, item) == LastSet(calls, item);
  }

  /** In every run the configuration is exactly what the last successful calls said. */
  lemma {:induction false} ConfigurationSaid(calls: seq<Call>)
    ensures Said(Run(calls).m.configuration, calls)
    decreases |calls|
  {
    hide Apply, ZeroDigest;
    if calls != [] {
      var front, last := calls[..|calls| - 1], calls[|calls| - 1];
      ConfigurationSaid(front);
      assert front + [last] == calls;
      hide Said;
      if Configures(last) && Apply(Run(front).m, last).1.Okay? { SetterSays(front, last); } else { OtherSays(front, last); }
    }
  }

  /** Everything a start needs was set by a successful call, and the closure asks for nothing unknown. */
  ghost predicate Configured(calls: seq<Call>) {
    && LastSet(calls, TheClosure).Some? && LastSet(calls, TheClosure).value.copy.flags <= KNOWN_FLAGS
    && (forall k :: 1 <= k < DIGEST_KINDS ==> LastSet(calls, TheDigest(k)).Some?)
    && (forall k :: 0 <= k < LIMIT_KINDS ==> LastSet(calls, TheLimit(k)).Some?)
  }

  lemma SaidIsOk(c: Configuration, calls: seq<Call>)
    requires Said(c, calls)
    ensures ConfigurationOk(c) <==> Configured(calls)
  {
    hide LastSet, ZeroDigest;
    var one, two, three := LastSet(calls, TheDigest(1)), LastSet(calls, TheDigest(2)), LastSet(calls, TheDigest(3));
    assert DigestSaid(c, 1, one) && DigestSaid(c, 2, two) && DigestSaid(c, 3, three);
    forall k | 0 <= k < LIMIT_KINDS ensures c.limits[k] != 0 <==> LastSet(calls, TheLimit(k)).Some? {
      assert LimitSaid(c, k, LastSet(calls, TheLimit(k)));
    }
    assert c.mask == {1, 2, 3} <==> 1 in c.mask && 2 in c.mask && 3 in c.mask;
    if ConfigurationOk(c) {
      forall k | 1 <= k < DIGEST_KINDS ensures LastSet(calls, TheDigest(k)).Some? { assert k == 1 || k == 2 || k == 3; }
    }
    if Configured(calls) {
      assert one.Some? && two.Some? && three.Some?;
      forall k | 1 <= k < DIGEST_KINDS ensures !ZeroDigest(c.digests[k]) { assert k == 1 || k == 2 || k == 3; }
    }
  }

  /** In every run, start succeeds exactly when the controller is idle, the counters are not used up, and everything was
      configured; the generation then moves on by one. */
  lemma StartsExactly(calls: seq<Call>)
    ensures var m := Run(calls).m; var (m', status) := Apply(m, CallStart);
            && (status.Okay? <==> m.phase.Idle? && m.generation < U64 - 1 && m.nextToken < U64 - 1 && Configured(calls))
            && m'.generation == m.generation + (if status.Okay? then 1 else 0)
  {
    hide Run, Said, Configured, ConfigurationOk;
    ConfigurationSaid(calls);
    SaidIsOk(Run(calls).m.configuration, calls);
  }
}
