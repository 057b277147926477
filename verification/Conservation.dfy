/** Conservation of chains, and the window bounds that keep 16-bit indices exact. */
module Conservation {
  import opened Channel
  import opened Chains
  import opened Endpoint
  import opened Wrap
  import opened Counting
  import opened SplitRing
  import opened RingInvariant

  /** Heads of the available entries the device has not read, and of the used entries the driver has not. */
  function UnreadHeads(ps: seq<Publication>): (r: seq<nat>)
    ensures |r| == |ps| && forall i :: 0 <= i < |r| ==> r[i] == ps[i].wire.head
  {
    if ps == [] then [] else UnreadHeads(ps[..|ps| - 1]) + [ps[|ps| - 1].wire.head]
  }

  function UnreapedHeads(cs: seq<Completion>): (r: seq<nat>)
    ensures |r| == |cs| && forall i :: 0 <= i < |r| ==> r[i] == cs[i].head
  {
    if cs == [] then [] else UnreapedHeads(cs[..|cs| - 1]) + [cs[|cs| - 1].head]
  }

  ghost function InPreparation(s: Ledger): set<nat> { set h | h in s.phase && s.phase[h].Preparing? }
  ghost function InQueue(s: Ledger): set<nat> { set h | h in s.phase && s.phase[h].Queued? }
  ghost function InService(s: Ledger): set<nat> { set h | h in s.phase && s.phase[h].Serving? }
  ghost function InUsedRing(s: Ledger): set<nat> { set h | h in s.phase && s.phase[h].Answered? }
  ghost function Unreleased(s: Ledger): set<nat> { set h | h in s.phase && s.phase[h].Back? }

  lemma QueueCount(s: Ledger)
    requires Phases(s) && s.taken <= |s.published|
    ensures |InQueue(s)| == |s.published| - s.taken
  {
    var xs := UnreadHeads(s.published[s.taken..]);
    forall i | 0 <= i < |xs| ensures xs[i] in s.phase && s.phase[xs[i]] == Queued(s.taken + i) {
      assert QueuedAt(s, s.taken + i);
    }
    forall i, j | 0 <= i < j < |xs| ensures xs[i] != xs[j] {
      assert s.phase[xs[i]] != s.phase[xs[j]];
    }
    DistinctCount(xs);
    forall h | h in InQueue(s) ensures h in xs {
      assert PhaseOk(s, h, s.phase[h]);
      assert xs[s.phase[h].publication - s.taken] == h;
    }
    assert InQueue(s) == Elements(xs);
  }

  lemma UsedCount(s: Ledger)
    requires Phases(s) && s.reaped <= |s.completed|
    ensures |InUsedRing(s)| == |s.completed| - s.reaped
  {
    hide Phases, UnreapedHeads, InUsedRing;
    var xs := UnreapedHeads(s.completed[s.reaped..]);
    UsedPhases(s, xs);
    forall i, j | 0 <= i < j < |xs| ensures xs[i] != xs[j] {
      assert s.phase[xs[i]].completion != s.phase[xs[j]].completion;
    }
    DistinctCount(xs);
    UsedListed(s, xs);
    assert InUsedRing(s) == Elements(xs);
  }

  lemma UsedPhases(s: Ledger, xs: seq<nat>)
    requires Phases(s) && s.reaped <= |s.completed| && xs == UnreapedHeads(s.completed[s.reaped..])
    ensures forall i :: 0 <= i < |xs| ==>
                xs[i] in s.phase && s.phase[xs[i]].Answered? && s.phase[xs[i]].completion == s.reaped + i
  {
    hide UnreapedHeads;
    forall i | 0 <= i < |xs|
      ensures xs[i] in s.phase && s.phase[xs[i]].Answered? && s.phase[xs[i]].completion == s.reaped + i
    {
      assert AnsweredAt(s, s.reaped + i);
    }
  }

  lemma UsedListed(s: Ledger, xs: seq<nat>)
    requires Phases(s) && s.reaped <= |s.completed| && xs == UnreapedHeads(s.completed[s.reaped..])
    requires forall i :: 0 <= i < |xs| ==> xs[i] in s.phase && s.phase[xs[i]].Answered?
    ensures forall h :: h in InUsedRing(s) <==> h in xs
  {
    hide UnreapedHeads;
    forall h | h in InUsedRing(s) ensures h in xs {
      assert PhaseOk(s, h, s.phase[h]);
      assert xs[s.phase[h].completion - s.reaped] == h;
    }
  }

  lemma ServiceIsDevice(s: Ledger)
    requires Phases(s)
    ensures InService(s) == HeldHeads(s.device.slots)
  {
    forall h | h in InService(s) ensures h in HeldHeads(s.device.slots) {
      assert PhaseOk(s, h, s.phase[h]);
    }
    forall h | h in HeldHeads(s.device.slots) ensures h in InService(s) {
      assert ServingAt(s, h);
    }
  }

  lemma PreparationCount(s: Ledger)
    requires Phases(s)
    ensures InPreparation(s) == if s.preparing.Some? then {s.preparing.value} else {}
  {
    forall h | h in InPreparation(s) ensures s.preparing == Some(h) {
      assert PhaseOk(s, h, s.phase[h]);
    }
  }

  lemma PhasesCover(s: Ledger)
    ensures s.phase.Keys == (InPreparation(s) + InQueue(s)) + (InService(s) + InUsedRing(s)) + Unreleased(s)
  {
  }

  /** The size of a disjoint union. */
  lemma SizeOfUnion(a: set<nat>, b: set<nat>)
    requires a !! b
    ensures |a + b| == |a| + |b|
  {
  }

  lemma PhasesPartition(s: Ledger)
    ensures |s.phase.Keys| == |InPreparation(s)| + |InQueue(s)| + |InService(s)| + |InUsedRing(s)| + |Unreleased(s)|
  {
    var first, second := InPreparation(s) + InQueue(s), InService(s) + InUsedRing(s);
    SizeOfUnion(InPreparation(s), InQueue(s));
    SizeOfUnion(InService(s), InUsedRing(s));
    SizeOfUnion(first, second);
    SizeOfUnion(first + second, Unreleased(s));
    PhasesCover(s);
  }

  /** Chains owned by the driver = being published + unread available + owned by the device
      + unread used + returned but not released. */
  lemma Conserved(s: Ledger)
    requires Tables(s.driver) && Tables(s.device) && Phases(s)
    requires s.taken <= |s.published| && s.reaped <= |s.completed|
    ensures s.driver.owned == (if s.preparing.Some? then 1 else 0) + (|s.published| - s.taken)
                              + s.device.owned + (|s.completed| - s.reaped) + |Unreleased(s)|
  {
    QueueCount(s);
    UsedCount(s);
    ServiceIsDevice(s);
    PreparationCount(s);
    PhasesPartition(s);
  }

  /** The windows of both rings fit in the ring, so 16-bit distances are exact. */
  lemma Windows(l: Lane, s: Ledger)
    requires l.Valid() && Ends(l, s) && Counts(s) && Phases(s)
    ensures s.device.owned + (|s.published| - s.taken) + (|s.completed| - s.reaped)
            + (if s.preparing.Some? then 1 else 0) <= l.Queue().maxOutstanding <= l.Queue().size <= 32768
    ensures Minus16(Index16(|s.published|), s.device.consumed) == |s.published| - s.taken
    ensures Minus16(Index16(|s.completed|), s.driver.consumed) == |s.completed| - s.reaped
    ensures Minus16(s.driver.produced, s.driver.consumed) == |s.published| - s.reaped
  {
    Conserved(s);
    LaneQueueOk(l);
    DistanceIsExact(|s.published|, s.taken);
    DistanceIsExact(|s.completed|, s.reaped);
    DistanceIsExact(|s.published|, s.reaped);
  }
}
