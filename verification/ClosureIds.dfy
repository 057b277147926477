/** The dependency graph read by node identifiers: it does not depend on the order of any table. */
module ClosureIds {
  import opened Bytes
  import opened Graphs
  import opened ClosureGraph

  function IdEdges(ds: seq<Dependency>): (r: seq<Edge>)
    ensures |r| == |ds| && forall k :: 0 <= k < |ds| ==> r[k] == Edge(ds[k].consumer, ds[k].provider)
  {
    seq(|ds|, k requires 0 <= k < |ds| => Edge(ds[k].consumer, ds[k].provider))
  }

  ghost function RootIds(nodes: seq<Artifact>): set<nat> {
    set a | a in nodes && a.root :: a.id as nat
  }

  ghost predicate HasId(nodes: seq<Artifact>, id: u32) {
    exists a :: a in nodes && a.id == id
  }

  ghost predicate IdKindsFit(nodes: seq<Artifact>, ds: seq<Dependency>) {
    forall d, a, b :: d in ds && a in nodes && b in nodes && a.id == d.consumer && b.id == d.provider && a.shared ==> b.shared
  }

  ghost predicate IdReachable(nodes: seq<Artifact>, ds: seq<Dependency>) {
    forall a :: a in nodes ==> Reachable(IdEdges(ds), RootIds(nodes), a.id)
  }

  ghost predicate IdGraphOk(nodes: seq<Artifact>, ds: seq<Dependency>) {
    && (forall d :: d in ds ==> HasId(nodes, d.consumer) && HasId(nodes, d.provider))
    && IdKindsFit(nodes, ds) && Acyclic(IdEdges(ds)) && IdReachable(nodes, ds)
  }

  // -------------------------------------------------------------- relabelling

  /** `fs` is `es` with every position replaced by its identifier. */
  ghost predicate Relabels(ids: seq<u32>, es: seq<Edge>, fs: seq<Edge>) {
    && |fs| == |es|
    && forall k :: 0 <= k < |es| ==> es[k].from < |ids| && es[k].to < |ids| && fs[k] == Edge(ids[es[k].from], ids[es[k].to])
  }

  ghost predicate Matches(ids: seq<u32>, xs: seq<nat>, ys: seq<nat>) {
    |xs| == |ys| && forall i :: 0 <= i < |xs| ==> xs[i] < |ids| && ids[xs[i]] == ys[i]
  }

  ghost predicate Distinct(ids: seq<u32>) {
    forall i, j :: 0 <= i < j < |ids| ==> ids[i] != ids[j]
  }

  lemma WalkForward(ids: seq<u32>, es: seq<Edge>, fs: seq<Edge>, xs: seq<nat>, ys: seq<nat>)
    requires Relabels(ids, es, fs) && Walk(es, xs) && Matches(ids, xs, ys)
    ensures Walk(fs, ys)
  {
    forall i: nat | i + 1 < |ys| ensures StepOk(fs, ys, i) {
      assert StepOk(es, xs, i);
      var k :| 0 <= k < |es| && es[k] == Edge(xs[i], xs[i + 1]);
      assert fs[k] == Edge(ys[i], ys[i + 1]);
    }
  }

  lemma {:induction false} WalkBackward(ids: seq<u32>, es: seq<Edge>, fs: seq<Edge>, ys: seq<nat>, i: nat) returns (xs: seq<nat>)
    requires Relabels(ids, es, fs) && Distinct(ids) && Walk(fs, ys) && i < |ids| && ids[i] == ys[0]
    ensures Walk(es, xs) && Matches(ids, xs, ys) && xs[0] == i
    decreases |ys|
  {
    if |ys| == 1 {
      xs := [i];
    } else {
      var front, n := ys[..|ys| - 1], |ys| - 2;
      forall t: nat | t + 1 < |front| ensures StepOk(fs, front, t) { assert StepOk(fs, ys, t); }
      var before := WalkBackward(ids, es, fs, front, i);
      assert StepOk(fs, ys, n);
      var k :| 0 <= k < |fs| && fs[k] == Edge(ys[n], ys[n + 1]);
      assert es[k].from == before[n];
      assert es[k] == Edge(before[n], es[k].to);
      WalkOn(es, before, es[k].to);
      xs := before + [es[k].to];
    }
  }

  lemma {:induction false} Label(ids: seq<u32>, xs: seq<nat>) returns (ys: seq<nat>)
    requires forall x :: x in xs ==> x < |ids|
    ensures Matches(ids, xs, ys)
    decreases |xs|
  {
    if xs == [] {
      ys := [];
    } else {
      var rest := xs[..|xs| - 1];
      forall x | x in rest ensures x < |ids| { assert x in xs; }
      assert xs[|xs| - 1] in xs;
      var front := Label(ids, rest);
      ys := front + [ids[xs[|xs| - 1]]];
    }
  }

  lemma WalkInRange(ids: seq<u32>, es: seq<Edge>, fs: seq<Edge>, xs: seq<nat>, x: nat)
    requires Relabels(ids, es, fs) && Walk(es, xs) && xs[0] < |ids| && x in xs
    ensures x < |ids|
  {
    var i :| 0 <= i < |xs| && xs[i] == x;
    if i > 0 {
      assert StepOk(es, xs, i - 1);
      var k :| 0 <= k < |es| && es[k] == Edge(xs[i - 1], xs[i]);
    }
  }

  lemma AcyclicRelabels(ids: seq<u32>, es: seq<Edge>, fs: seq<Edge>)
    requires Relabels(ids, es, fs) && Distinct(ids)
    ensures Acyclic(es) <==> Acyclic(fs)
  {
    if Acyclic(es) {
      forall ys | Walk(fs, ys) && |ys| >= 2 ensures ys[0] != ys[|ys| - 1] {
        assert StepOk(fs, ys, 0);
        var k :| 0 <= k < |fs| && fs[k] == Edge(ys[0], ys[1]);
        var xs := WalkBackward(ids, es, fs, ys, es[k].from);
      }
    }
    if Acyclic(fs) {
      forall xs | Walk(es, xs) && |xs| >= 2 ensures xs[0] != xs[|xs| - 1] {
        assert StepOk(es, xs, 0);
        forall x | x in xs ensures x < |ids| { WalkInRange(ids, es, fs, xs, x); }
        var ys := Label(ids, xs);
        WalkForward(ids, es, fs, xs, ys);
      }
    }
  }

  /** Roots at positions `roots` have the identifiers `labels`. */
  lemma ReachableRelabels(ids: seq<u32>, es: seq<Edge>, fs: seq<Edge>, roots: set<nat>, labels: set<nat>, x: nat)
    requires Relabels(ids, es, fs) && Distinct(ids) && x < |ids|
    requires forall r :: r in roots ==> r < |ids| && ids[r] as nat in labels
    requires forall y :: y in labels ==> exists r :: r in roots && ids[r] == y
    ensures Reachable(es, roots, x) <==> Reachable(fs, labels, ids[x])
  {
    if Reachable(es, roots, x) {
      var xs :| Leads(es, xs, roots, x);
      forall v | v in xs ensures v < |ids| { WalkInRange(ids, es, fs, xs, v); }
      var ys := Label(ids, xs);
      WalkForward(ids, es, fs, xs, ys);
      assert Leads(fs, ys, labels, ids[x]);
    }
    if Reachable(fs, labels, ids[x]) {
      var ys :| Leads(fs, ys, labels, ids[x]);
      var r :| r in roots && ids[r] == ys[0];
      var xs := WalkBackward(ids, es, fs, ys, r);
      assert ids[xs[|xs| - 1]] == ids[x];
      assert Leads(es, xs, roots, x);
    }
  }

  // ------------------------------------------------------------ the two readings

  lemma EdgesRelabel(nodes: seq<Artifact>, ds: seq<Dependency>, es: seq<Edge>)
    requires EdgesOf(nodes, ds, es)
    ensures Relabels(Ids(nodes), es, IdEdges(ds))
  {
    forall k | 0 <= k < |es| ensures Names(nodes, ds[k], es[k]) { assert Names(nodes, ds[k], es[k]); }
  }

  lemma KnownEdges(nodes: seq<Artifact>, ds: seq<Dependency>) returns (es: seq<Edge>)
    requires forall d :: d in ds ==> Known(nodes, d)
    ensures EdgesOf(nodes, ds, es)
    decreases |ds|
  {
    if ds == [] {
      es := [];
    } else {
      var front, last := ds[..|ds| - 1], ds[|ds| - 1];
      es := KnownEdges(nodes, front);
      assert last in ds && Known(nodes, last);
      var i :| 0 <= i < |nodes| && Ids(nodes)[i] == last.consumer;
      var j :| 0 <= j < |nodes| && Ids(nodes)[j] == last.provider;
      var before := es;
      es := before + [Edge(i, j)];
      forall k | 0 <= k < |ds| ensures Names(nodes, ds[k], es[k]) {
        if k < |front| { assert Names(nodes, front[k], before[k]); }
      }
    }
  }

  lemma KnownIsHas(nodes: seq<Artifact>, d: Dependency)
    ensures Known(nodes, d) <==> HasId(nodes, d.consumer) && HasId(nodes, d.provider)
  {
    forall id: u32 ensures id in Ids(nodes) <==> HasId(nodes, id) {
      if id in Ids(nodes) {
        var i :| 0 <= i < |nodes| && Ids(nodes)[i] == id;
        assert nodes[i] in nodes && nodes[i].id == id;
      }
      if HasId(nodes, id) {
        var a :| a in nodes && a.id == id;
        var i :| 0 <= i < |nodes| && nodes[i] == a;
        assert Ids(nodes)[i] == id;
      }
    }
  }

  lemma KindsById(nodes: seq<Artifact>, ds: seq<Dependency>, es: seq<Edge>)
    requires UniqueIds(nodes) && EdgesOf(nodes, ds, es)
    ensures EdgesFit(nodes, es) <==> IdKindsFit(nodes, ds)
  {
    if EdgesFit(nodes, es) {
      forall d, a, b | d in ds && a in nodes && b in nodes && a.id == d.consumer && b.id == d.provider && a.shared ensures b.shared {
        var k :| 0 <= k < |ds| && ds[k] == d;
        assert Names(nodes, ds[k], es[k]);
        assert nodes[es[k].from] == a && nodes[es[k].to] == b;
      }
    }
    if IdKindsFit(nodes, ds) {
      forall k | 0 <= k < |es| ensures es[k].from < |nodes| && es[k].to < |nodes| && KindsFit(nodes, es[k]) {
        assert Names(nodes, ds[k], es[k]);
        assert ds[k] in ds && nodes[es[k].from] in nodes && nodes[es[k].to] in nodes;
      }
    }
  }

  lemma RootLabels(nodes: seq<Artifact>)
    ensures forall r :: r in Roots(nodes) ==> r < |nodes| && Ids(nodes)[r] as nat in RootIds(nodes)
    ensures forall y :: y in RootIds(nodes) ==> exists r :: r in Roots(nodes) && Ids(nodes)[r] == y
  {
    forall r | r in Roots(nodes) ensures r < |nodes| && Ids(nodes)[r] as nat in RootIds(nodes) { assert nodes[r] in nodes; }
    forall y | y in RootIds(nodes) ensures exists r :: r in Roots(nodes) && Ids(nodes)[r] == y {
      var a :| a in nodes && a.root && a.id == y;
      var r :| 0 <= r < |nodes| && nodes[r] == a;
      assert r in Roots(nodes) && Ids(nodes)[r] == y;
    }
  }

  lemma ReachableAt(nodes: seq<Artifact>, ds: seq<Dependency>, es: seq<Edge>, i: nat)
    requires UniqueIds(nodes) && EdgesOf(nodes, ds, es) && i < |nodes|
    ensures Reachable(es, Roots(nodes), i) <==> Reachable(IdEdges(ds), RootIds(nodes), nodes[i].id)
  {
    hide Reachable, Roots, RootIds;
    EdgesRelabel(nodes, ds, es);
    RootLabels(nodes);
    ReachableRelabels(Ids(nodes), es, IdEdges(ds), Roots(nodes), RootIds(nodes), i);
  }

  lemma ReachableById(nodes: seq<Artifact>, ds: seq<Dependency>, es: seq<Edge>)
    requires UniqueIds(nodes) && EdgesOf(nodes, ds, es)
    ensures AllReachable(nodes, es) <==> IdReachable(nodes, ds)
  {
    hide Reachable, Roots, RootIds, IdEdges, UniqueIds, EdgesOf;
    forall i: nat | i < |nodes|
      ensures Reachable(es, Roots(nodes), i) <==> Reachable(IdEdges(ds), RootIds(nodes), nodes[i].id)
    {
      ReachableAt(nodes, ds, es, i);
    }
    if IdReachable(nodes, ds) {
      forall i: nat | i < |nodes| ensures Reachable(es, Roots(nodes), i) { assert nodes[i] in nodes; }
    }
    if AllReachable(nodes, es) {
      forall a | a in nodes ensures Reachable(IdEdges(ds), RootIds(nodes), a.id) {
        var i :| 0 <= i < |nodes| && nodes[i] == a;
        assert Reachable(es, Roots(nodes), i);
      }
    }
  }

  /** The graph the validator checks by position is right exactly when it is right by identifier. */
  lemma GraphById(nodes: seq<Artifact>, ds: seq<Dependency>)
    requires UniqueIds(nodes)
    ensures GraphOk(nodes, ds) <==> IdGraphOk(nodes, ds)
  {
    forall d | d in ds ensures Known(nodes, d) <==> HasId(nodes, d.consumer) && HasId(nodes, d.provider) { KnownIsHas(nodes, d); }
    if forall d :: d in ds ==> Known(nodes, d) {
      var es := KnownEdges(nodes, ds);
      GraphHas(nodes, ds, es);
      EdgesRelabel(nodes, ds, es);
      AcyclicRelabels(Ids(nodes), es, IdEdges(ds));
      KindsById(nodes, ds, es);
      ReachableById(nodes, ds, es);
    }
  }

  lemma GraphHas(nodes: seq<Artifact>, ds: seq<Dependency>, es: seq<Edge>)
    requires UniqueIds(nodes) && EdgesOf(nodes, ds, es) && forall d :: d in ds ==> Known(nodes, d)
    ensures GraphOk(nodes, ds) <==> EdgesFit(nodes, es) && Acyclic(es) && AllReachable(nodes, es)
  {
    hide Acyclic, AllReachable, EdgesFit, Known;
    forall fs | EdgesOf(nodes, ds, fs) ensures fs == es { EdgesUnique(nodes, ds, es, fs); }
  }

  // ------------------------------------------------------------------- order

  lemma WalkSame(es: seq<Edge>, fs: seq<Edge>, xs: seq<nat>)
    requires (forall e :: e in es ==> e in fs) && Walk(es, xs)
    ensures Walk(fs, xs)
  {
    forall i: nat | i + 1 < |xs| ensures StepOk(fs, xs, i) { assert StepOk(es, xs, i); }
  }

  lemma ReachableSame(es: seq<Edge>, fs: seq<Edge>, roots: set<nat>, x: nat)
    requires (forall e :: e in es ==> e in fs) && Reachable(es, roots, x)
    ensures Reachable(fs, roots, x)
  {
    var xs :| Leads(es, xs, roots, x);
    WalkSame(es, fs, xs);
    assert Leads(fs, xs, roots, x);
  }

  lemma AcyclicSame(es: seq<Edge>, fs: seq<Edge>)
    requires (forall e :: e in es ==> e in fs) && Acyclic(fs)
    ensures Acyclic(es)
  {
    forall xs | Walk(es, xs) && |xs| >= 2 ensures xs[0] != xs[|xs| - 1] { WalkSame(es, fs, xs); }
  }

  lemma IdEdgesSame(ds: seq<Dependency>, ds': seq<Dependency>, e: Edge)
    requires (forall d :: d in ds ==> d in ds') && e in IdEdges(ds)
    ensures e in IdEdges(ds')
  {
    var k :| 0 <= k < |ds| && IdEdges(ds)[k] == e;
    assert ds[k] in ds';
    var j :| 0 <= j < |ds'| && ds'[j] == ds[k];
    assert IdEdges(ds')[j] == e;
  }

  lemma IdReachableSame(nodes: seq<Artifact>, nodes': seq<Artifact>, ds: seq<Dependency>, ds': seq<Dependency>)
    requires (forall a :: a in nodes <==> a in nodes') && (forall d :: d in ds <==> d in ds') && IdReachable(nodes, ds)
    ensures IdReachable(nodes', ds')
  {
    forall e | e in IdEdges(ds) ensures e in IdEdges(ds') { IdEdgesSame(ds, ds', e); }
    assert RootIds(nodes) == RootIds(nodes');
    hide Reachable, RootIds, IdEdges;
    forall a | a in nodes' ensures Reachable(IdEdges(ds'), RootIds(nodes'), a.id) {
      assert a in nodes;
      ReachableSame(IdEdges(ds), IdEdges(ds'), RootIds(nodes), a.id);
    }
  }

  /** Only which nodes and dependencies there are matters, not how they are listed. */
  lemma IdGraphSame(nodes: seq<Artifact>, nodes': seq<Artifact>, ds: seq<Dependency>, ds': seq<Dependency>)
    requires (forall a :: a in nodes <==> a in nodes') && (forall d :: d in ds <==> d in ds')
    requires IdGraphOk(nodes, ds)
    ensures IdGraphOk(nodes', ds')
  {
    hide Acyclic, IdReachable, IdEdges;
    forall e | e in IdEdges(ds') ensures e in IdEdges(ds) { IdEdgesSame(ds', ds, e); }
    AcyclicSame(IdEdges(ds'), IdEdges(ds));
    IdReachableSame(nodes, nodes', ds, ds');
  }
}
