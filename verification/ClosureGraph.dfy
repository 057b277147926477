/** The dependency graph of a closure: adjacency lists, the acyclicity pass and the reachability pass. */
module ClosureGraph {
  import opened Bytes
  import opened Counting
  import opened Graphs
  import opened NodeMap

  const MAX_DEPENDENCIES: nat := 65536

  datatype Artifact = Artifact(id: u32, shared: bool, root: bool)
  datatype Dependency = Dependency(consumer: u32, provider: u32)
  datatype Status = Okay | InvalidConfiguration | NoMemory

  // ------------------------------------------------------------ specification

  function Ids(nodes: seq<Artifact>): (r: seq<u32>)
    ensures |r| == |nodes| && forall i :: 0 <= i < |nodes| ==> r[i] == nodes[i].id
  {
    seq(|nodes|, i requires 0 <= i < |nodes| => nodes[i].id)
  }

  ghost predicate UniqueIds(nodes: seq<Artifact>) {
    forall i, j :: 0 <= i < j < |nodes| ==> nodes[i].id != nodes[j].id
  }

  ghost predicate Names(nodes: seq<Artifact>, d: Dependency, e: Edge) {
    e.from < |nodes| && e.to < |nodes| && nodes[e.from].id == d.consumer && nodes[e.to].id == d.provider
  }

  ghost predicate Known(nodes: seq<Artifact>, d: Dependency) {
    d.consumer in Ids(nodes) && d.provider in Ids(nodes)
  }

  /** A shared provider may depend on shared providers only. */
  predicate KindsFit(nodes: seq<Artifact>, e: Edge)
    requires e.from < |nodes| && e.to < |nodes|
  {
    nodes[e.from].shared ==> nodes[e.to].shared
  }

  /** The edges that the dependencies stand for. */
  ghost predicate EdgesOf(nodes: seq<Artifact>, ds: seq<Dependency>, es: seq<Edge>) {
    |es| == |ds| && forall k :: 0 <= k < |ds| ==> Names(nodes, ds[k], es[k])
  }

  ghost function Roots(nodes: seq<Artifact>): set<nat> {
    set i: nat | i < |nodes| && nodes[i].root
  }

  ghost predicate EdgesFit(nodes: seq<Artifact>, es: seq<Edge>) {
    forall k :: 0 <= k < |es| ==> es[k].from < |nodes| && es[k].to < |nodes| && KindsFit(nodes, es[k])
  }

  ghost predicate AllReachable(nodes: seq<Artifact>, es: seq<Edge>) {
    forall i: nat :: i < |nodes| ==> Reachable(es, Roots(nodes), i)
  }

  /** What a graph must be: edges between known nodes, kinds respected, acyclic, all reachable from roots. */
  ghost predicate GraphOk(nodes: seq<Artifact>, ds: seq<Dependency>) {
    && (forall d :: d in ds ==> Known(nodes, d))
    && exists es :: EdgesOf(nodes, ds, es) && EdgesFit(nodes, es) && Acyclic(es) && AllReachable(nodes, es)
  }

  /** With unique identifiers the edges are determined. */
  lemma EdgesUnique(nodes: seq<Artifact>, ds: seq<Dependency>, es: seq<Edge>, fs: seq<Edge>)
    requires UniqueIds(nodes) && EdgesOf(nodes, ds, es) && EdgesOf(nodes, ds, fs)
    ensures es == fs
  {
    forall k | 0 <= k < |es| ensures es[k] == fs[k] {
      assert Names(nodes, ds[k], es[k]) && Names(nodes, ds[k], fs[k]);
    }
  }

  // -------------------------------------------------------- adjacency lists

  /** The last edge before position `k` that leaves `v`, or -1. */
  ghost function LastFrom(es: seq<Edge>, v: nat, k: nat): (r: int)
    requires k <= |es|
    ensures -1 <= r < k
    ensures r >= 0 ==> es[r].from == v
    ensures forall j :: r < j < k ==> es[j].from != v
  {
    if k == 0 then -1 else if es[k - 1].from == v then k - 1 else LastFrom(es, v, k - 1)
  }

  /** The lists hold every edge under its source, last one first. */
  ghost predicate Linked(es: seq<Edge>, heads: seq<int>, next: seq<int>) {
    && |next| >= |es|
    && (forall v :: 0 <= v < |heads| ==> heads[v] == LastFrom(es, v, |es|))
    && (forall k :: 0 <= k < |es| ==> next[k] == LastFrom(es, es[k].from, k))
  }

  lemma {:induction false} LastFromPrefix(es: seq<Edge>, e: Edge, v: nat, k: nat)
    requires k <= |es|
    ensures LastFrom(es + [e], v, k) == LastFrom(es, v, k)
  {
    if k > 0 { LastFromPrefix(es, e, v, k - 1); }
  }

  lemma LinkedAppend(es: seq<Edge>, e: Edge, heads: seq<int>, next: seq<int>)
    requires Linked(es, heads, next) && |next| > |es| && e.from < |heads|
    ensures Linked(es + [e], heads[e.from := |es|], next[|es| := heads[e.from]])
  {
    var heads' := heads[e.from := |es|];
    forall v | 0 <= v < |heads'| ensures heads'[v] == LastFrom(es + [e], v, |es| + 1) {
      LastFromPrefix(es, e, v, |es|);
    }
    forall k | 0 <= k < |es| + 1
      ensures next[|es| := heads[e.from]][k] == LastFrom(es + [e], (es + [e])[k].from, k)
    {
      LastFromPrefix(es, e, (es + [e])[k].from, k);
    }
  }

  // ----------------------------------------------------------- edges left over

  /** Edges into `v` among the first `k` that are not in `gone`. */
  ghost function Left(es: seq<Edge>, gone: set<nat>, v: nat, k: nat): nat
    requires k <= |es|
  {
    if k == 0 then 0 else Left(es, gone, v, k - 1) + (if es[k - 1].to == v && k - 1 !in gone then 1 else 0)
  }

  lemma {:induction false} LeftAppend(es: seq<Edge>, e: Edge, v: nat, k: nat)
    requires k <= |es|
    ensures Left(es + [e], {}, v, k) == Left(es, {}, v, k)
  {
    if k > 0 { LeftAppend(es, e, v, k - 1); }
  }

  lemma {:induction false} LeftWithout(es: seq<Edge>, gone: set<nat>, e: nat, v: nat, k: nat)
    requires k <= |es| && e !in gone
    ensures Left(es, gone, v, k) == Left(es, gone + {e}, v, k) + (if e < k && es[e].to == v then 1 else 0)
  {
    if k > 0 { LeftWithout(es, gone, e, v, k - 1); }
  }

  lemma {:induction false} LeftBound(es: seq<Edge>, gone: set<nat>, v: nat, k: nat)
    requires k <= |es|
    ensures Left(es, gone, v, k) <= k
    ensures Left(es, gone, v, k) == 0 ==> forall j :: 0 <= j < k && es[j].to == v ==> j in gone
    ensures Left(es, gone, v, k) > 0 ==> exists j :: 0 <= j < k && es[j].to == v && j !in gone
  {
    if k > 0 { LeftBound(es, gone, v, k - 1); }
  }

  // ------------------------------------------------------------ building the lists

  /** The arrays describe the edges `es` over `n` nodes. */
  ghost predicate Lists(es: seq<Edge>, n: nat, heads: seq<int>, next: seq<int>, targets: seq<nat>) {
    && |heads| == n && |targets| >= |es| && Linked(es, heads, next)
    && (forall k :: 0 <= k < |es| ==> targets[k] == es[k].to && es[k].from < n && es[k].to < n)
  }

  ghost predicate Degrees(es: seq<Edge>, incoming: seq<nat>) {
    forall v :: 0 <= v < |incoming| ==> incoming[v] == Left(es, {}, v, |es|)
  }

  lemma ListsAppend(es: seq<Edge>, e: Edge, n: nat, heads: seq<int>, next: seq<int>, targets: seq<nat>, incoming: seq<nat>)
    requires Lists(es, n, heads, next, targets) && |targets| > |es| && |next| > |es| && e.from < n && e.to < n
    requires |incoming| == n && Degrees(es, incoming)
    ensures Lists(es + [e], n, heads[e.from := |es|], next[|es| := heads[e.from]], targets[|es| := e.to])
    ensures Degrees(es + [e], incoming[e.to := incoming[e.to] + 1])
  {
    LinkedAppend(es, e, heads, next);
    var incoming' := incoming[e.to := incoming[e.to] + 1];
    forall v | 0 <= v < |incoming'| ensures incoming'[v] == Left(es + [e], {}, v, |es| + 1) {
      LeftAppend(es, e, v, |es|);
    }
  }

  lemma Misfit(nodes: seq<Artifact>, ds: seq<Dependency>, k: nat, e: Edge)
    requires UniqueIds(nodes) && k < |ds| && Names(nodes, ds[k], e) && !KindsFit(nodes, e)
    ensures !GraphOk(nodes, ds)
  {
    forall es | EdgesOf(nodes, ds, es) ensures !EdgesFit(nodes, es) {
      assert Names(nodes, ds[k], es[k]);
      assert es[k] == e;
    }
  }

  lemma Unknown(nodes: seq<Artifact>, ds: seq<Dependency>, k: nat)
    requires k < |ds| && !Known(nodes, ds[k])
    ensures !GraphOk(nodes, ds)
  {
    assert ds[k] in ds;
  }

  lemma EdgesAppend(nodes: seq<Artifact>, ds: seq<Dependency>, es: seq<Edge>, e: Edge)
    requires |es| < |ds| && EdgesOf(nodes, ds[..|es|], es) && EdgesFit(nodes, es)
    requires Names(nodes, ds[|es|], e) && KindsFit(nodes, e)
    ensures EdgesOf(nodes, ds[..|es| + 1], es + [e]) && EdgesFit(nodes, es + [e])
  {
    forall k | 0 <= k < |es| + 1 ensures Names(nodes, ds[..|es| + 1][k], (es + [e])[k]) {
      if k < |es| { assert Names(nodes, ds[..|es|][k], es[k]); }
    }
  }

  lemma DegreeSmall(es: seq<Edge>, incoming: seq<nat>, v: nat)
    requires Degrees(es, incoming) && v < |incoming|
    ensures incoming[v] <= |es|
  {
    LeftBound(es, {}, v, |es|);
  }

  method Put<T>(a: array<T>, i: nat, v: T)
    requires i < a.Length
    modifies a
    ensures a[..] == old(a[..])[i := v]
  {
    a[i] := v;
  }

  /** Put one edge at the front of its consumer's list. */
  method AddEdge(e: Edge, index: nat, ghost es: seq<Edge>, heads: array<int>, next: array<int>, targets: array<nat>, incoming: array<nat>)
    requires Lists(es, heads.Length, heads[..], next[..], targets[..]) && Degrees(es, incoming[..])
    requires index == |es| && incoming.Length == heads.Length && incoming != targets && heads != next
    requires e.from < heads.Length && e.to < heads.Length && |es| < next.Length && |es| < targets.Length
    modifies heads, next, targets, incoming
    ensures Lists(es + [e], heads.Length, heads[..], next[..], targets[..]) && Degrees(es + [e], incoming[..])
  {
    ghost var hs, ns, ts, ins := heads[..], next[..], targets[..], incoming[..];
    ListsAppend(es, e, heads.Length, hs, ns, ts, ins);
    hide Lists, Degrees;
    Put(next, index, heads[e.from]);
    Put(targets, index, e.to);
    Put(heads, e.from, index);
    Put(incoming, e.to, incoming[e.to] + 1);
  }

  method ResolveEdge(nodes: seq<Artifact>, d: Dependency, table: array<Entry>) returns (ok: bool, e: Edge)
    requires MapOf(table[..], Ids(nodes))
    ensures ok ==> Names(nodes, d, e)
    ensures !ok ==> !Known(nodes, d)
  {
    var known, consumer := Lookup(table, Ids(nodes), d.consumer);
    var served, provider := Lookup(table, Ids(nodes), d.provider);
    ok, e := known && served, Edge(consumer, provider);
  }

  /** Empty lists. */
  method Allocate(n: nat, m: nat) returns (heads: array<int>, next: array<int>, targets: array<nat>, incoming: array<nat>)
    ensures fresh(heads) && fresh(next) && fresh(targets) && fresh(incoming) && incoming != targets && heads != next
    ensures heads.Length == n && incoming.Length == n && next.Length == m && targets.Length == m
    ensures Lists([], n, heads[..], next[..], targets[..]) && Degrees([], incoming[..])
  {
    heads := new int[n](_ => -1);
    next := new int[m](_ => -1);
    targets := new nat[m](_ => 0);
    incoming := new nat[n](_ => 0);
  }

  method Link(nodes: seq<Artifact>, ds: seq<Dependency>, table: array<Entry>)
    returns (ok: bool, heads: array<int>, next: array<int>, targets: array<nat>, incoming: array<nat>, ghost es: seq<Edge>)
    requires UniqueIds(nodes) && MapOf(table[..], Ids(nodes)) && |ds| <= MAX_DEPENDENCIES
    ensures fresh(heads) && fresh(next) && fresh(targets) && fresh(incoming) && incoming != targets && incoming.Length == |nodes|
    ensures ok ==> EdgesOf(nodes, ds, es) && EdgesFit(nodes, es)
    ensures ok ==> Lists(es, |nodes|, heads[..], next[..], targets[..]) && Degrees(es, incoming[..])
    ensures !ok ==> !GraphOk(nodes, ds)
  {
    heads, next, targets, incoming := Allocate(|nodes|, |ds|);
    es := [];
    assert EdgesOf(nodes, ds[..0], es) && EdgesFit(nodes, es);
    hide Lists, Degrees, EdgesOf, EdgesFit, GraphOk, UniqueIds, MapOf, Known, Ids;
    for index := 0 to |ds|
      invariant |es| == index && EdgesOf(nodes, ds[..index], es) && EdgesFit(nodes, es)
      invariant Lists(es, |nodes|, heads[..], next[..], targets[..]) && Degrees(es, incoming[..])
    {
      var known, e := ResolveEdge(nodes, ds[index], table);
      if known { DegreeSmall(es, incoming[..], e.to); }
      if !known || incoming[e.to] == U32 - 1 {
        Unknown(nodes, ds, index);
        return false, heads, next, targets, incoming, es;
      }
      if nodes[e.from].shared && !nodes[e.to].shared {
        Misfit(nodes, ds, index, e);
        return false, heads, next, targets, incoming, es;
      }
      EdgesAppend(nodes, ds, es, e);
      AddEdge(e, index, es, heads, next, targets, incoming);
      es := es + [e];
    }
    assert ds[..|ds|] == ds;
    return true, heads, next, targets, incoming, es;
  }

  // ------------------------------------------------------- the acyclicity pass

  /** `order` lists the nodes without edges left, predecessors first, after the edges in `gone` were removed. */
  ghost predicate Peeled(es: seq<Edge>, n: nat, gone: set<nat>, order: seq<nat>, incoming: seq<nat>) {
    && |incoming| == n && (forall v :: 0 <= v < n ==> incoming[v] == Left(es, gone, v, |es|))
    && AllDistinct(order) && (forall x :: x in order ==> x < n)
    && (forall v: nat :: v < n ==> (v in order <==> incoming[v] == 0))
    && Ordered(es, order)
    && (forall j :: j in gone ==> j < |es| && es[j].from in order)
  }

  lemma OrderedAppend(es: seq<Edge>, order: seq<nat>, v: nat)
    requires Ordered(es, order) && forall k :: 0 <= k < |es| && es[k].to == v ==> es[k].from in order
    ensures Ordered(es, order + [v])
  {
    var order' := order + [v];
    forall k, i | 0 <= k < |es| && 0 <= i < |order'| && order'[i] == es[k].to ensures Earlier(order', i, es[k].from) {
      assert order'[..i] == order[..i];
      if i < |order| { assert Earlier(order, i, es[k].from); } else { assert order[..i] == order; }
    }
  }

  /** Removing one edge of a listed node. */
  lemma PeelEdge(es: seq<Edge>, n: nat, gone: set<nat>, order: seq<nat>, incoming: seq<nat>, e: nat)
    requires Peeled(es, n, gone, order, incoming) && e < |es| && e !in gone && es[e].from in order && es[e].to < n
    ensures incoming[es[e].to] > 0
    ensures var v := es[e].to;
            var incoming' := incoming[v := incoming[v] - 1];
            var order' := if incoming'[v] == 0 then order + [v] else order;
            Peeled(es, n, gone + {e}, order', incoming') && |order'| <= n
  {
    var v := es[e].to;
    LeftAfter(es, n, gone, incoming, e);
    var incoming' := incoming[v := incoming[v] - 1];
    hide Ordered, AllDistinct, Left;
    if incoming'[v] == 0 {
      LeftBound(es, gone + {e}, v, |es|);
      OrderedAppend(es, order, v);
      DistinctAppend(order, v);
      DistinctFits(order + [v], n);
    } else {
      DistinctFits(order, n);
    }
  }

  lemma LeftAfter(es: seq<Edge>, n: nat, gone: set<nat>, incoming: seq<nat>, e: nat)
    requires |incoming| == n && e < |es| && e !in gone && es[e].to < n
    requires forall v :: 0 <= v < n ==> incoming[v] == Left(es, gone, v, |es|)
    ensures incoming[es[e].to] > 0
    ensures var incoming' := incoming[es[e].to := incoming[es[e].to] - 1];
            forall v :: 0 <= v < n ==> incoming'[v] == Left(es, gone + {e}, v, |es|)
  {
    LeftWithout(es, gone, e, es[e].to, |es|);
    var incoming' := incoming[es[e].to := incoming[es[e].to] - 1];
    forall v | 0 <= v < n ensures incoming'[v] == Left(es, gone + {e}, v, |es|) { LeftWithout(es, gone, e, v, |es|); }
  }

  /** When nothing is left to peel, everything was listed exactly if there is no cycle. */
  lemma PeelEnds(es: seq<Edge>, n: nat, gone: set<nat>, order: seq<nat>, incoming: seq<nat>)
    requires Peeled(es, n, gone, order, incoming)
    requires forall k :: 0 <= k < |es| ==> es[k].from < n && es[k].to < n
    requires forall j :: 0 <= j < |es| && es[j].from in order ==> j in gone
    ensures |order| <= n && (|order| == n <==> Acyclic(es))
  {
    DistinctFits(order, n);
    if |order| == n {
      OrderedIsAcyclic(es, order);
    } else {
      var x := Missing(order, n);
      var stuck := set v | v in Below(n) && v !in order;
      forall v | v in stuck ensures HasPredecessor(es, stuck, v) {
        LeftBound(es, gone, v, |es|);
        var j :| 0 <= j < |es| && es[j].to == v && j !in gone;
        assert es[j].from in stuck && Joins(es, es[j].from, v);
      }
      StuckIsCyclic(es, stuck, x, n);
    }
  }

  /** Edges removed so far: those of the nodes taken from the queue, and of `node` those from `bound` on. */
  ghost predicate Removed(es: seq<Edge>, gone: set<nat>, taken: seq<nat>, node: nat, bound: nat) {
    forall j :: 0 <= j < |es| ==> (j in gone <==> es[j].from in taken || (es[j].from == node && j >= bound))
  }

  /** The edges removed are those of the nodes in `taken`. */
  ghost predicate Spent(es: seq<Edge>, gone: set<nat>, taken: seq<nat>) {
    forall j :: 0 <= j < |es| ==> (j in gone <==> es[j].from in taken)
  }

  lemma RemoveNext(es: seq<Edge>, gone: set<nat>, taken: seq<nat>, node: nat, bound: nat)
    requires bound <= |es| && Removed(es, gone, taken, node, bound) && node !in taken
    ensures var e := LastFrom(es, node, bound);
            if e == -1 then Spent(es, gone, taken + [node])
            else e !in gone && Removed(es, gone + {e}, taken, node, e)
  {
  }

  /** The queue with one more entry. */
  method Push(queue: array<nat>, end: nat, v: nat)
    requires end < queue.Length
    modifies queue
    ensures queue[..end + 1] == old(queue[..end]) + [v]
  {
    queue[end] := v;
  }

  lemma ListHead(es: seq<Edge>, n: nat, heads: seq<int>, next: seq<int>, targets: seq<nat>, node: nat)
    requires Lists(es, n, heads, next, targets) && node < n
    ensures |heads| == n && heads[node] == LastFrom(es, node, |es|)
    ensures forall k :: 0 <= k < |es| ==> es[k].to < n
  {
  }

  lemma ListNext(es: seq<Edge>, n: nat, heads: seq<int>, next: seq<int>, targets: seq<nat>, node: nat, edge: int)
    requires Lists(es, n, heads, next, targets) && 0 <= edge < |es| && es[edge].from == node
    ensures |next| >= |es| && next[edge] == LastFrom(es, node, edge)
    ensures |targets| >= |es| && targets[edge] == es[edge].to
  {
  }

  ghost predicate Extends(xs: seq<nat>, ys: seq<nat>) {
    xs <= ys
  }

  lemma ExtendsSelf(xs: seq<nat>)
    ensures Extends(xs, xs)
  {
  }

  lemma ExtendsOn(xs: seq<nat>, ys: seq<nat>, zs: seq<nat>)
    requires Extends(xs, ys) && Extends(ys, zs)
    ensures Extends(xs, zs)
  {
  }

  /** The pass is in the middle of the list of `node`, with the edges from `bound` on done. */
  ghost predicate Peeling(es: seq<Edge>, n: nat, gone: set<nat>, order: seq<nat>, incoming: seq<nat>,
                          taken: seq<nat>, node: nat, bound: nat) {
    && Peeled(es, n, gone, order, incoming) && Removed(es, gone, taken, node, bound)
    && node in order && node !in taken && bound <= |es|
    && forall k :: 0 <= k < |es| ==> es[k].to < n
  }

  /** The next edge of the list is removed. */
  lemma PeelAt(es: seq<Edge>, n: nat, gone: set<nat>, order: seq<nat>, incoming: seq<nat>, taken: seq<nat>, node: nat, bound: nat)
    requires Peeling(es, n, gone, order, incoming, taken, node, bound) && LastFrom(es, node, bound) >= 0
    ensures var e := LastFrom(es, node, bound); var v := es[e].to;
            && |incoming| == n && v < n && incoming[v] > 0
            && var incoming' := incoming[v := incoming[v] - 1];
               var order' := if incoming'[v] == 0 then order + [v] else order;
               Peeling(es, n, gone + {e}, order', incoming', taken, node, e) && |order'| <= n
  {
    RemoveNext(es, gone, taken, node, bound);
    PeelEdge(es, n, gone, order, incoming, LastFrom(es, node, bound));
  }

  lemma PeelBegins(es: seq<Edge>, n: nat, gone: set<nat>, order: seq<nat>, incoming: seq<nat>, taken: seq<nat>, node: nat)
    requires Peeled(es, n, gone, order, incoming) && Spent(es, gone, taken) && node in order && node !in taken
    requires forall k :: 0 <= k < |es| ==> es[k].to < n
    ensures Peeling(es, n, gone, order, incoming, taken, node, |es|)
  {
  }

  /** Remove one edge of a listed node; a provider without edges left joins the queue. */
  method PeelOne(edge: nat, provider: nat, ghost es: seq<Edge>, ghost gone: set<nat>, ghost taken: seq<nat>, ghost node: nat,
                 ghost bound: nat, incoming: array<nat>, queue: array<nat>, end: nat)
    returns (end': nat)
    requires queue != incoming && end <= queue.Length
    requires Peeling(es, queue.Length, gone, queue[..end], incoming[..], taken, node, bound)
    requires LastFrom(es, node, bound) == edge && es[edge].to == provider
    modifies incoming, queue
    ensures end <= end' <= queue.Length && Extends(old(queue[..end]), queue[..end'])
    ensures Peeling(es, queue.Length, gone + {edge}, queue[..end'], incoming[..], taken, node, edge)
  {
    hide Peeling, LastFrom;
    PeelAt(es, queue.Length, gone, queue[..end], incoming[..], taken, node, bound);
    end' := end;
    Put(incoming, provider, incoming[provider] - 1);
    if incoming[provider] == 0 {
      Push(queue, end, provider);
      end' := end + 1;
    }
  }

  /** Remove the edges of `node`; nodes that have none left join the queue. */
  method PeelNode(node: nat, ghost es: seq<Edge>, ghost gone: set<nat>, ghost taken: seq<nat>,
                  heads: array<int>, next: array<int>, targets: array<nat>, incoming: array<nat>, queue: array<nat>, end: nat)
    returns (end': nat, ghost gone': set<nat>)
    requires Lists(es, queue.Length, heads[..], next[..], targets[..])
    requires queue != incoming && queue != targets && incoming != targets && end <= queue.Length
    requires Peeled(es, queue.Length, gone, queue[..end], incoming[..])
    requires node < queue.Length && node in queue[..end] && node !in taken && Spent(es, gone, taken)
    modifies incoming, queue
    ensures end <= end' <= queue.Length && Extends(old(queue[..end]), queue[..end'])
    ensures Peeled(es, queue.Length, gone', queue[..end'], incoming[..]) && Spent(es, gone', taken + [node])
  {
    hide Peeling, Peeled, Spent, Lists, LastFrom, Extends;
    ListHead(es, queue.Length, heads[..], next[..], targets[..], node);
    PeelBegins(es, queue.Length, gone, queue[..end], incoming[..], taken, node);
    ExtendsSelf(queue[..end]);
    var edge := heads[node];
    ghost var bound := |es|;
    end', gone' := end, gone;
    while edge != -1
      invariant 0 <= bound <= |es| && edge == LastFrom(es, node, bound)
      invariant end <= end' <= queue.Length && Extends(old(queue[..end]), queue[..end'])
      invariant Peeling(es, queue.Length, gone', queue[..end'], incoming[..], taken, node, bound)
      decreases edge
    {
      ListNext(es, queue.Length, heads[..], next[..], targets[..], node, edge);
      ghost var before := queue[..end'];
      end' := PeelOne(edge, targets[edge], es, gone', taken, node, bound, incoming, queue, end');
      ExtendsOn(old(queue[..end]), before, queue[..end']);
      gone', bound := gone' + {edge}, edge;
      edge := next[edge];
    }
    PeelNodeEnds(es, queue.Length, gone', queue[..end'], incoming[..], taken, node, bound);
  }

  lemma PeelNodeEnds(es: seq<Edge>, n: nat, gone: set<nat>, order: seq<nat>, incoming: seq<nat>, taken: seq<nat>, node: nat, bound: nat)
    requires Peeling(es, n, gone, order, incoming, taken, node, bound) && LastFrom(es, node, bound) == -1
    ensures Peeled(es, n, gone, order, incoming) && Spent(es, gone, taken + [node])
  {
    RemoveNext(es, gone, taken, node, bound);
  }

  /** Nodes without incoming edges open the queue. */
  method PeelFirst(ghost es: seq<Edge>, incoming: array<nat>, queue: array<nat>) returns (end: nat)
    requires incoming != queue && incoming.Length == queue.Length && Degrees(es, incoming[..])
    modifies queue
    ensures end <= queue.Length && Peeled(es, queue.Length, {}, queue[..end], incoming[..])
  {
    end := 0;
    for index := 0 to incoming.Length
      invariant end <= index && AllDistinct(queue[..end])
      invariant forall v: nat :: v in queue[..end] <==> v < index && incoming[v] == 0
    {
      if incoming[index] == 0 {
        DistinctAppend(queue[..end], index);
        Push(queue, end, index);
        end := end + 1;
      }
    }
    FirstPeeled(es, queue[..end], incoming[..]);
  }

  lemma FirstPeeled(es: seq<Edge>, order: seq<nat>, incoming: seq<nat>)
    requires Degrees(es, incoming) && AllDistinct(order)
    requires forall v: nat :: v in order <==> v < |incoming| && incoming[v] == 0
    ensures Peeled(es, |incoming|, {}, order, incoming)
  {
    forall k | 0 <= k < |es| ensures es[k].to !in order {
      LeftBound(es, {}, es[k].to, |es|);
    }
  }

  /** Repeatedly take a node without incoming edges and remove its edges. All nodes go exactly if there is no cycle. */
  method Peel(n: nat, ghost es: seq<Edge>, heads: array<int>, next: array<int>, targets: array<nat>, incoming: array<nat>)
    returns (complete: bool)
    requires Lists(es, n, heads[..], next[..], targets[..]) && incoming.Length == n && Degrees(es, incoming[..])
    requires incoming != targets
    modifies incoming
    ensures complete <==> Acyclic(es)
  {
    hide Lists, Degrees, Peeled, Spent, Acyclic, AllDistinct, Extends;
    var queue := new nat[n](_ => 0);
    var end := PeelFirst(es, incoming, queue);
    var begin, processed := 0, 0;
    ghost var gone: set<nat> := {};
    NothingSpent(es);
    while begin < end
      invariant 0 <= begin <= end <= n && processed == begin
      invariant Peeled(es, n, gone, queue[..end], incoming[..]) && Spent(es, gone, queue[..begin])
      decreases n - begin
    {
      var node := queue[begin];
      ghost var order, taken := queue[..end], queue[..begin];
      NextToPeel(es, n, gone, order, incoming[..], begin);
      assert taken == order[..begin] && taken + [node] == order[..begin + 1];
      begin := begin + 1;
      processed := processed + 1;
      end, gone := PeelNode(node, es, gone, taken, heads, next, targets, incoming, queue, end);
      ExtendsPrefix(order, queue[..end], begin);
      assert queue[..begin] == queue[..end][..begin];
    }
    complete := processed == n;
    PeelDone(es, n, heads[..], next[..], targets[..], gone, queue[..end], incoming[..]);
  }

  lemma NothingSpent(es: seq<Edge>)
    ensures Spent(es, {}, [])
  {
  }

  lemma NextToPeel(es: seq<Edge>, n: nat, gone: set<nat>, order: seq<nat>, incoming: seq<nat>, i: nat)
    requires Peeled(es, n, gone, order, incoming) && i < |order|
    ensures order[i] in order && order[i] < n && order[i] !in order[..i]
  {
  }

  lemma ExtendsPrefix(xs: seq<nat>, ys: seq<nat>, k: nat)
    requires Extends(xs, ys) && k <= |xs|
    ensures |xs| <= |ys| && ys[..k] == xs[..k]
  {
  }

  lemma PeelDone(es: seq<Edge>, n: nat, heads: seq<int>, next: seq<int>, targets: seq<nat>, gone: set<nat>, order: seq<nat>, incoming: seq<nat>)
    requires Lists(es, n, heads, next, targets) && Peeled(es, n, gone, order, incoming) && Spent(es, gone, order)
    ensures |order| == n <==> Acyclic(es)
  {
    PeelEnds(es, n, gone, order, incoming);
  }

  // ----------------------------------------------------- the reachability pass

  /** `order` holds the roots, only reachable nodes, and the target of every edge in `gone`. */
  ghost predicate Flooded(es: seq<Edge>, roots: set<nat>, gone: set<nat>, order: seq<nat>, marks: seq<bool>) {
    && (forall v: nat :: v < |marks| ==> (marks[v] <==> v in order))
    && AllDistinct(order) && (forall x :: x in order ==> x < |marks| && Reachable(es, roots, x))
    && (forall r :: r in roots ==> r in order)
    && (forall j :: j in gone ==> j < |es| && es[j].to in order)
  }

  lemma FloodEdge(es: seq<Edge>, roots: set<nat>, gone: set<nat>, order: seq<nat>, marks: seq<bool>, e: nat)
    requires Flooded(es, roots, gone, order, marks) && e < |es| && es[e].from in order && es[e].to < |marks|
    ensures var v := es[e].to;
            var order' := if marks[v] then order else order + [v];
            Flooded(es, roots, gone + {e}, order', marks[v := true]) && |order'| <= |marks|
  {
    hide Reachable, AllDistinct;
    var v := es[e].to;
    if marks[v] {
      DistinctFits(order, |marks|);
    } else {
      assert es[e] == Edge(es[e].from, v);
      ReachOn(es, roots, es[e].from, v);
      DistinctAppend(order, v);
      DistinctFits(order + [v], |marks|);
    }
  }

  /** When every listed node was followed, the list is what the roots reach. */
  lemma FloodEnds(es: seq<Edge>, roots: set<nat>, gone: set<nat>, order: seq<nat>, marks: seq<bool>, v: nat)
    requires Flooded(es, roots, gone, order, marks) && Spent(es, gone, order) && v < |marks|
    ensures marks[v] <==> Reachable(es, roots, v)
  {
    if Reachable(es, roots, v) {
      var xs :| Leads(es, xs, roots, v);
      ClosedHolds(es, roots, Elements(order), xs);
    }
  }

  ghost predicate Flooding(es: seq<Edge>, roots: set<nat>, gone: set<nat>, order: seq<nat>, marks: seq<bool>,
                           taken: seq<nat>, node: nat, bound: nat) {
    && Flooded(es, roots, gone, order, marks) && Removed(es, gone, taken, node, bound)
    && node in order && node !in taken && bound <= |es|
    && forall k :: 0 <= k < |es| ==> es[k].to < |marks|
  }

  lemma FloodAt(es: seq<Edge>, roots: set<nat>, gone: set<nat>, order: seq<nat>, marks: seq<bool>, taken: seq<nat>, node: nat, bound: nat)
    requires Flooding(es, roots, gone, order, marks, taken, node, bound) && LastFrom(es, node, bound) >= 0
    ensures var e := LastFrom(es, node, bound); var v := es[e].to;
            && v < |marks|
            && var order' := if marks[v] then order else order + [v];
               Flooding(es, roots, gone + {e}, order', marks[v := true], taken, node, e) && |order'| <= |marks|
  {
    RemoveNext(es, gone, taken, node, bound);
    FloodEdge(es, roots, gone, order, marks, LastFrom(es, node, bound));
  }

  lemma FloodBegins(es: seq<Edge>, roots: set<nat>, gone: set<nat>, order: seq<nat>, marks: seq<bool>, taken: seq<nat>, node: nat)
    requires Flooded(es, roots, gone, order, marks) && Spent(es, gone, taken) && node in order && node !in taken
    requires forall k :: 0 <= k < |es| ==> es[k].to < |marks|
    ensures Flooding(es, roots, gone, order, marks, taken, node, |es|)
  {
  }

  lemma FloodNodeEnds(es: seq<Edge>, roots: set<nat>, gone: set<nat>, order: seq<nat>, marks: seq<bool>, taken: seq<nat>, node: nat, bound: nat)
    requires Flooding(es, roots, gone, order, marks, taken, node, bound) && LastFrom(es, node, bound) == -1
    ensures Flooded(es, roots, gone, order, marks) && Spent(es, gone, taken + [node])
  {
    RemoveNext(es, gone, taken, node, bound);
  }

  lemma NextToFlood(es: seq<Edge>, roots: set<nat>, gone: set<nat>, order: seq<nat>, marks: seq<bool>, i: nat)
    requires Flooded(es, roots, gone, order, marks) && i < |order|
    ensures order[i] in order && order[i] < |marks| && order[i] !in order[..i]
  {
  }

  /** Follow one edge; a provider seen for the first time joins the queue. */
  method FloodOne(edge: nat, provider: nat, ghost es: seq<Edge>, ghost roots: set<nat>, ghost gone: set<nat>, ghost taken: seq<nat>,
                  ghost node: nat, ghost bound: nat, reachable: array<bool>, queue: array<nat>, end: nat)
    returns (end': nat)
    requires end <= queue.Length == reachable.Length
    requires Flooding(es, roots, gone, queue[..end], reachable[..], taken, node, bound)
    requires LastFrom(es, node, bound) == edge && es[edge].to == provider
    modifies reachable, queue
    ensures end <= end' <= queue.Length && Extends(old(queue[..end]), queue[..end'])
    ensures Flooding(es, roots, gone + {edge}, queue[..end'], reachable[..], taken, node, edge)
  {
    hide Flooding, LastFrom;
    FloodAt(es, roots, gone, queue[..end], reachable[..], taken, node, bound);
    end' := end;
    if !reachable[provider] {
      Put(reachable, provider, true);
      Push(queue, end, provider);
      end' := end + 1;
    } else {
      assert reachable[..] == reachable[..][provider := true];
    }
  }

  method FloodNode(node: nat, ghost es: seq<Edge>, ghost roots: set<nat>, ghost gone: set<nat>, ghost taken: seq<nat>,
                   heads: array<int>, next: array<int>, targets: array<nat>, reachable: array<bool>, queue: array<nat>, end: nat)
    returns (end': nat, ghost gone': set<nat>)
    requires Lists(es, queue.Length, heads[..], next[..], targets[..]) && queue != targets
    requires end <= queue.Length == reachable.Length
    requires Flooded(es, roots, gone, queue[..end], reachable[..])
    requires node < queue.Length && node in queue[..end] && node !in taken && Spent(es, gone, taken)
    modifies reachable, queue
    ensures end <= end' <= queue.Length && Extends(old(queue[..end]), queue[..end'])
    ensures Flooded(es, roots, gone', queue[..end'], reachable[..]) && Spent(es, gone', taken + [node])
  {
    hide Flooding, Flooded, Spent, Lists, LastFrom, Extends;
    ListHead(es, queue.Length, heads[..], next[..], targets[..], node);
    FloodBegins(es, roots, gone, queue[..end], reachable[..], taken, node);
    ExtendsSelf(queue[..end]);
    var edge := heads[node];
    ghost var bound := |es|;
    end', gone' := end, gone;
    while edge != -1
      invariant 0 <= bound <= |es| && edge == LastFrom(es, node, bound)
      invariant end <= end' <= queue.Length && Extends(old(queue[..end]), queue[..end'])
      invariant Flooding(es, roots, gone', queue[..end'], reachable[..], taken, node, bound)
      decreases edge
    {
      ListNext(es, queue.Length, heads[..], next[..], targets[..], node, edge);
      ghost var before := queue[..end'];
      end' := FloodOne(edge, targets[edge], es, roots, gone', taken, node, bound, reachable, queue, end');
      ExtendsOn(old(queue[..end]), before, queue[..end']);
      gone', bound := gone' + {edge}, edge;
      edge := next[edge];
    }
    FloodNodeEnds(es, roots, gone', queue[..end'], reachable[..], taken, node, bound);
  }

  /** The roots open the queue. */
  method FloodFirst(nodes: seq<Artifact>, ghost es: seq<Edge>, reachable: array<bool>, queue: array<nat>) returns (end: nat)
    requires reachable.Length == queue.Length == |nodes| && forall i :: 0 <= i < |nodes| ==> !reachable[i]
    modifies reachable, queue
    ensures end <= queue.Length && Flooded(es, Roots(nodes), {}, queue[..end], reachable[..])
  {
    end := 0;
    for index := 0 to |nodes|
      invariant end <= index && AllDistinct(queue[..end])
      invariant forall v: nat :: v in queue[..end] <==> v < index && nodes[v].root
      invariant forall v :: 0 <= v < |nodes| ==> (reachable[v] <==> v < index && nodes[v].root)
    {
      if nodes[index].root {
        reachable[index] := true;
        DistinctAppend(queue[..end], index);
        Push(queue, end, index);
        end := end + 1;
      }
    }
    forall x | x in queue[..end] ensures Reachable(es, Roots(nodes), x) { ReachRoot(es, Roots(nodes), x); }
  }

  /** Follow the edges from the roots; nothing must be left unmarked. */
  method Flood(nodes: seq<Artifact>, ghost es: seq<Edge>, heads: array<int>, next: array<int>, targets: array<nat>) returns (all: bool)
    requires Lists(es, |nodes|, heads[..], next[..], targets[..])
    ensures all <==> AllReachable(nodes, es)
  {
    hide Lists, Flooded, Spent, AllDistinct, Extends, AllReachable;
    var n := |nodes|;
    ghost var roots := Roots(nodes);
    var queue, reachable := new nat[n](_ => 0), new bool[n](_ => false);
    var end := FloodFirst(nodes, es, reachable, queue);
    var begin := 0;
    ghost var gone: set<nat> := {};
    NothingSpent(es);
    while begin < end
      invariant 0 <= begin <= end <= n
      invariant Flooded(es, roots, gone, queue[..end], reachable[..]) && Spent(es, gone, queue[..begin])
      decreases n - begin
    {
      var node := queue[begin];
      ghost var order, taken := queue[..end], queue[..begin];
      NextToFlood(es, roots, gone, order, reachable[..], begin);
      assert taken == order[..begin] && taken + [node] == order[..begin + 1];
      begin := begin + 1;
      end, gone := FloodNode(node, es, roots, gone, taken, heads, next, targets, reachable, queue, end);
      ExtendsPrefix(order, queue[..end], begin);
      assert queue[..begin] == queue[..end][..begin];
    }
    AllEnds(nodes, es, gone, queue[..end], reachable[..]);
    all := AllMarked(reachable);
  }

  predicate Full(marks: seq<bool>) {
    forall v :: 0 <= v < |marks| ==> marks[v]
  }

  lemma AllEnds(nodes: seq<Artifact>, es: seq<Edge>, gone: set<nat>, order: seq<nat>, marks: seq<bool>)
    requires Flooded(es, Roots(nodes), gone, order, marks) && Spent(es, gone, order) && |marks| == |nodes|
    ensures AllReachable(nodes, es) <==> Full(marks)
  {
    hide Flooded, Spent, Reachable;
    forall v: nat | v < |marks| ensures marks[v] <==> Reachable(es, Roots(nodes), v) {
      FloodEnds(es, Roots(nodes), gone, order, marks, v);
    }
  }

  method AllMarked(reachable: array<bool>) returns (all: bool)
    ensures all <==> Full(reachable[..])
  {
    for index := 0 to reachable.Length
      invariant forall v: nat :: v < index ==> reachable[..][v]
    {
      if !reachable[index] {
        assert !reachable[..][index];
        return false;
      }
    }
    return true;
  }

  // ---------------------------------------------------------------- the validator

  /** kb2_validate_graph, given memory, accepts exactly the graphs that are as they must be. */
  method ValidateGraph(nodes: seq<Artifact>, ds: seq<Dependency>, table: array<Entry>, memory: bool) returns (status: Status)
    requires UniqueIds(nodes) && MapOf(table[..], Ids(nodes)) && |ds| <= MAX_DEPENDENCIES
    ensures status.NoMemory? <==> !memory
    ensures memory ==> (status.Okay? <==> GraphOk(nodes, ds))
  {
    if !memory { return NoMemory; }
    var ok, heads, next, targets, incoming, es := Link(nodes, ds, table);
    if !ok { return InvalidConfiguration; }
    GraphIs(nodes, ds, es);
    hide GraphOk, EdgesOf, EdgesFit, Lists, Degrees, UniqueIds, MapOf, Acyclic, AllReachable;
    var complete := Peel(|nodes|, es, heads, next, targets, incoming);
    if !complete { return InvalidConfiguration; }
    var all := Flood(nodes, es, heads, next, targets);
    return if all then Okay else InvalidConfiguration;
  }

  lemma GraphIs(nodes: seq<Artifact>, ds: seq<Dependency>, es: seq<Edge>)
    requires UniqueIds(nodes) && EdgesOf(nodes, ds, es) && EdgesFit(nodes, es)
    ensures GraphOk(nodes, ds) <==> Acyclic(es) && AllReachable(nodes, es)
  {
    hide Acyclic, AllReachable, EdgesFit;
    forall fs | EdgesOf(nodes, ds, fs) ensures fs == es { EdgesUnique(nodes, ds, es, fs); }
    forall d | d in ds ensures Known(nodes, d) {
      var k :| 0 <= k < |ds| && ds[k] == d;
      assert Names(nodes, ds[k], es[k]);
      assert Ids(nodes)[es[k].from] == d.consumer && Ids(nodes)[es[k].to] == d.provider;
    }
  }
}
