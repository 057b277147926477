/** Walks, cycles and reachability in a finite directed graph given by its edges. */
module Graphs {
  import opened Counting

  datatype Edge = Edge(from: nat, to: nat)

  ghost predicate Joins(es: seq<Edge>, a: nat, b: nat) {
    Edge(a, b) in es
  }

  ghost predicate StepOk(es: seq<Edge>, xs: seq<nat>, i: nat) {
    i + 1 < |xs| ==> Joins(es, xs[i], xs[i + 1])
  }

  ghost predicate Walk(es: seq<Edge>, xs: seq<nat>) {
    |xs| > 0 && forall i: nat :: i + 1 < |xs| ==> StepOk(es, xs, i)
  }

  /** No walk of at least one edge returns to where it started. */
  ghost predicate Acyclic(es: seq<Edge>) {
    forall xs :: Walk(es, xs) && |xs| >= 2 ==> xs[0] != xs[|xs| - 1]
  }

  ghost predicate Leads(es: seq<Edge>, xs: seq<nat>, roots: set<nat>, x: nat) {
    Walk(es, xs) && xs[0] in roots && xs[|xs| - 1] == x
  }

  ghost predicate Reachable(es: seq<Edge>, roots: set<nat>, x: nat) {
    exists xs :: Leads(es, xs, roots, x)
  }

  // ------------------------------------------------------------------ acyclic

  /** `v` stands before position `i`. */
  ghost predicate Earlier(order: seq<nat>, i: nat, v: nat) {
    i <= |order| && v in order[..i]
  }

  /** Every node of the order comes after all its predecessors. */
  ghost predicate Ordered(es: seq<Edge>, order: seq<nat>) {
    forall k, i :: 0 <= k < |es| && 0 <= i < |order| && order[i] == es[k].to ==> Earlier(order, i, es[k].from)
  }

  lemma {:induction false} WalkClimbs(es: seq<Edge>, order: seq<nat>, xs: seq<nat>, b: nat) returns (a: nat)
    requires Ordered(es, order) && Walk(es, xs) && b < |order| && order[b] == xs[|xs| - 1]
    ensures a <= b && order[a] == xs[0] && (|xs| >= 2 ==> a < b)
    decreases |xs|
  {
    if |xs| == 1 {
      a := b;
    } else {
      var front := xs[..|xs| - 1];
      assert StepOk(es, xs, |xs| - 2);
      assert Earlier(order, b, xs[|xs| - 2]);
      var c :| 0 <= c < b && order[c] == xs[|xs| - 2];
      forall i: nat | i + 1 < |front| ensures StepOk(es, front, i) { assert StepOk(es, xs, i); }
      a := WalkClimbs(es, order, front, c);
    }
  }

  /** A graph whose nodes can be listed once each, predecessors first, has no cycle. */
  lemma OrderedIsAcyclic(es: seq<Edge>, order: seq<nat>)
    requires Ordered(es, order) && AllDistinct(order)
    requires forall k :: 0 <= k < |es| ==> es[k].to in order
    ensures Acyclic(es)
  {
    forall xs | Walk(es, xs) && |xs| >= 2 ensures xs[0] != xs[|xs| - 1] {
      assert StepOk(es, xs, |xs| - 2);
      var b :| 0 <= b < |order| && order[b] == xs[|xs| - 1];
      var a := WalkClimbs(es, order, xs, b);
    }
  }

  /** Every node of `stuck` has a predecessor in it. */
  ghost predicate Stuck(es: seq<Edge>, stuck: set<nat>) {
    forall x :: x in stuck ==> HasPredecessor(es, stuck, x)
  }

  ghost predicate HasPredecessor(es: seq<Edge>, stuck: set<nat>, x: nat) {
    exists y :: y in stuck && Joins(es, y, x)
  }

  lemma WalkOn(es: seq<Edge>, xs: seq<nat>, x: nat)
    requires Walk(es, xs) && Joins(es, xs[|xs| - 1], x)
    ensures Walk(es, xs + [x])
  {
    var ys := xs + [x];
    forall i: nat | i + 1 < |ys| ensures StepOk(es, ys, i) {
      if i + 1 < |xs| { assert StepOk(es, xs, i); }
    }
  }

  /** A walk of any length that ends at a stuck node and stays among stuck nodes. */
  lemma {:induction false} WalkBack(es: seq<Edge>, stuck: set<nat>, x: nat, n: nat) returns (xs: seq<nat>)
    requires Stuck(es, stuck) && x in stuck
    ensures Walk(es, xs) && |xs| == n + 1 && xs[n] == x && forall y :: y in xs ==> y in stuck
    decreases n
  {
    if n == 0 {
      xs := [x];
    } else {
      assert HasPredecessor(es, stuck, x);
      var y :| y in stuck && Joins(es, y, x);
      var before := WalkBack(es, stuck, y, n - 1);
      WalkOn(es, before, x);
      xs := before + [x];
    }
  }

  /** Nodes that all wait for each other contain a cycle. */
  lemma StuckIsCyclic(es: seq<Edge>, stuck: set<nat>, x: nat, n: nat)
    requires Stuck(es, stuck) && x in stuck && forall y :: y in stuck ==> y < n
    ensures !Acyclic(es)
  {
    var xs := WalkBack(es, stuck, x, n);
    var i, j := Pigeonhole(xs, n);
    var loop := xs[i..j + 1];
    forall k: nat | k + 1 < |loop| ensures StepOk(es, loop, k) { assert StepOk(es, xs, i + k); }
    assert Walk(es, loop) && loop[0] == loop[|loop| - 1];
  }

  // ---------------------------------------------------------------- reachable

  lemma ReachOn(es: seq<Edge>, roots: set<nat>, x: nat, y: nat)
    requires Reachable(es, roots, x) && Joins(es, x, y)
    ensures Reachable(es, roots, y)
  {
    var xs :| Leads(es, xs, roots, x);
    WalkOn(es, xs, y);
    assert Leads(es, xs + [y], roots, y);
  }

  lemma ReachRoot(es: seq<Edge>, roots: set<nat>, x: nat)
    requires x in roots
    ensures Reachable(es, roots, x)
  {
    assert Leads(es, [x], roots, x);
  }

  /** A set that holds the roots and follows its edges holds everything reachable. */
  lemma {:induction false} ClosedHolds(es: seq<Edge>, roots: set<nat>, closed: set<nat>, xs: seq<nat>)
    requires roots <= closed && Walk(es, xs) && xs[0] in roots
    requires forall k :: 0 <= k < |es| && es[k].from in closed ==> es[k].to in closed
    ensures xs[|xs| - 1] in closed
    decreases |xs|
  {
    if |xs| > 1 {
      var front := xs[..|xs| - 1];
      forall i: nat | i + 1 < |front| ensures StepOk(es, front, i) { assert StepOk(es, xs, i); }
      ClosedHolds(es, roots, closed, front);
      assert StepOk(es, xs, |xs| - 2);
    }
  }
}
