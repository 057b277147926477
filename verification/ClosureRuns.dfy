/** Whole histories of a closure builder: which calls it accepts, and what they leave. */
module ClosureRuns {
  import opened Bytes
  import opened Fields
  import opened Names
  import opened Sorting
  import G = ClosureGraph
  import opened ClosureRecords
  import S = ClosureSeal

  const MAX_ARTIFACTS: nat := 4096
  const MAX_SYMBOLS: nat := 65536
  const MAX_RESOURCES: nat := 16384
  const MAX_BINDINGS: nat := 65536

  function KnownRights(kind: ResourceType): set<nat> {
    match kind
    case MemoryResource => {0, 1, 2, 3}
    case DeviceResource => {0, 1, 2}
    case StorageResource => {0, 1, 2, 3}
    case NotificationResource => {0, 1}
    case ChannelResource => {0, 1}
  }

  predicate ResourceOk(r: ResourceRecord) {
    && r.maximum != 0 && r.minimum <= r.maximum && r.maximumRights != {} && r.maximumRights <= KnownRights(r.kind)
    && r.requiredRights <= r.maximumRights && (r.required ==> r.minimum != 0)
  }

  datatype Call =
    | CallArtifact(id: u32, shared: bool, digest: seq<byte>, namespace: Name)
    | CallLifecycle(id: u32, lifecycle: Lifecycle)
    | CallRoot(id: u32)
    | CallDependency(dependency: G.Dependency)
    | CallExport(exported: ExportRecord)
    | CallImport(imported: ImportRecord)
    | CallResource(resource: ResourceRecord)
    | CallBinding(binding: BindingRecord)

  // ------------------------------------------------------------------------ calls

  /** Neither the identifier nor the namespace is taken. */
  ghost predicate NewArtifact(s: Storage, id: u32, namespace: Name) {
    forall a :: a in s.artifacts ==> a.id != id && a.namespace != namespace
  }

  /** The artifact is there without a lifecycle, and the names it is given are valid. */
  ghost predicate Settable(s: Storage, id: u32, lifecycle: Lifecycle) {
    && id != 0 && !lifecycle.Unset? && (exists a :: a in s.artifacts && a.id == id && a.lifecycle.Unset?)
    && (lifecycle.Symbols? ==> NameOk(lifecycle.init) && NameOk(lifecycle.quiesce) && NameOk(lifecycle.cleanup))
  }

  ghost predicate Markable(s: Storage, id: u32) {
    id != 0 && exists a :: a in s.artifacts && a.id == id && !a.shared && !a.root
  }

  /** The builder accepts the call when there is memory. */
  ghost predicate Accepts(s: Storage, call: Call) {
    match call
    case CallArtifact(id, shared, digest, namespace) =>
      && id != 0 && |digest| == DIGEST_SIZE && !Zero(digest) && NameOk(namespace)
      && NewArtifact(s, id, namespace) && |s.artifacts| < MAX_ARTIFACTS
    case CallLifecycle(id, lifecycle) => Settable(s, id, lifecycle)
    case CallRoot(id) => Markable(s, id)
    case CallDependency(d) =>
      && d.consumer != 0 && d.provider != 0 && d.consumer != d.provider && d !in s.dependencies
      && |s.dependencies| < G.MAX_DEPENDENCIES
    case CallExport(e) =>
      && e.node != 0 && NameOk(e.symbol) && (forall x :: x in s.exports ==> !SameExport(x, e)) && |s.exports| < MAX_SYMBOLS
    case CallImport(r) =>
      && r.consumer != 0 && NameOk(r.consumerSymbol) && NameOk(r.providerSymbol)
      && (forall x :: x in s.imports ==> !SameImport(x, r)) && |s.imports| < MAX_SYMBOLS
    case CallResource(r) =>
      && r.slot != 0 && |r.schema| == DIGEST_SIZE && !Zero(r.schema) && ResourceOk(r)
      && !S.HasSlot(s.resources, r.slot) && |s.resources| < MAX_RESOURCES
    case CallBinding(b) => b.slot != 0 && b.node != 0 && b !in s.bindings && |s.bindings| < MAX_BINDINGS
  }

  /** The artifacts with the lifecycle of one set. */
  function WithLifecycle(artifacts: seq<ArtifactRecord>, id: u32, lifecycle: Lifecycle): (r: seq<ArtifactRecord>)
    ensures |r| == |artifacts|
  {
    seq(|artifacts|, i requires 0 <= i < |artifacts| =>
      if artifacts[i].id == id then artifacts[i].(lifecycle := lifecycle) else artifacts[i])
  }

  /** The artifacts with one marked as a root. */
  function WithRoot(artifacts: seq<ArtifactRecord>, id: u32): (r: seq<ArtifactRecord>)
    ensures |r| == |artifacts|
  {
    seq(|artifacts|, i requires 0 <= i < |artifacts| =>
      if artifacts[i].id == id then artifacts[i].(root := true) else artifacts[i])
  }

  /** What an accepted call leaves. */
  function Apply(s: Storage, call: Call): Storage {
    match call
    case CallArtifact(id, shared, digest, namespace) =>
      s.(artifacts := s.artifacts + [ArtifactRecord(id, shared, digest, namespace, Unset, false)])
    case CallLifecycle(id, lifecycle) => s.(artifacts := WithLifecycle(s.artifacts, id, lifecycle))
    case CallRoot(id) => s.(artifacts := WithRoot(s.artifacts, id))
    case CallDependency(d) => s.(dependencies := s.dependencies + [d])
    case CallExport(e) => s.(exports := s.exports + [e])
    case CallImport(r) => s.(imports := s.imports + [r])
    case CallResource(r) => s.(resources := s.resources + [r])
    case CallBinding(b) => s.(bindings := s.bindings + [b])
  }

  function Empty(digest: seq<byte>): Storage {
    Storage(digest, [], [], [], [], [], [])
  }

  /** What a builder holds after the calls. */
  function Run(digest: seq<byte>, calls: seq<Call>): Storage {
    if calls == [] then Empty(digest) else Apply(Run(digest, calls[..|calls| - 1]), calls[|calls| - 1])
  }

  /** Every call was accepted when it was made. */
  ghost predicate AllAccepted(digest: seq<byte>, calls: seq<Call>) {
    forall i :: 0 <= i < |calls| ==> Accepts(Run(digest, calls[..i]), calls[i])
  }

  /** The tables stay within their limits. */
  predicate Limited(s: Storage) {
    && |s.artifacts| <= MAX_ARTIFACTS && |s.dependencies| <= G.MAX_DEPENDENCIES && |s.exports| <= MAX_SYMBOLS
    && |s.imports| <= MAX_SYMBOLS && |s.resources| <= MAX_RESOURCES && |s.bindings| <= MAX_BINDINGS
  }

  ghost predicate ArtifactWell(a: ArtifactRecord) {
    && a.id > 0 && |a.digest| == 32 && (exists k :: 0 <= k < 32 && a.digest[k] != 0) && NameOk(a.namespace)
    && (a.root ==> !a.shared)
    && (a.lifecycle.Symbols? ==> NameOk(a.lifecycle.init) && NameOk(a.lifecycle.quiesce) && NameOk(a.lifecycle.cleanup))
  }

  ghost predicate ResourceWell(r: ResourceRecord) {
    && r.slot > 0 && |r.schema| == 32 && (exists k :: 0 <= k < 32 && r.schema[k] != 0)
    && r.minimum <= r.maximum && 0 < r.maximum && (r.required ==> 0 < r.minimum)
    && r.requiredRights <= r.maximumRights <= KnownRights(r.kind) && r.maximumRights != {}
  }

  /** What every record of a builder keeps to: identifiers that are not zero, valid names, namespaces used once, digests that
      are not zero, only modules as roots, no node that depends on itself, bounds and rights in order. */
  ghost predicate WellFormed(s: Storage) {
    && (forall a :: a in s.artifacts ==> ArtifactWell(a))
    && (forall i, j :: 0 <= i < j < |s.artifacts| ==> s.artifacts[i].namespace != s.artifacts[j].namespace)
    && (forall d :: d in s.dependencies ==> d.consumer > 0 && d.provider > 0 && d.consumer != d.provider)
    && (forall e :: e in s.exports ==> e.node > 0 && NameOk(e.symbol))
    && (forall r :: r in s.imports ==> r.consumer > 0 && NameOk(r.consumerSymbol) && NameOk(r.providerSymbol))
    && (forall r :: r in s.resources ==> ResourceWell(r))
    && (forall b :: b in s.bindings ==> b.slot > 0 && b.node > 0)
  }

  lemma ApplyKeepsWell(s: Storage, call: Call)
    requires Unique(s) && WellFormed(s) && Accepts(s, call)
    ensures WellFormed(Apply(s, call))
  {
    hide NameOk, KnownRights;
    var t := Apply(s, call);
    forall a | a in t.artifacts ensures ArtifactWell(a) {
      var i :| 0 <= i < |t.artifacts| && t.artifacts[i] == a;
      if i < |s.artifacts| { OldArtifact(s, call, i); }
    }
    forall i, j | 0 <= i < j < |t.artifacts| ensures t.artifacts[i].namespace != t.artifacts[j].namespace {
      if call.CallArtifact? && j == |s.artifacts| { assert s.artifacts[i] in s.artifacts; }
    }
  }

  lemma OldArtifact(s: Storage, call: Call, i: nat)
    requires Unique(s) && WellFormed(s) && Accepts(s, call) && i < |s.artifacts|
    ensures ArtifactWell(Apply(s, call).artifacts[i])
  {
    hide NameOk;
    assert s.artifacts[i] in s.artifacts;
    if call.CallRoot? && s.artifacts[i].id == call.id {
      var a :| a in s.artifacts && a.id == call.id && !a.shared && !a.root;
      var j :| 0 <= j < |s.artifacts| && s.artifacts[j] == a;
      assert i == j;
    }
  }

  /** Distinct keys, well-formed records, and tables within their limits. */
  ghost predicate Orderly(s: Storage) {
    Unique(s) && WellFormed(s) && Limited(s)
  }

  /** The calls that add a record. */
  predicate Adds(call: Call) {
    !call.CallLifecycle? && !call.CallRoot?
  }

  lemma DigestWell(d: seq<byte>)
    ensures |d| == 32 ==> (!Zero(d) <==> exists k :: 0 <= k < 32 && d[k] != 0)
  {
  }

  lemma AcceptedIsInOrder(s: Storage, call: Call)
    requires Orderly(s) && Accepts(s, call)
    ensures Orderly(Apply(s, call))
  {
    hide Accepts, Apply, WellFormed, Unique, Limited;
    ApplyKeeps(s, call);
    ApplyKeepsWell(s, call);
  }

  lemma ArtifactInOrder(s: Storage, call: Call)
    requires call.CallArtifact? && Orderly(Apply(s, call))
    ensures Accepts(s, call)
  {
    hide NameOk, ResourceWell;
    DigestWell(call.digest);
    var t := Apply(s, call);
    assert t.artifacts[|s.artifacts|] in t.artifacts;
    forall a | a in s.artifacts ensures a.id != call.id && a.namespace != call.namespace {
      var i :| 0 <= i < |s.artifacts| && s.artifacts[i] == a;
      assert t.artifacts[i] == a;
    }
  }

  lemma ResourceInOrder(s: Storage, call: Call)
    requires call.CallResource? && Orderly(Apply(s, call))
    ensures Accepts(s, call)
  {
    hide NameOk, ArtifactWell, KnownRights;
    DigestWell(call.resource.schema);
    var t := Apply(s, call);
    assert t.resources[|s.resources|] in t.resources;
    forall r | r in s.resources ensures r.slot != call.resource.slot {
      var i :| 0 <= i < |s.resources| && s.resources[i] == r;
      assert t.resources[i] == r;
    }
  }

  lemma RowInOrder(s: Storage, call: Call)
    requires (call.CallDependency? || call.CallBinding?) && Orderly(Apply(s, call))
    ensures Accepts(s, call)
  {
    hide NameOk, ArtifactWell, ResourceWell;
    var t := Apply(s, call);
    if call.CallDependency? {
      assert t.dependencies[|s.dependencies|] in t.dependencies;
      forall i | 0 <= i < |s.dependencies| ensures s.dependencies[i] != call.dependency {
        assert t.dependencies[i] != t.dependencies[|s.dependencies|];
      }
    } else {
      assert t.bindings[|s.bindings|] in t.bindings;
      forall i | 0 <= i < |s.bindings| ensures s.bindings[i] != call.binding {
        assert t.bindings[i] != t.bindings[|s.bindings|];
      }
    }
  }

  lemma SymbolInOrder(s: Storage, call: Call)
    requires (call.CallExport? || call.CallImport?) && Orderly(Apply(s, call))
    ensures Accepts(s, call)
  {
    hide NameOk, ArtifactWell, ResourceWell;
    var t := Apply(s, call);
    if call.CallExport? {
      assert t.exports[|s.exports|] in t.exports;
      forall x | x in s.exports ensures !SameExport(x, call.exported) {
        var i :| 0 <= i < |s.exports| && s.exports[i] == x;
        assert t.exports[i] == x;
      }
    } else {
      assert t.imports[|s.imports|] in t.imports;
      forall x | x in s.imports ensures !SameImport(x, call.imported) {
        var i :| 0 <= i < |s.imports| && s.imports[i] == x;
        assert t.imports[i] == x;
      }
    }
  }

  /** A builder accepts a record exactly when its tables stay in order with it. */
  lemma AddsExactly(s: Storage, call: Call)
    requires Orderly(s) && Adds(call)
    ensures Accepts(s, call) <==> Orderly(Apply(s, call))
  {
    hide Accepts, Apply, Orderly;
    if Accepts(s, call) { AcceptedIsInOrder(s, call); }
    if Orderly(Apply(s, call)) {
      match call
      case CallArtifact(_, _, _, _) => ArtifactInOrder(s, call);
      case CallResource(_) => ResourceInOrder(s, call);
      case CallDependency(_) => RowInOrder(s, call);
      case CallBinding(_) => RowInOrder(s, call);
      case _ => SymbolInOrder(s, call);
    }
  }

  /** It marks a root exactly when that changes something and the tables stay in order. */
  lemma MarksExactly(s: Storage, id: u32)
    requires Orderly(s)
    ensures Accepts(s, CallRoot(id)) <==> Apply(s, CallRoot(id)) != s && Orderly(Apply(s, CallRoot(id)))
  {
    hide NameOk, ResourceWell;
    var call := CallRoot(id);
    var t := Apply(s, call);
    if Accepts(s, call) {
      AcceptedIsInOrder(s, call);
      var a :| a in s.artifacts && a.id == id && !a.shared && !a.root;
      var i :| 0 <= i < |s.artifacts| && s.artifacts[i] == a;
      assert t.artifacts[i].root;
    }
    if t != s {
      assert t.artifacts != s.artifacts;
      var i :| 0 <= i < |s.artifacts| && t.artifacts[i] != s.artifacts[i];
      assert s.artifacts[i] in s.artifacts && t.artifacts[i] in t.artifacts;
    }
  }

  /** Whatever sequence of calls was accepted, every record a builder holds is well formed. */
  lemma {:induction false} BuiltIsWellFormed(digest: seq<byte>, calls: seq<Call>)
    requires AllAccepted(digest, calls)
    ensures WellFormed(Run(digest, calls))
    decreases |calls|
  {
    hide Accepts, Apply, WellFormed, ArtifactsSaid, RowsSaid;
    if calls == [] {
      EmptyIsWell(digest);
    } else {
      var front, last := calls[..|calls| - 1], calls[|calls| - 1];
      forall i | 0 <= i < |front| ensures Accepts(Run(digest, front[..i]), front[i]) { assert front[..i] == calls[..i]; }
      RunSaid(digest, front);
      BuiltIsWellFormed(digest, front);
      ApplyKeepsWell(Run(digest, front), last);
    }
  }

  lemma EmptyIsWell(digest: seq<byte>)
    ensures WellFormed(Empty(digest))
  {
  }

  lemma ApplyKeeps(s: Storage, call: Call)
    requires Unique(s) && Limited(s) && Accepts(s, call)
    ensures Unique(Apply(s, call)) && Limited(Apply(s, call))
  {
    hide NameOk, Zero, ResourceOk;
  }

  // -------------------------------------------------------- records and calls

  /** The call that added this artifact. */
  function Added(a: ArtifactRecord): Call {
    CallArtifact(a.id, a.shared, a.digest, a.namespace)
  }

  /** The artifact is exactly what the calls say. */
  ghost predicate Said(a: ArtifactRecord, calls: seq<Call>) {
    && Added(a) in calls && (a.root <==> CallRoot(a.id) in calls)
    && (if a.lifecycle.Unset? then forall l :: CallLifecycle(a.id, l) !in calls else CallLifecycle(a.id, a.lifecycle) in calls)
  }

  ghost predicate ArtifactFor(s: Storage, call: Call) {
    match call
    case CallArtifact(_, _, _, _) => exists a :: a in s.artifacts && Added(a) == call
    case CallLifecycle(id, l) => exists a :: a in s.artifacts && a.id == id && a.lifecycle == l && !l.Unset?
    case CallRoot(id) => exists a :: a in s.artifacts && a.id == id
    case _ => true
  }

  ghost predicate ArtifactsSaid(s: Storage, calls: seq<Call>) {
    && (forall a :: a in s.artifacts ==> Said(a, calls))
    && (forall call :: call in calls ==> ArtifactFor(s, call))
  }

  ghost predicate RowsSaid(s: Storage, calls: seq<Call>) {
    && (forall d :: d in s.dependencies <==> CallDependency(d) in calls) && (forall e :: e in s.exports <==> CallExport(e) in calls)
    && (forall r :: r in s.imports <==> CallImport(r) in calls) && (forall r :: r in s.resources <==> CallResource(r) in calls)
    && (forall b :: b in s.bindings <==> CallBinding(b) in calls)
  }

  lemma RowsStep(s: Storage, calls: seq<Call>, call: Call)
    requires RowsSaid(s, calls)
    ensures RowsSaid(Apply(s, call), calls + [call])
  {
  }

  lemma ArtifactAdded(s: Storage, calls: seq<Call>, call: Call)
    requires ArtifactsSaid(s, calls) && Accepts(s, call) && call.CallArtifact?
    ensures ArtifactsSaid(Apply(s, call), calls + [call])
  {
    hide NameOk, Zero;
    var t, more := Apply(s, call), calls + [call];
    var added := ArtifactRecord(call.id, call.shared, call.digest, call.namespace, Unset, false);
    assert t.artifacts == s.artifacts + [added];
    forall a | a in t.artifacts ensures Said(a, more) {
      if a in s.artifacts {
        assert Said(a, calls);
      } else {
        assert CallRoot(call.id) in calls ==> ArtifactFor(s, CallRoot(call.id));
        forall l ensures CallLifecycle(call.id, l) !in more {
          assert CallLifecycle(call.id, l) in calls ==> ArtifactFor(s, CallLifecycle(call.id, l));
        }
      }
    }
    forall c | c in more ensures ArtifactFor(t, c) {
      if c == call { assert added in t.artifacts && Added(added) == call; } else { assert ArtifactFor(s, c); }
    }
  }

  lemma LifecycleAdded(s: Storage, calls: seq<Call>, call: Call)
    requires Unique(s) && ArtifactsSaid(s, calls) && Accepts(s, call) && call.CallLifecycle?
    ensures ArtifactsSaid(Apply(s, call), calls + [call])
  {
    hide NameOk;
    var t, more := Apply(s, call), calls + [call];
    var given :| given in s.artifacts && given.id == call.id && given.lifecycle.Unset?;
    forall i | 0 <= i < |t.artifacts| ensures Said(t.artifacts[i], more) {
      assert Said(s.artifacts[i], calls);
      if s.artifacts[i].id == call.id { SameId(s, i, given); }
    }
    forall c | c in more ensures ArtifactFor(t, c) {
      if c == call {
        var i :| 0 <= i < |s.artifacts| && s.artifacts[i] == given;
        assert t.artifacts[i] in t.artifacts;
      } else {
        assert ArtifactFor(s, c);
        Carried(s, calls, t, call, c);
      }
    }
  }

  lemma SameId(s: Storage, i: nat, a: ArtifactRecord)
    requires Unique(s) && i < |s.artifacts| && a in s.artifacts && s.artifacts[i].id == a.id
    ensures s.artifacts[i] == a
  {
    var j :| 0 <= j < |s.artifacts| && s.artifacts[j] == a;
  }

  /** An artifact an earlier call is about is still there after a lifecycle or a root was set. */
  lemma Carried(s: Storage, calls: seq<Call>, t: Storage, call: Call, c: Call)
    requires Unique(s) && ArtifactsSaid(s, calls) && Accepts(s, call) && (call.CallLifecycle? || call.CallRoot?)
    requires t == Apply(s, call) && c in calls && ArtifactFor(s, c)
    ensures ArtifactFor(t, c)
  {
    hide NameOk;
    forall a | a in s.artifacts ensures exists b :: b in t.artifacts && b == Updated(a, call) {
      var i :| 0 <= i < |s.artifacts| && s.artifacts[i] == a;
      assert t.artifacts[i] in t.artifacts && t.artifacts[i] == Updated(a, call);
    }
  }

  function Updated(a: ArtifactRecord, call: Call): ArtifactRecord {
    match call
    case CallLifecycle(id, l) => if a.id == id then a.(lifecycle := l) else a
    case CallRoot(id) => if a.id == id then a.(root := true) else a
    case _ => a
  }

  lemma RootAdded(s: Storage, calls: seq<Call>, call: Call)
    requires Unique(s) && ArtifactsSaid(s, calls) && Accepts(s, call) && call.CallRoot?
    ensures ArtifactsSaid(Apply(s, call), calls + [call])
  {
    var t, more := Apply(s, call), calls + [call];
    forall i | 0 <= i < |t.artifacts| ensures Said(t.artifacts[i], more) { assert Said(s.artifacts[i], calls); }
    forall c | c in more ensures ArtifactFor(t, c) {
      if c == call {
        var given :| given in s.artifacts && given.id == call.id && !given.shared && !given.root;
        var i :| 0 <= i < |s.artifacts| && s.artifacts[i] == given;
        assert t.artifacts[i] in t.artifacts;
      } else {
        assert ArtifactFor(s, c);
        Carried(s, calls, t, call, c);
      }
    }
  }

  lemma ArtifactsStep(s: Storage, calls: seq<Call>, call: Call)
    requires Unique(s) && ArtifactsSaid(s, calls) && Accepts(s, call)
    ensures ArtifactsSaid(Apply(s, call), calls + [call])
  {
    hide Unique;
    if call.CallArtifact? {
      ArtifactAdded(s, calls, call);
    } else if call.CallLifecycle? {
      LifecycleAdded(s, calls, call);
    } else if call.CallRoot? {
      RootAdded(s, calls, call);
    } else {
      forall a | a in s.artifacts ensures Said(a, calls + [call]) { assert Said(a, calls); }
      forall c | c in calls + [call] ensures ArtifactFor(Apply(s, call), c) { if c in calls { assert ArtifactFor(s, c); } }
    }
  }

  /** In every history of accepted calls the tables hold no duplicates, and exactly what the calls say. */
  lemma {:induction false} RunSaid(digest: seq<byte>, calls: seq<Call>)
    requires AllAccepted(digest, calls)
    ensures var s := Run(digest, calls);
            Unique(s) && Limited(s) && ArtifactsSaid(s, calls) && RowsSaid(s, calls) && s.digest == digest
    decreases |calls|
  {
    hide Accepts, Apply, Said, ArtifactFor;
    if calls != [] {
      var front, last := calls[..|calls| - 1], calls[|calls| - 1];
      forall i | 0 <= i < |front| ensures Accepts(Run(digest, front[..i]), front[i]) { assert front[..i] == calls[..i]; }
      RunSaid(digest, front);
      var s := Run(digest, front);
      assert Accepts(s, last) && front + [last] == calls;
      ApplyKeeps(s, last);
      ArtifactsStep(s, front, last);
      RowsStep(s, front, last);
      DigestStays(s, last);
    }
  }

  lemma DigestStays(s: Storage, call: Call)
    ensures Apply(s, call).digest == s.digest
  {
  }

  // ------------------------------------------------------------------------ order

  /** The same calls, in any order. */
  ghost predicate SameCalls(cs: seq<Call>, ds: seq<Call>) {
    forall c :: c in cs <==> c in ds
  }

  lemma ArtifactCarries(s: Storage, cs: seq<Call>, t: Storage, ds: seq<Call>, a: ArtifactRecord)
    requires SameCalls(cs, ds) && Unique(t) && ArtifactsSaid(s, cs) && ArtifactsSaid(t, ds) && a in s.artifacts
    ensures a in t.artifacts
  {
    hide Unique;
    assert Said(a, cs) && ArtifactFor(t, Added(a));
    var b :| b in t.artifacts && Added(b) == Added(a);
    assert Said(b, ds);
    if !a.lifecycle.Unset? { LifecycleHere(t, ds, b, a.lifecycle); }
    assert a == b;
  }

  lemma LifecycleHere(t: Storage, ds: seq<Call>, b: ArtifactRecord, l: Lifecycle)
    requires Unique(t) && ArtifactsSaid(t, ds) && b in t.artifacts && CallLifecycle(b.id, l) in ds
    ensures b.lifecycle == l
  {
    hide Unique, Said;
    assert ArtifactFor(t, CallLifecycle(b.id, l));
    var c :| c in t.artifacts && c.id == b.id && c.lifecycle == l;
    var i :| 0 <= i < |t.artifacts| && t.artifacts[i] == c;
    SameId(t, i, b);
  }

  lemma SameCounts<T(!new)>(lt: (T, T) -> bool, s: seq<T>, t: seq<T>)
    requires StrictOrder(lt) && PairwiseOrdered(lt, s) && PairwiseOrdered(lt, t) && forall x :: x in s <==> x in t
    ensures multiset(s) == multiset(t)
  {
    PairwiseKeyed(lt, s);
    PairwiseKeyed(lt, t);
    forall x ensures multiset(s)[x] == multiset(t)[x] {
      assert x in s <==> x in multiset(s);
      assert x in t <==> x in multiset(t);
    }
  }

  lemma SameTables(s: Storage, cs: seq<Call>, t: Storage, ds: seq<Call>)
    requires SameCalls(cs, ds) && Unique(s) && Unique(t) && s.digest == t.digest
    requires ArtifactsSaid(s, cs) && ArtifactsSaid(t, ds) && RowsSaid(s, cs) && RowsSaid(t, ds)
    ensures S.SameRecords(s, t)
  {
    forall a ensures a in s.artifacts <==> a in t.artifacts {
      if a in s.artifacts { ArtifactCarries(s, cs, t, ds, a); }
      if a in t.artifacts { ArtifactCarries(t, ds, s, cs, a); }
    }
    UniqueOrdered(s);
    UniqueOrdered(t);
    ComparatorsStrict();
    hide Unique, ArtifactsSaid, StrictOrder, PairwiseOrdered;
    SameCounts(ArtifactBefore, s.artifacts, t.artifacts);
    SameCounts(DependencyBefore, s.dependencies, t.dependencies);
    SameCounts(ExportBefore, s.exports, t.exports);
    SameCounts(ImportBefore, s.imports, t.imports);
    SameCounts(ResourceBefore, s.resources, t.resources);
    SameCounts(BindingBefore, s.bindings, t.bindings);
  }

  /** Two builders that accepted the same calls, in whatever order, hold the same records. */
  lemma OrderDoesNotMatter(digest: seq<byte>, cs: seq<Call>, ds: seq<Call>)
    requires AllAccepted(digest, cs) && AllAccepted(digest, ds) && SameCalls(cs, ds)
    ensures S.SameRecords(Run(digest, cs), Run(digest, ds))
  {
    hide AllAccepted, SameCalls, Unique, ArtifactsSaid, RowsSaid, Run, S.SameRecords;
    RunSaid(digest, cs);
    RunSaid(digest, ds);
    SameTables(Run(digest, cs), cs, Run(digest, ds), ds);
  }

  /** So sealing them succeeds or fails together, and gives the same closure. */
  lemma SealsAlike(digest: seq<byte>, cs: seq<Call>, ds: seq<Call>, r: Storage, u: Storage)
    requires AllAccepted(digest, cs) && AllAccepted(digest, ds) && SameCalls(cs, ds)
    ensures S.StorageOk(Run(digest, cs)) <==> S.StorageOk(Run(digest, ds))
    ensures S.SealedFrom(Run(digest, cs), r) && S.SealedFrom(Run(digest, ds), u) ==> r == u
  {
    hide AllAccepted, SameCalls, Unique, ArtifactsSaid, RowsSaid, Run, S.SameRecords, S.StorageOk, S.SealedFrom;
    RunSaid(digest, cs);
    RunSaid(digest, ds);
    OrderDoesNotMatter(digest, cs, ds);
    S.SealabilitySame(Run(digest, cs), Run(digest, ds));
    if S.SealedFrom(Run(digest, cs), r) && S.SealedFrom(Run(digest, ds), u) {
      S.SealIsCanonical(Run(digest, cs), Run(digest, ds), r, u);
    }
  }
}
