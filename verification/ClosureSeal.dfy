/** Sealing a builder: validate its tables, then copy them in canonical order. */
module ClosureSeal {
  import opened Bytes
  import opened Names
  import opened Sorting
  import NodeMap
  import G = ClosureGraph
  import I = ClosureIds
  import opened ClosureRecords

  datatype Status = Okay | InvalidConfiguration | NoMemory
  datatype Option<T> = None | Some(value: T)

  // ------------------------------------------------------------ specification

  function Node(a: ArtifactRecord): G.Artifact {
    G.Artifact(a.id, a.shared, a.root)
  }

  function Nodes(artifacts: seq<ArtifactRecord>): (r: seq<G.Artifact>)
    ensures |r| == |artifacts| && forall i :: 0 <= i < |r| ==> r[i] == Node(artifacts[i])
  {
    seq(|artifacts|, i requires 0 <= i < |artifacts| => Node(artifacts[i]))
  }

  ghost predicate HasNode(artifacts: seq<ArtifactRecord>, id: u32) {
    exists a :: a in artifacts && a.id == id
  }

  /** The exports a lifecycle names must exist, and only modules are roots. */
  predicate ArtifactOk(exports: seq<ExportRecord>, a: ArtifactRecord) {
    && (a.root ==> !a.shared)
    && match a.lifecycle
       case Unset => false
       case Native => true
       case Symbols(init, quiesce, cleanup) =>
         && ExportRecord(a.id, init, FunctionSymbol) in exports
         && ExportRecord(a.id, quiesce, FunctionSymbol) in exports
         && ExportRecord(a.id, cleanup, FunctionSymbol) in exports
  }

  ghost function SharedOnes(artifacts: seq<ArtifactRecord>): set<ArtifactRecord> {
    set a | a in artifacts && a.shared
  }

  ghost predicate ArtifactsOk(s: Storage) {
    && (forall a :: a in s.artifacts ==> ArtifactOk(s.exports, a))
    && (forall a, b :: a in s.artifacts && b in s.artifacts ==> (a.lifecycle.Native? <==> b.lifecycle.Native?))
    && (exists a :: a in s.artifacts && a.root)
    && ((exists a :: a in s.artifacts && a.lifecycle.Native?) ==> |SharedOnes(s.artifacts)| == 1)
  }

  ghost predicate ImportOk(s: Storage, i: ImportRecord) {
    && HasNode(s.artifacts, i.consumer)
    && (i.provider != 0 ==>
          && HasNode(s.artifacts, i.provider) && G.Dependency(i.consumer, i.provider) in s.dependencies
          && (i.optional || ExportRecord(i.provider, i.providerSymbol, i.kind) in s.exports))
  }

  ghost predicate SymbolsOk(s: Storage) {
    && (forall e :: e in s.exports ==> HasNode(s.artifacts, e.node))
    && (forall i :: i in s.imports ==> ImportOk(s, i))
  }

  ghost predicate HasSlot(resources: seq<ResourceRecord>, slot: u32) {
    exists r :: r in resources && r.slot == slot
  }

  ghost function BoundTo(bindings: seq<BindingRecord>, slot: u32): set<BindingRecord> {
    set b | b in bindings && b.slot == slot
  }

  ghost predicate ResourcesOk(s: Storage) {
    && (forall b :: b in s.bindings ==> HasSlot(s.resources, b.slot) && HasNode(s.artifacts, b.node))
    && (forall r :: r in s.resources ==> |BoundTo(s.bindings, r.slot)| > 0 && (r.shared || |BoundTo(s.bindings, r.slot)| == 1))
  }

  ghost predicate StorageOk(s: Storage) {
    && ArtifactsOk(s) && G.GraphOk(Nodes(s.artifacts), s.dependencies) && SymbolsOk(s) && ResourcesOk(s)
  }

  /** The copy holds the same records, every table as the sorting routine left it. */
  ghost predicate SealedFrom(s: Storage, r: Storage) {
    && r.digest == s.digest
    && SortedFrom(ArtifactBefore, s.artifacts, r.artifacts) && SortedFrom(DependencyBefore, s.dependencies, r.dependencies)
    && SortedFrom(ExportBefore, s.exports, r.exports) && SortedFrom(ImportBefore, s.imports, r.imports)
    && SortedFrom(ResourceBefore, s.resources, r.resources) && SortedFrom(BindingBefore, s.bindings, r.bindings)
  }

  // ------------------------------------------------------------------ scanning

  method HasDependency(ds: seq<G.Dependency>, consumer: u32, provider: u32) returns (found: bool)
    ensures found <==> G.Dependency(consumer, provider) in ds
  {
    for index := 0 to |ds|
      invariant G.Dependency(consumer, provider) !in ds[..index]
    {
      if ds[index].consumer == consumer && ds[index].provider == provider { return true; }
    }
    return false;
  }

  method FindExport(exports: seq<ExportRecord>, node: u32, symbol: Name, kind: SymbolKind) returns (found: bool)
    ensures found <==> ExportRecord(node, symbol, kind) in exports
  {
    for index := 0 to |exports|
      invariant ExportRecord(node, symbol, kind) !in exports[..index]
    {
      var e := exports[index];
      if e.node == node && e.kind == kind && e.symbol == symbol { return true; }
    }
    return false;
  }

  method FindResource(resources: seq<ResourceRecord>, slot: u32) returns (found: bool)
    ensures found <==> HasSlot(resources, slot)
  {
    for index := 0 to |resources|
      invariant forall r :: r in resources[..index] ==> r.slot != slot
    {
      if resources[index].slot == slot {
        assert resources[index] in resources;
        return true;
      }
    }
    assert resources[..|resources|] == resources;
    return false;
  }

  method ValidateArtifact(s: Storage, a: ArtifactRecord) returns (ok: bool)
    ensures ok <==> ArtifactOk(s.exports, a)
  {
    if a.lifecycle.Unset? { return false; }
    if a.lifecycle.Symbols? {
      var init := FindExport(s.exports, a.id, a.lifecycle.init, FunctionSymbol);
      var quiesce := FindExport(s.exports, a.id, a.lifecycle.quiesce, FunctionSymbol);
      var cleanup := FindExport(s.exports, a.id, a.lifecycle.cleanup, FunctionSymbol);
      if !init || !quiesce || !cleanup { return false; }
    }
    return !a.root || !a.shared;
  }

  lemma SharedGrow(artifacts: seq<ArtifactRecord>, i: nat)
    requires i < |artifacts| && forall j, k :: 0 <= j < k < |artifacts| ==> artifacts[j].id != artifacts[k].id
    ensures |SharedOnes(artifacts[..i + 1])| == |SharedOnes(artifacts[..i])| + if artifacts[i].shared then 1 else 0
  {
    var front, next := SharedOnes(artifacts[..i]), SharedOnes(artifacts[..i + 1]);
    assert artifacts[..i + 1] == artifacts[..i] + [artifacts[i]];
    if artifacts[i].shared {
      assert next == front + {artifacts[i]};
      assert artifacts[i] !in front;
    } else {
      assert next == front;
    }
  }

  /** What has been checked of the first `n` artifacts. */
  ghost predicate ArtifactsUpTo(s: Storage, n: nat, roots: nat, providers: nat)
    requires n <= |s.artifacts|
  {
    && (forall i :: 0 <= i < n ==>
          ArtifactOk(s.exports, s.artifacts[i]) && (s.artifacts[i].lifecycle.Native? <==> s.artifacts[0].lifecycle.Native?))
    && (roots > 0 <==> exists i :: 0 <= i < n && s.artifacts[i].root)
    && providers == |SharedOnes(s.artifacts[..n])|
  }

  lemma ArtifactsAll(s: Storage, roots: nat, providers: nat)
    requires |s.artifacts| > 0 && ArtifactsUpTo(s, |s.artifacts|, roots, providers)
    ensures ArtifactsOk(s) <==> roots > 0 && (s.artifacts[0].lifecycle.Native? ==> providers == 1)
  {
    assert s.artifacts[..|s.artifacts|] == s.artifacts;
    assert s.artifacts[0] in s.artifacts;
    if exists i :: 0 <= i < |s.artifacts| && s.artifacts[i].root {
      var i :| 0 <= i < |s.artifacts| && s.artifacts[i].root;
      assert s.artifacts[i] in s.artifacts;
    }
  }

  lemma ArtifactsStep(s: Storage, n: nat, roots: nat, providers: nat)
    requires Unique(s) && n < |s.artifacts| && ArtifactsUpTo(s, n, roots, providers)
    requires ArtifactOk(s.exports, s.artifacts[n]) && (s.artifacts[n].lifecycle.Native? <==> s.artifacts[0].lifecycle.Native?)
    ensures ArtifactsUpTo(s, n + 1, if s.artifacts[n].root then roots + 1 else roots,
                          if s.artifacts[n].shared then providers + 1 else providers)
  {
    hide SharedOnes, ArtifactOk, Unique;
    UniqueIds(s);
    SharedGrow(s.artifacts, n);
  }

  lemma UniqueIds(s: Storage)
    requires Unique(s)
    ensures forall i, j :: 0 <= i < j < |s.artifacts| ==> s.artifacts[i].id != s.artifacts[j].id
  {
  }

  lemma ArtifactMisfit(s: Storage, n: nat)
    requires n < |s.artifacts|
    requires !ArtifactOk(s.exports, s.artifacts[n]) || s.artifacts[n].lifecycle.Native? != s.artifacts[0].lifecycle.Native?
    ensures !ArtifactsOk(s)
  {
    assert s.artifacts[n] in s.artifacts && s.artifacts[0] in s.artifacts;
  }

  method ValidateArtifacts(s: Storage) returns (ok: bool)
    requires Unique(s)
    ensures ok <==> ArtifactsOk(s)
  {
    if |s.artifacts| == 0 { return false; }
    var roots, providers := 0, 0;
    assert SharedOnes(s.artifacts[..0]) == {};
    assert ArtifactsUpTo(s, 0, roots, providers);
    hide Unique, ArtifactsUpTo, ArtifactsOk, ArtifactOk;
    for index := 0 to |s.artifacts|
      invariant ArtifactsUpTo(s, index, roots, providers)
    {
      var a := s.artifacts[index];
      var fits := ValidateArtifact(s, a);
      if !fits || a.lifecycle.Native? != s.artifacts[0].lifecycle.Native? {
        ArtifactMisfit(s, index);
        return false;
      }
      ArtifactsStep(s, index, roots, providers);
      if a.shared { providers := providers + 1; }
      if a.root { roots := roots + 1; }
    }
    ArtifactsAll(s, roots, providers);
    return roots > 0 && (s.artifacts[0].lifecycle.Native? ==> providers == 1);
  }

  lemma NodeKnown(artifacts: seq<ArtifactRecord>, id: u32)
    ensures id in G.Ids(Nodes(artifacts)) <==> HasNode(artifacts, id)
  {
    var ids := G.Ids(Nodes(artifacts));
    if id in ids {
      var i :| 0 <= i < |ids| && ids[i] == id;
      assert artifacts[i] in artifacts;
    }
    if HasNode(artifacts, id) {
      var a :| a in artifacts && a.id == id;
      var i :| 0 <= i < |artifacts| && artifacts[i] == a;
      assert ids[i] == id;
    }
  }

  method KnownNode(s: Storage, table: array<NodeMap.Entry>, id: u32) returns (known: bool)
    requires NodeMap.MapOf(table[..], G.Ids(Nodes(s.artifacts)))
    ensures known <==> HasNode(s.artifacts, id)
  {
    var index;
    known, index := NodeMap.Lookup(table, G.Ids(Nodes(s.artifacts)), id);
    NodeKnown(s.artifacts, id);
  }

  method ValidateImport(s: Storage, table: array<NodeMap.Entry>, i: ImportRecord) returns (ok: bool)
    requires NodeMap.MapOf(table[..], G.Ids(Nodes(s.artifacts)))
    ensures ok <==> ImportOk(s, i)
  {
    var consumer := KnownNode(s, table, i.consumer);
    if !consumer { return false; }
    if i.provider == 0 { return true; }
    var provider := KnownNode(s, table, i.provider);
    var depends := HasDependency(s.dependencies, i.consumer, i.provider);
    if !provider || !depends { return false; }
    var exported := FindExport(s.exports, i.provider, i.providerSymbol, i.kind);
    return exported || i.optional;
  }

  method ValidateSymbols(s: Storage, table: array<NodeMap.Entry>) returns (ok: bool)
    requires NodeMap.MapOf(table[..], G.Ids(Nodes(s.artifacts)))
    ensures ok <==> SymbolsOk(s)
  {
    hide NodeMap.MapOf, ImportOk, HasNode;
    for index := 0 to |s.exports|
      invariant forall e :: e in s.exports[..index] ==> HasNode(s.artifacts, e.node)
    {
      assert s.exports[index] in s.exports;
      var known := KnownNode(s, table, s.exports[index].node);
      if !known { return false; }
    }
    assert s.exports[..|s.exports|] == s.exports;
    for index := 0 to |s.imports|
      invariant forall i :: i in s.imports[..index] ==> ImportOk(s, i)
    {
      assert s.imports[index] in s.imports;
      var fits := ValidateImport(s, table, s.imports[index]);
      if !fits { return false; }
    }
    assert s.imports[..|s.imports|] == s.imports;
    return true;
  }

  lemma BoundGrow(bindings: seq<BindingRecord>, slot: u32, i: nat)
    requires i < |bindings| && forall j, k :: 0 <= j < k < |bindings| ==> bindings[j] != bindings[k]
    ensures |BoundTo(bindings[..i + 1], slot)| == |BoundTo(bindings[..i], slot)| + if bindings[i].slot == slot then 1 else 0
  {
    var front, next := BoundTo(bindings[..i], slot), BoundTo(bindings[..i + 1], slot);
    assert bindings[..i + 1] == bindings[..i] + [bindings[i]];
    if bindings[i].slot == slot {
      assert next == front + {bindings[i]};
      assert bindings[i] !in front;
    } else {
      assert next == front;
    }
  }

  method CountBindings(bindings: seq<BindingRecord>, slot: u32) returns (count: nat)
    requires forall j, k :: 0 <= j < k < |bindings| ==> bindings[j] != bindings[k]
    ensures count == |BoundTo(bindings, slot)|
  {
    count := 0;
    assert BoundTo(bindings[..0], slot) == {};
    for index := 0 to |bindings|
      invariant count == |BoundTo(bindings[..index], slot)|
    {
      BoundGrow(bindings, slot, index);
      if bindings[index].slot == slot { count := count + 1; }
    }
    assert bindings[..|bindings|] == bindings;
  }

  method ValidateResources(s: Storage, table: array<NodeMap.Entry>) returns (ok: bool)
    requires Unique(s) && NodeMap.MapOf(table[..], G.Ids(Nodes(s.artifacts)))
    ensures ok <==> ResourcesOk(s)
  {
    hide NodeMap.MapOf, HasNode, HasSlot, BoundTo;
    for index := 0 to |s.bindings|
      invariant forall b :: b in s.bindings[..index] ==> HasSlot(s.resources, b.slot) && HasNode(s.artifacts, b.node)
    {
      assert s.bindings[index] in s.bindings;
      var slot := FindResource(s.resources, s.bindings[index].slot);
      var node := KnownNode(s, table, s.bindings[index].node);
      if !slot || !node { return false; }
    }
    assert s.bindings[..|s.bindings|] == s.bindings;
    for index := 0 to |s.resources|
      invariant forall r :: r in s.resources[..index] ==>
          |BoundTo(s.bindings, r.slot)| > 0 && (r.shared || |BoundTo(s.bindings, r.slot)| == 1)
    {
      assert s.resources[index] in s.resources;
      var count := CountBindings(s.bindings, s.resources[index].slot);
      if count == 0 || (!s.resources[index].shared && count != 1) { return false; }
    }
    assert s.resources[..|s.resources|] == s.resources;
    return true;
  }

  // --------------------------------------------------------------- the validator

  lemma NodesUnique(s: Storage)
    requires Unique(s)
    ensures G.UniqueIds(Nodes(s.artifacts))
  {
  }

  method ValidateStorage(s: Storage, memory: bool) returns (status: Status)
    requires Unique(s) && |s.dependencies| <= G.MAX_DEPENDENCIES
    ensures status.Okay? ==> memory
    ensures memory ==> status == if StorageOk(s) then Okay else InvalidConfiguration
  {
    NodesUnique(s);
    hide Unique, ArtifactsOk, SymbolsOk, ResourcesOk, G.GraphOk, NodeMap.MapOf;
    var artifacts := ValidateArtifacts(s);
    if !artifacts { return InvalidConfiguration; }
    if !memory { return NoMemory; }
    var table := NodeMap.Build(G.Ids(Nodes(s.artifacts)));
    var graph := G.ValidateGraph(Nodes(s.artifacts), s.dependencies, table, memory);
    if !graph.Okay? { return InvalidConfiguration; }
    var symbols := ValidateSymbols(s, table);
    if !symbols { return InvalidConfiguration; }
    var resources := ValidateResources(s, table);
    return if resources then Okay else InvalidConfiguration;
  }

  method SortTable<T(!new)>(lt: (T, T) -> bool, s: seq<T>) returns (r: seq<T>)
    requires StrictOrder(lt) && PairwiseOrdered(lt, s)
    ensures SortedFrom(lt, s, r)
  {
    SortSorts(lt, s);
    AscendingInOrder(lt, Sort(lt, s));
    return Sort(lt, s);
  }

  /** Copy every table and sort the copies; `memory` says that all of them could be allocated. */
  method Clone(s: Storage, memory: bool) returns (status: Status, copy: Option<Storage>)
    requires Unique(s)
    ensures status == if memory then Okay else NoMemory
    ensures copy.Some? <==> memory
    ensures copy.Some? ==> SealedFrom(s, copy.value)
  {
    if !memory { return NoMemory, None; }
    UniqueOrdered(s);
    ComparatorsStrict();
    hide Unique, PairwiseOrdered, StrictOrder, SortedFrom;
    var artifacts := SortTable(ArtifactBefore, s.artifacts);
    var dependencies := SortTable(DependencyBefore, s.dependencies);
    var exports := SortTable(ExportBefore, s.exports);
    var imports := SortTable(ImportBefore, s.imports);
    var resources := SortTable(ResourceBefore, s.resources);
    var bindings := SortTable(BindingBefore, s.bindings);
    return Okay, Some(Storage(s.digest, artifacts, dependencies, exports, imports, resources, bindings));
  }

  /** kb2_closure_builder_seal. */
  method Seal(s: Storage, memory: bool, room: bool) returns (status: Status, closure: Option<Storage>)
    requires Unique(s) && |s.dependencies| <= G.MAX_DEPENDENCIES
    ensures memory && room ==> (status.Okay? <==> StorageOk(s))
    ensures status.Okay? ==> memory && room && StorageOk(s)
    ensures status.Okay? <==> closure.Some?
    ensures closure.Some? ==> SealedFrom(s, closure.value)
  {
    hide Unique, StorageOk, SealedFrom;
    status := ValidateStorage(s, memory);
    if !status.Okay? { return status, None; }
    status, closure := Clone(s, room);
  }

  // ------------------------------------------------------------------- canonical

  /** The same records in every table, in any order. */
  ghost predicate SameRecords(s: Storage, t: Storage) {
    && s.digest == t.digest
    && multiset(s.artifacts) == multiset(t.artifacts) && multiset(s.dependencies) == multiset(t.dependencies)
    && multiset(s.exports) == multiset(t.exports) && multiset(s.imports) == multiset(t.imports)
    && multiset(s.resources) == multiset(t.resources) && multiset(s.bindings) == multiset(t.bindings)
  }

  lemma SameMembers<T(!new)>(s: seq<T>, t: seq<T>)
    requires multiset(s) == multiset(t)
    ensures forall x :: x in s <==> x in t
  {
    forall x ensures x in s <==> x in t {
      assert x in s <==> x in multiset(s);
      assert x in t <==> x in multiset(t);
    }
  }

  /** The tables hold the same records. */
  ghost predicate SameSets(s: Storage, t: Storage) {
    && (forall x :: x in s.artifacts <==> x in t.artifacts) && (forall x :: x in s.dependencies <==> x in t.dependencies)
    && (forall x :: x in s.exports <==> x in t.exports) && (forall x :: x in s.imports <==> x in t.imports)
    && (forall x :: x in s.resources <==> x in t.resources) && (forall x :: x in s.bindings <==> x in t.bindings)
  }

  lemma RecordsToSets(s: Storage, t: Storage)
    requires SameRecords(s, t)
    ensures SameSets(s, t) && SameSets(t, s)
  {
    SameMembers(s.artifacts, t.artifacts);
    SameMembers(s.dependencies, t.dependencies);
    SameMembers(s.exports, t.exports);
    SameMembers(s.imports, t.imports);
    SameMembers(s.resources, t.resources);
    SameMembers(s.bindings, t.bindings);
  }

  lemma ArtifactsSame(s: Storage, t: Storage)
    requires SameSets(s, t) && ArtifactsOk(s)
    ensures ArtifactsOk(t)
  {
    assert SharedOnes(s.artifacts) == SharedOnes(t.artifacts);
  }

  lemma HasNodeSame(s: Storage, t: Storage, id: u32)
    requires SameSets(s, t)
    ensures HasNode(s.artifacts, id) <==> HasNode(t.artifacts, id)
  {
  }

  lemma SymbolsSame(s: Storage, t: Storage)
    requires SameSets(s, t) && SymbolsOk(s)
    ensures SymbolsOk(t)
  {
    forall id: u32 ensures HasNode(s.artifacts, id) <==> HasNode(t.artifacts, id) { HasNodeSame(s, t, id); }
    hide HasNode;
    forall i | i in t.imports ensures ImportOk(t, i) { assert ImportOk(s, i); }
  }

  lemma ResourcesSame(s: Storage, t: Storage)
    requires SameSets(s, t) && ResourcesOk(s)
    ensures ResourcesOk(t)
  {
    forall id: u32 ensures HasNode(s.artifacts, id) <==> HasNode(t.artifacts, id) { HasNodeSame(s, t, id); }
    forall slot: u32 ensures BoundTo(s.bindings, slot) == BoundTo(t.bindings, slot) {}
    hide HasNode, BoundTo;
  }

  lemma GraphSame(s: Storage, t: Storage)
    requires Unique(s) && Unique(t) && SameSets(s, t) && G.GraphOk(Nodes(s.artifacts), s.dependencies)
    ensures G.GraphOk(Nodes(t.artifacts), t.dependencies)
  {
    NodesUnique(s);
    NodesUnique(t);
    NodesSame(s, t);
    I.GraphById(Nodes(s.artifacts), s.dependencies);
    I.GraphById(Nodes(t.artifacts), t.dependencies);
    hide Unique, G.GraphOk, I.IdGraphOk, Nodes, G.UniqueIds;
    I.IdGraphSame(Nodes(s.artifacts), Nodes(t.artifacts), s.dependencies, t.dependencies);
  }

  lemma NodesSame(s: Storage, t: Storage)
    requires SameSets(s, t)
    ensures forall n :: n in Nodes(s.artifacts) <==> n in Nodes(t.artifacts)
  {
    forall n ensures n in Nodes(s.artifacts) <==> n in Nodes(t.artifacts) {
      NodeListed(s.artifacts, n);
      NodeListed(t.artifacts, n);
    }
  }

  lemma NodeListed(artifacts: seq<ArtifactRecord>, n: G.Artifact)
    ensures n in Nodes(artifacts) <==> exists a :: a in artifacts && Node(a) == n
  {
    if n in Nodes(artifacts) {
      var i :| 0 <= i < |artifacts| && Nodes(artifacts)[i] == n;
      assert artifacts[i] in artifacts && Node(artifacts[i]) == n;
    }
    if exists a :: a in artifacts && Node(a) == n {
      var a :| a in artifacts && Node(a) == n;
      var i :| 0 <= i < |artifacts| && artifacts[i] == a;
      assert Nodes(artifacts)[i] == n;
    }
  }

  /** Whether a builder can be sealed depends only on which records it holds. */
  lemma SealabilitySame(s: Storage, t: Storage)
    requires Unique(s) && Unique(t) && SameRecords(s, t)
    ensures StorageOk(s) <==> StorageOk(t)
  {
    RecordsToSets(s, t);
    hide Unique, SameSets, SameRecords, ArtifactsOk, SymbolsOk, ResourcesOk, G.GraphOk;
    if StorageOk(s) { ArtifactsSame(s, t); GraphSame(s, t); SymbolsSame(s, t); ResourcesSame(s, t); }
    if StorageOk(t) { ArtifactsSame(t, s); GraphSame(t, s); SymbolsSame(t, s); ResourcesSame(t, s); }
  }

  lemma TableSame<T(!new)>(lt: (T, T) -> bool, s: seq<T>, t: seq<T>, r: seq<T>, u: seq<T>)
    requires StrictOrder(lt) && PairwiseOrdered(lt, s) && multiset(s) == multiset(t)
    requires SortedFrom(lt, s, r) && SortedFrom(lt, t, u)
    ensures r == u
  {
    PairwiseKeyed(lt, s);
    SortDetermined(lt, s, t, r, u);
  }

  /** Sealing is canonical: the closure depends only on which records were added, not on their order. */
  lemma SealIsCanonical(s: Storage, t: Storage, r: Storage, u: Storage)
    requires Unique(s) && SameRecords(s, t) && SealedFrom(s, r) && SealedFrom(t, u)
    ensures r == u
  {
    UniqueOrdered(s);
    ComparatorsStrict();
    hide Unique, PairwiseOrdered, StrictOrder, SortedFrom;
    TableSame(ArtifactBefore, s.artifacts, t.artifacts, r.artifacts, u.artifacts);
    TableSame(DependencyBefore, s.dependencies, t.dependencies, r.dependencies, u.dependencies);
    TableSame(ExportBefore, s.exports, t.exports, r.exports, u.exports);
    TableSame(ImportBefore, s.imports, t.imports, r.imports, u.imports);
    TableSame(ResourceBefore, s.resources, t.resources, r.resources, u.resources);
    TableSame(BindingBefore, s.bindings, t.bindings, r.bindings, u.bindings);
  }

  /** Two 32-bit keys as one number. */
  function Pair(high: u32, low: u32): nat {
    high * U32 + low
  }

  /** A key and a name: by key first, then in dictionary order. */
  ghost predicate KeyedBefore(k: u32, a: Name, l: u32, b: Name) {
    k < l || (k == l && Precedes(a, b))
  }

  /** Every table rises strictly: nodes by id, edges by consumer and provider, exports and imports by node and symbol,
      slots by number, bindings by slot and node. */
  ghost predicate Rises(r: Storage) {
    && (forall i, j :: 0 <= i < j < |r.artifacts| ==> r.artifacts[i].id < r.artifacts[j].id)
    && (forall i, j :: 0 <= i < j < |r.dependencies| ==>
          Pair(r.dependencies[i].consumer, r.dependencies[i].provider) < Pair(r.dependencies[j].consumer, r.dependencies[j].provider))
    && (forall i, j :: 0 <= i < j < |r.exports| ==>
          KeyedBefore(r.exports[i].node, r.exports[i].symbol, r.exports[j].node, r.exports[j].symbol))
    && (forall i, j :: 0 <= i < j < |r.imports| ==>
          KeyedBefore(r.imports[i].consumer, r.imports[i].consumerSymbol, r.imports[j].consumer, r.imports[j].consumerSymbol))
    && (forall i, j :: 0 <= i < j < |r.resources| ==> r.resources[i].slot < r.resources[j].slot)
    && (forall i, j :: 0 <= i < j < |r.bindings| ==>
          Pair(r.bindings[i].slot, r.bindings[i].node) < Pair(r.bindings[j].slot, r.bindings[j].node))
  }

  lemma TableAscends<T(!new)>(lt: (T, T) -> bool, s: seq<T>, r: seq<T>)
    requires StrictOrder(lt) && PairwiseOrdered(lt, s) && SortedFrom(lt, s, r)
    ensures Ascending(lt, r)
  {
    hide StrictOrder, PairwiseOrdered;
    PairwiseKeyed(lt, s);
    OrderedAscends(lt, r);
  }

  /** No two exports of a sealed closure have the same node and symbol, and no two imports. */
  lemma SealedUnique(s: Storage, r: Storage)
    requires Unique(s) && SealedFrom(s, r)
    ensures forall i, j :: 0 <= i < j < |r.exports| ==> !SameExport(r.exports[i], r.exports[j])
    ensures forall i, j :: 0 <= i < j < |r.imports| ==> !SameImport(r.imports[i], r.imports[j])
  {
    forall i, j | 0 <= i < j < |r.exports| ensures !SameExport(r.exports[i], r.exports[j]) {
      TwoFrom(s.exports, r.exports, i, j);
    }
    forall i, j | 0 <= i < j < |r.imports| ensures !SameImport(r.imports[i], r.imports[j]) {
      TwoFrom(s.imports, r.imports, i, j);
    }
  }

  /** Two places of a permutation come from two different places. */
  lemma TwoFrom<T>(s: seq<T>, r: seq<T>, i: nat, j: nat)
    requires multiset(r) == multiset(s) && i < j < |r|
    ensures exists k, l :: 0 <= k < |s| && 0 <= l < |s| && k != l && s[k] == r[i] && s[l] == r[j]
  {
    assert r[i] in multiset(s) && r[j] in multiset(s);
    var k :| 0 <= k < |s| && s[k] == r[i];
    var l :| 0 <= l < |s| && s[l] == r[j];
    if k == l {
      CountedTwice(r, i, j);
      l := AnotherPlace(s, k);
    }
  }

  lemma AnotherPlace<T>(s: seq<T>, k: nat) returns (l: nat)
    requires k < |s| && multiset(s)[s[k]] >= 2
    ensures l < |s| && l != k && s[l] == s[k]
  {
    assert s == s[..k] + [s[k]] + s[k + 1..];
    if s[k] in s[..k] {
      l :| 0 <= l < k && s[..k][l] == s[k];
    } else {
      assert s[k] in s[k + 1..];
      var d :| 0 <= d < |s[k + 1..]| && s[k + 1..][d] == s[k];
      l := k + 1 + d;
    }
  }

  /** A sealed closure is in rising order, table by table. */
  lemma SealedRises(s: Storage, r: Storage)
    requires Unique(s) && SealedFrom(s, r)
    ensures Rises(r)
  {
    UniqueOrdered(s);
    ComparatorsStrict();
    SealedUnique(s, r);
    hide Unique, PairwiseOrdered, StrictOrder, SortedFrom, NameBefore, Precedes;
    TableAscends(ArtifactBefore, s.artifacts, r.artifacts);
    TableAscends(DependencyBefore, s.dependencies, r.dependencies);
    TableAscends(ExportBefore, s.exports, r.exports);
    TableAscends(ImportBefore, s.imports, r.imports);
    TableAscends(ResourceBefore, s.resources, r.resources);
    TableAscends(BindingBefore, s.bindings, r.bindings);
    forall a, b ensures NameBefore(a, b) <==> Precedes(a, b) { NameBeforeMeans(a, b); }
  }

  /** Cloning a sealed closure changes nothing. */
  lemma CloneChangesNothing(s: Storage, r: Storage, u: Storage)
    requires Unique(s) && SealedFrom(s, r) && SealedFrom(r, u)
    ensures u == r
  {
    SealIsCanonical(s, r, r, u);
  }
}
