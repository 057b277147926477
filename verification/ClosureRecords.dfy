/** The records of a closure and the orders its tables are sorted by. */
module ClosureRecords {
  import opened Bytes
  import opened Names
  import opened ClosureGraph
  import opened Sorting

  const DIGEST_SIZE: nat := 32

  datatype ArtifactRecord = ArtifactRecord(
    id: u32, shared: bool, digest: seq<byte>, namespace: Name,
    lifecycle: Lifecycle, root: bool)

  /** Unset until the builder is told how a node starts and stops. */
  datatype Lifecycle = Unset | Native | Symbols(init: Name, quiesce: Name, cleanup: Name)

  datatype SymbolKind = FunctionSymbol | ObjectSymbol
  datatype ExportRecord = ExportRecord(node: u32, symbol: Name, kind: SymbolKind)
  datatype ImportRecord = ImportRecord(
    consumer: u32, consumerSymbol: Name, provider: u32, providerSymbol: Name, kind: SymbolKind, optional: bool)
  datatype ResourceType = MemoryResource | DeviceResource | StorageResource | NotificationResource | ChannelResource
  datatype ResourceRecord = ResourceRecord(
    slot: u32, kind: ResourceType, schema: seq<byte>, minimum: u32, maximum: u32,
    requiredRights: set<nat>, maximumRights: set<nat>, required: bool, shared: bool, resetRequired: bool)
  datatype BindingRecord = BindingRecord(slot: u32, node: u32)

  datatype Storage = Storage(
    digest: seq<byte>, artifacts: seq<ArtifactRecord>, dependencies: seq<Dependency>, exports: seq<ExportRecord>,
    imports: seq<ImportRecord>, resources: seq<ResourceRecord>, bindings: seq<BindingRecord>)

  // ------------------------------------------------------------- comparators

  /** strcmp on names, which hold no zero byte: lexicographic, a prefix first. */
  predicate NameBefore(a: Name, b: Name)
    decreases |a|
  {
    b != [] && (a == [] || a[0] < b[0] || (a[0] == b[0] && NameBefore(a[1..], b[1..])))
  }

  predicate ArtifactBefore(a: ArtifactRecord, b: ArtifactRecord) {
    a.id < b.id
  }

  predicate DependencyBefore(a: Dependency, b: Dependency) {
    a.consumer < b.consumer || (a.consumer == b.consumer && a.provider < b.provider)
  }

  predicate KindBefore(a: SymbolKind, b: SymbolKind) {
    a.FunctionSymbol? && b.ObjectSymbol?
  }

  predicate ExportBefore(a: ExportRecord, b: ExportRecord) {
    a.node < b.node
    || (a.node == b.node && (NameBefore(a.symbol, b.symbol) || (a.symbol == b.symbol && KindBefore(a.kind, b.kind))))
  }

  predicate ImportBefore(a: ImportRecord, b: ImportRecord) {
    a.consumer < b.consumer
    || (a.consumer == b.consumer
        && (NameBefore(a.consumerSymbol, b.consumerSymbol) || (a.consumerSymbol == b.consumerSymbol && a.provider < b.provider)))
  }

  predicate ResourceBefore(a: ResourceRecord, b: ResourceRecord) {
    a.slot < b.slot
  }

  predicate BindingBefore(a: BindingRecord, b: BindingRecord) {
    a.slot < b.slot || (a.slot == b.slot && a.node < b.node)
  }

  lemma {:induction false} NameOrder(a: Name, b: Name, c: Name)
    ensures !NameBefore(a, a)
    ensures NameBefore(a, b) && NameBefore(b, c) ==> NameBefore(a, c)
    ensures a != b ==> NameBefore(a, b) || NameBefore(b, a)
    decreases |a|
  {
    if a != [] {
      var tailB, tailC := if b == [] then [] else b[1..], if c == [] then [] else c[1..];
      NameOrder(a[1..], tailB, tailC);
      if b != [] && a[0] == b[0] && a[1..] == b[1..] { assert a == [a[0]] + a[1..] == b; }
    }
  }

  /** The names agree up to a position where `a` ends or has the smaller byte. */
  ghost predicate Precedes(a: Name, b: Name) {
    exists k :: 0 <= k <= |a| && SplitsAt(a, b, k)
  }

  ghost predicate SplitsAt(a: Name, b: Name, k: nat)
    requires k <= |a|
  {
    k < |b| && a[..k] == b[..k] && (k == |a| || a[k] < b[k])
  }

  /** The comparison, byte by byte, is dictionary order. */
  lemma {:induction false} NameBeforeMeans(a: Name, b: Name)
    ensures NameBefore(a, b) <==> Precedes(a, b)
    decreases |a|
  {
    if Precedes(a, b) {
      var k :| 0 <= k <= |a| && SplitsAt(a, b, k);
      if k > 0 { assert a[0] == a[..k][0] == b[..k][0] == b[0]; }
    }
    if a != [] && b != [] && a[0] == b[0] {
      NameBeforeMeans(a[1..], b[1..]);
      if Precedes(a[1..], b[1..]) {
        var k :| 0 <= k <= |a[1..]| && SplitsAt(a[1..], b[1..], k);
        assert a[..k + 1] == [a[0]] + a[1..][..k] && b[..k + 1] == [b[0]] + b[1..][..k];
        assert SplitsAt(a, b, k + 1);
      }
      if Precedes(a, b) {
        var k :| 0 <= k <= |a| && SplitsAt(a, b, k);
        assert k > 0 && a[1..][..k - 1] == a[..k][1..] && b[1..][..k - 1] == b[..k][1..];
        assert SplitsAt(a[1..], b[1..], k - 1);
      }
    } else if NameBefore(a, b) {
      assert SplitsAt(a, b, 0);
    }
  }

  lemma NamesOrdered()
    ensures forall a :: !NameBefore(a, a)
    ensures forall a, b, c :: NameBefore(a, b) && NameBefore(b, c) ==> NameBefore(a, c)
    ensures forall a, b :: a != b ==> NameBefore(a, b) || NameBefore(b, a)
  {
    forall a, b, c ensures !NameBefore(a, a) && (NameBefore(a, b) && NameBefore(b, c) ==> NameBefore(a, c))
                           && (a != b ==> NameBefore(a, b) || NameBefore(b, a))
    {
      NameOrder(a, b, c);
    }
  }

  /** Every comparator is a strict order. */
  lemma ComparatorsStrict()
    ensures StrictOrder(ArtifactBefore) && StrictOrder(DependencyBefore) && StrictOrder(ResourceBefore) && StrictOrder(BindingBefore)
    ensures StrictOrder(ExportBefore) && StrictOrder(ImportBefore)
  {
    hide NameBefore;
    NamesOrdered();
  }

  // -------------------------------------------------------------- uniqueness

  /** What the builder's duplicate checks keep. */
  ghost predicate Unique(s: Storage) {
    && (forall i, j :: 0 <= i < j < |s.artifacts| ==> s.artifacts[i].id != s.artifacts[j].id)
    && (forall i, j :: 0 <= i < j < |s.dependencies| ==> s.dependencies[i] != s.dependencies[j])
    && (forall i, j :: 0 <= i < j < |s.exports| ==> !SameExport(s.exports[i], s.exports[j]))
    && (forall i, j :: 0 <= i < j < |s.imports| ==> !SameImport(s.imports[i], s.imports[j]))
    && (forall i, j :: 0 <= i < j < |s.resources| ==> s.resources[i].slot != s.resources[j].slot)
    && (forall i, j :: 0 <= i < j < |s.bindings| ==> s.bindings[i] != s.bindings[j])
  }

  predicate SameExport(a: ExportRecord, b: ExportRecord) {
    a.node == b.node && a.symbol == b.symbol
  }

  predicate SameImport(a: ImportRecord, b: ImportRecord) {
    a.consumer == b.consumer && a.consumerSymbol == b.consumerSymbol
  }

  /** So no two stored records compare equal. */
  lemma UniqueOrdered(s: Storage)
    requires Unique(s)
    ensures PairwiseOrdered(ArtifactBefore, s.artifacts) && PairwiseOrdered(DependencyBefore, s.dependencies)
    ensures PairwiseOrdered(ExportBefore, s.exports) && PairwiseOrdered(ImportBefore, s.imports)
    ensures PairwiseOrdered(ResourceBefore, s.resources) && PairwiseOrdered(BindingBefore, s.bindings)
  {
    hide NameBefore;
    NamesOrdered();
  }
}
