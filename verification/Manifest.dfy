/** Closure manifests: what a source may hold, how it is encoded, and which byte strings decode. */
module Manifest {
  import opened Bytes
  import opened Fields
  import opened Names
  import opened Partitions
  import opened ManifestLayout
  import opened ManifestRecords

  datatype Source = Source(
    artifacts: seq<Artifact>, dependencies: seq<Dependency>, exports: seq<Symbol>, imports: seq<Import>,
    resources: seq<Resource>, bindings: seq<Binding>)

  /** Digests have their fixed size. */
  ghost predicate Digests(s: Source) {
    && (forall i :: 0 <= i < |s.artifacts| ==> |s.artifacts[i].head.digest| == DIGEST_SIZE)
    && (forall i :: 0 <= i < |s.resources| ==> |s.resources[i].schema| == DIGEST_SIZE)
  }

  // ------------------------------------------------------------------------ rules

  /** Every bit of `x` is set in `y`. */
  predicate Within(x: nat, y: nat) {
    x == 0 || (x % 2 <= y % 2 && Within(x / 2, y / 2))
  }

  predicate LifecycleOk(flags: u32, name: Name) {
    if IsNative(flags) then name == [] else NameOk(name)
  }

  predicate ArtifactOk(a: Artifact) {
    && a.head.node != 0 && a.head.size != 0 && a.head.kind <= 1 && a.head.flags < 4 && NameOk(a.namespace)
    && LifecycleOk(a.head.flags, a.init) && LifecycleOk(a.head.flags, a.quiesce) && LifecycleOk(a.head.flags, a.cleanup)
  }

  predicate DependencyOk(d: Dependency) {
    d.consumer != 0 && d.provider != 0 && d.consumer != d.provider
  }

  predicate SymbolOk(e: Symbol) {
    e.node != 0 && e.kind <= 1 && NameOk(e.name)
  }

  predicate ImportOk(i: Import) {
    && i.consumer != 0 && i.consumer != i.provider && i.kind <= 1 && i.flags <= 1
    && NameOk(i.consumerName) && NameOk(i.providerName)
  }

  predicate ResourceOk(r: Resource) {
    r.slot != 0 && r.minimum <= r.maximum && Within(r.requiredRights, r.maximumRights) && !Zero(r.schema)
  }

  predicate BindingOk(b: Binding) {
    b.slot != 0 && b.node != 0
  }

  function NodeIds(artifacts: seq<Artifact>): (r: seq<nat>)
    ensures |r| == |artifacts| && forall i :: 0 <= i < |r| ==> r[i] == artifacts[i].head.node
  {
    if artifacts == [] then [] else NodeIds(artifacts[..|artifacts| - 1]) + [artifacts[|artifacts| - 1].head.node]
  }

  ghost predicate Known(s: Source, node: u32) {
    node in NodeIds(s.artifacts)
  }

  ghost predicate HasRoot(artifacts: seq<Artifact>) {
    exists i :: 0 <= i < |artifacts| && IsRoot(artifacts[i].head.flags)
  }

  ghost predicate ArtifactsOk(artifacts: seq<Artifact>) {
    && (forall i :: 0 <= i < |artifacts| ==> ArtifactOk(artifacts[i]))
    && Increasing(NodeIds(artifacts)) && HasRoot(artifacts)
  }

  ghost predicate EdgesOk(s: Source) {
    && (forall i :: 0 <= i < |s.dependencies| ==>
            DependencyOk(s.dependencies[i]) && Known(s, s.dependencies[i].consumer) && Known(s, s.dependencies[i].provider))
    && (forall i :: 0 <= i < |s.exports| ==> SymbolOk(s.exports[i]) && Known(s, s.exports[i].node))
    && (forall i :: 0 <= i < |s.imports| ==>
            && ImportOk(s.imports[i]) && Known(s, s.imports[i].consumer)
            && (s.imports[i].provider != 0 ==> Known(s, s.imports[i].provider)))
  }

  ghost predicate ResourcesOk(s: Source) {
    && (forall i :: 0 <= i < |s.resources| ==> ResourceOk(s.resources[i]))
    && (forall i :: 0 <= i < |s.bindings| ==> BindingOk(s.bindings[i]) && Known(s, s.bindings[i].node))
  }

  /** The rules the decoder holds records to. */
  ghost predicate Rules(s: Source) {
    ArtifactsOk(s.artifacts) && EdgesOk(s) && ResourcesOk(s)
  }

  // ---------------------------------------------------------------- string table

  /** The names of the first `n` artifacts, in the order they are appended. */
  function ArtifactText(artifacts: seq<Artifact>, n: nat): seq<byte>
    requires n <= |artifacts|
  {
    if n == 0 then [] else
    var a := artifacts[n - 1];
    ArtifactText(artifacts, n - 1) + a.namespace + a.init + a.quiesce + a.cleanup
  }

  function ExportText(s: Source, n: nat): seq<byte>
    requires n <= |s.exports|
  {
    if n == 0 then ArtifactText(s.artifacts, |s.artifacts|) else ExportText(s, n - 1) + s.exports[n - 1].name
  }

  function ImportText(s: Source, n: nat): seq<byte>
    requires n <= |s.imports|
  {
    if n == 0 then ExportText(s, |s.exports|)
    else ImportText(s, n - 1) + s.imports[n - 1].consumerName + s.imports[n - 1].providerName
  }

  function Text(s: Source): seq<byte> {
    ImportText(s, |s.imports|)
  }

  lemma {:induction false} ArtifactTextGrows(artifacts: seq<Artifact>, m: nat, n: nat)
    requires m <= n <= |artifacts|
    ensures ArtifactText(artifacts, m) <= ArtifactText(artifacts, n)
    decreases n
  {
    if m < n { ArtifactTextGrows(artifacts, m, n - 1); }
  }

  lemma {:induction false} ExportTextGrows(s: Source, m: nat, n: nat)
    requires m <= n <= |s.exports|
    ensures ExportText(s, m) <= ExportText(s, n)
    decreases n
  {
    if m < n { ExportTextGrows(s, m, n - 1); }
  }

  lemma {:induction false} ImportTextGrows(s: Source, m: nat, n: nat)
    requires m <= n <= |s.imports|
    ensures ImportText(s, m) <= ImportText(s, n)
    decreases n
  {
    if m < n { ImportTextGrows(s, m, n - 1); }
  }

  /** What any step has appended is a prefix of the whole string table. */
  lemma TextHolds(s: Source)
    ensures forall n: nat :: n <= |s.artifacts| ==> ArtifactText(s.artifacts, n) <= Text(s)
    ensures forall n: nat :: n <= |s.exports| ==> ExportText(s, n) <= Text(s)
    ensures forall n: nat :: n <= |s.imports| ==> ImportText(s, n) <= Text(s)
  {
    forall n: nat | n <= |s.imports| ensures ImportText(s, n) <= Text(s) { ImportTextGrows(s, n, |s.imports|); }
    assert ImportText(s, 0) <= Text(s);
    forall n: nat | n <= |s.exports| ensures ExportText(s, n) <= Text(s) { ExportTextGrows(s, n, |s.exports|); }
    assert ExportText(s, 0) <= Text(s);
    forall n: nat | n <= |s.artifacts| ensures ArtifactText(s.artifacts, n) <= Text(s) {
      ArtifactTextGrows(s.artifacts, n, |s.artifacts|);
    }
  }

  // ------------------------------------------------------------------------- rows

  function RefsTo(a: Artifact, cursor: nat): ArtifactRefs {
    var c := cursor + |a.namespace|;
    var d := c + |a.init|;
    ArtifactRefs(RefTo(cursor, a.namespace), RefTo(c, a.init), RefTo(d, a.quiesce), RefTo(d + |a.quiesce|, a.cleanup))
  }

  function ArtifactRowOf(s: Source, i: nat): Row
    requires i < |s.artifacts|
  {
    ArtifactRow(s.artifacts[i].head, RefsTo(s.artifacts[i], |ArtifactText(s.artifacts, i)|))
  }

  function ArtifactRows(s: Source, n: nat): (rows: seq<Row>)
    requires n <= |s.artifacts|
    ensures |rows| == n && forall i :: 0 <= i < n ==> rows[i] == ArtifactRowOf(s, i)
  {
    hide ArtifactRowOf;
    if n == 0 then [] else ArtifactRows(s, n - 1) + [ArtifactRowOf(s, n - 1)]
  }

  function DependencyRows(s: Source, n: nat): (rows: seq<Row>)
    requires n <= |s.dependencies|
    ensures |rows| == n && forall i :: 0 <= i < n ==> rows[i] == DependencyRow(s.dependencies[i])
  {
    hide DependencyRow;
    if n == 0 then [] else DependencyRows(s, n - 1) + [DependencyRow(s.dependencies[n - 1])]
  }

  function ExportRow(s: Source, i: nat): Row
    requires i < |s.exports|
  {
    SymbolRow(s.exports[i].node, s.exports[i].kind, RefTo(|ExportText(s, i)|, s.exports[i].name))
  }

  function ExportRows(s: Source, n: nat): (rows: seq<Row>)
    requires n <= |s.exports|
    ensures |rows| == n && forall i :: 0 <= i < n ==> rows[i] == ExportRow(s, i)
  {
    hide ExportRow;
    if n == 0 then [] else ExportRows(s, n - 1) + [ExportRow(s, n - 1)]
  }

  function ConsumerRef(s: Source, i: nat): Ref
    requires i < |s.imports|
  {
    RefTo(|ImportText(s, i)|, s.imports[i].consumerName)
  }

  function ProviderRef(s: Source, i: nat): Ref
    requires i < |s.imports|
  {
    RefTo(|ImportText(s, i)| + |s.imports[i].consumerName|, s.imports[i].providerName)
  }

  function ImportRowOf(s: Source, i: nat): Row
    requires i < |s.imports|
  {
    ImportRow(s.imports[i], ConsumerRef(s, i), ProviderRef(s, i))
  }

  function ImportRows(s: Source, n: nat): (rows: seq<Row>)
    requires n <= |s.imports|
    ensures |rows| == n && forall i :: 0 <= i < n ==> rows[i] == ImportRowOf(s, i)
  {
    hide ImportRowOf;
    if n == 0 then [] else ImportRows(s, n - 1) + [ImportRowOf(s, n - 1)]
  }

  function ResourceRows(s: Source, n: nat): (rows: seq<Row>)
    requires n <= |s.resources|
    ensures |rows| == n && forall i :: 0 <= i < n ==> rows[i] == ResourceRow(s.resources[i])
  {
    hide ResourceRow;
    if n == 0 then [] else ResourceRows(s, n - 1) + [ResourceRow(s.resources[n - 1])]
  }

  function BindingRows(s: Source, n: nat): (rows: seq<Row>)
    requires n <= |s.bindings|
    ensures |rows| == n && forall i :: 0 <= i < n ==> rows[i] == BindingRow(s.bindings[i])
  {
    hide BindingRow;
    if n == 0 then [] else BindingRows(s, n - 1) + [BindingRow(s.bindings[n - 1])]
  }

  function ImageOf(s: Source): (m: Image)
    ensures |m.tables| == TABLES
  {
    hide Text, ArtifactRows, DependencyRows, ExportRows, ImportRows, ResourceRows, BindingRows;
    Image(
      [ArtifactRows(s, |s.artifacts|), DependencyRows(s, |s.dependencies|), ExportRows(s, |s.exports|),
       ImportRows(s, |s.imports|), ResourceRows(s, |s.resources|), BindingRows(s, |s.bindings|)],
      Text(s))
  }

  function Encoded(s: Source): seq<byte> {
    Written(ImageOf(s))
  }

  // --------------------------------------------------------------------- decoding

  /** Fields outside the record: reserved bytes, and references that stay inside the string table. */
  predicate LifecycleRef(flags: u32, r: Ref, t: seq<byte>) {
    if IsNative(flags) then r == Ref(0, 0) else Inside(t, r)
  }

  predicate ArtifactForm(row: Row, t: seq<byte>)
    requires |row| == 96
  {
    var flags, r := HeadAt(row).flags, RefsAt(row);
    && Zero(row[12..16]) && Zero(row[88..96]) && Inside(t, r.namespace)
    && LifecycleRef(flags, r.init, t) && LifecycleRef(flags, r.quiesce, t) && LifecycleRef(flags, r.cleanup, t)
  }

  function ArtifactAt(row: Row, t: seq<byte>): Artifact
    requires |row| == 96
  {
    var r := RefsAt(row);
    Artifact(HeadAt(row), TextAt(t, r.namespace), TextAt(t, r.init), TextAt(t, r.quiesce), TextAt(t, r.cleanup))
  }

  predicate SymbolForm(row: Row, t: seq<byte>)
    requires |row| == 16
  {
    Inside(t, RefAt(row, 8))
  }

  function SymbolAt(row: Row, t: seq<byte>): Symbol
    requires |row| == 16
  {
    Symbol(U32At(row, 0), U32At(row, 4), TextAt(t, RefAt(row, 8)))
  }

  predicate ImportForm(row: Row, t: seq<byte>)
    requires |row| == 32
  {
    Inside(t, RefAt(row, 16)) && Inside(t, RefAt(row, 24))
  }

  predicate ResourceForm(row: Row)
    requires |row| == 72
  {
    Zero(row[36..40])
  }

  function ArtifactsAt(rows: seq<Row>, t: seq<byte>): seq<Artifact>
    requires Sized(rows, 96)
  {
    seq(|rows|, i requires 0 <= i < |rows| => ArtifactAt(rows[i], t))
  }

  function DependenciesAt(rows: seq<Row>): seq<Dependency>
    requires Sized(rows, 8)
  {
    seq(|rows|, i requires 0 <= i < |rows| => DependencyAt(rows[i]))
  }

  function SymbolsAt(rows: seq<Row>, t: seq<byte>): seq<Symbol>
    requires Sized(rows, 16)
  {
    seq(|rows|, i requires 0 <= i < |rows| => SymbolAt(rows[i], t))
  }

  function ImportsAt(rows: seq<Row>, t: seq<byte>): seq<Import>
    requires Sized(rows, 32)
  {
    seq(|rows|, i requires 0 <= i < |rows| => ImportAt(rows[i], t))
  }

  function ResourcesAt(rows: seq<Row>): seq<Resource>
    requires Sized(rows, 72)
  {
    seq(|rows|, i requires 0 <= i < |rows| => ResourceAt(rows[i]))
  }

  function BindingsAt(rows: seq<Row>): seq<Binding>
    requires Sized(rows, 8)
  {
    seq(|rows|, i requires 0 <= i < |rows| => BindingAt(rows[i]))
  }

  ghost function SourceIn(m: Image): (s: Source)
    requires Shaped(m)
  {
    assert Sized(m.tables[0], 96) && Sized(m.tables[1], 8) && Sized(m.tables[2], 16);
    assert Sized(m.tables[3], 32) && Sized(m.tables[4], 72) && Sized(m.tables[5], 8);
    Source(
      ArtifactsAt(m.tables[0], m.strings), DependenciesAt(m.tables[1]), SymbolsAt(m.tables[2], m.strings),
      ImportsAt(m.tables[3], m.strings), ResourcesAt(m.tables[4]), BindingsAt(m.tables[5]))
  }

  ghost predicate Formed(m: Image)
    requires Shaped(m)
  {
    assert Sized(m.tables[0], 96) && Sized(m.tables[2], 16) && Sized(m.tables[3], 32) && Sized(m.tables[4], 72);
    && (forall i :: 0 <= i < |m.tables[0]| ==> ArtifactForm(m.tables[0][i], m.strings))
    && (forall i :: 0 <= i < |m.tables[2]| ==> SymbolForm(m.tables[2][i], m.strings))
    && (forall i :: 0 <= i < |m.tables[3]| ==> ImportForm(m.tables[3][i], m.strings))
    && (forall i :: 0 <= i < |m.tables[4]| ==> ResourceForm(m.tables[4][i]))
  }

  function WordsAt(b: seq<byte>, o: nat, n: nat): (r: seq<nat>)
    requires o + 4 * n <= |b|
    ensures |r| == n && forall i :: 0 <= i < n ==> r[i] == U32At(b, o + 4 * i)
  {
    if n == 0 then [] else WordsAt(b, o, n - 1) + [U32At(b, o + 4 * (n - 1)) as nat]
  }

  function CountsAt(b: seq<byte>): (c: seq<nat>)
    requires |b| >= HEADER_SIZE
    ensures |c| == TABLES
  {
    WordsAt(b, 40, TABLES)
  }

  ghost predicate HeaderOk(b: seq<byte>) {
    && HEADER_SIZE <= |b| < U32 && Fits(b, CountsAt(b)) && Limited(CountsAt(b)) && CountsAt(b)[0] != 0
    && HeaderSays(b, CountsAt(b), |b| - Offset(CountsAt(b), TABLES))
  }

  /** The contents of a byte string whose header is in order. */
  ghost function Contents(b: seq<byte>): (m: Image)
    requires HeaderOk(b)
    ensures Shaped(m)
  {
    ImageAt(b, CountsAt(b))
  }

  /** What the accessors return. */
  ghost function SourceAt(b: seq<byte>): Source
    requires HeaderOk(b)
  {
    SourceIn(Contents(b))
  }

  ghost predicate DecodeOk(b: seq<byte>) {
    HeaderOk(b) && Formed(Contents(b)) && Rules(SourceAt(b))
  }

  // ---------------------------------------------------- records one by one

  lemma ArtifactIn(m: Image, i: nat)
    requires Shaped(m) && i < |m.tables[0]|
    ensures |SourceIn(m).artifacts| == |m.tables[0]| && |m.tables[0][i]| == 96
    ensures SourceIn(m).artifacts[i] == ArtifactAt(m.tables[0][i], m.strings)
    ensures Formed(m) ==> ArtifactForm(m.tables[0][i], m.strings)
  {
    assert Sized(m.tables[0], 96);
    hide ArtifactAt, SymbolAt, ImportAt, DependencyAt, ResourceAt, BindingAt, ArtifactForm, SymbolForm, ImportForm, ResourceForm;
  }

  lemma ExportIn(m: Image, i: nat)
    requires Shaped(m) && i < |m.tables[2]|
    ensures |SourceIn(m).exports| == |m.tables[2]| && |m.tables[2][i]| == 16
    ensures SourceIn(m).exports[i] == SymbolAt(m.tables[2][i], m.strings)
    ensures Formed(m) ==> SymbolForm(m.tables[2][i], m.strings)
  {
    assert Sized(m.tables[2], 16);
    hide ArtifactAt, SymbolAt, ImportAt, DependencyAt, ResourceAt, BindingAt, ArtifactForm, SymbolForm, ImportForm, ResourceForm;
  }

  lemma ImportIn(m: Image, i: nat)
    requires Shaped(m) && i < |m.tables[3]|
    ensures |SourceIn(m).imports| == |m.tables[3]| && |m.tables[3][i]| == 32
    ensures SourceIn(m).imports[i] == ImportAt(m.tables[3][i], m.strings)
    ensures Formed(m) ==> ImportForm(m.tables[3][i], m.strings)
  {
    assert Sized(m.tables[3], 32);
    hide ArtifactAt, SymbolAt, ImportAt, DependencyAt, ResourceAt, BindingAt, ArtifactForm, SymbolForm, ImportForm, ResourceForm;
  }

  lemma LengthsIn(m: Image)
    requires Shaped(m)
    ensures |m.tables| == TABLES && |SourceIn(m).artifacts| == |m.tables[0]| && |SourceIn(m).dependencies| == |m.tables[1]|
    ensures |SourceIn(m).exports| == |m.tables[2]| && |SourceIn(m).imports| == |m.tables[3]|
    ensures |SourceIn(m).resources| == |m.tables[4]| && |SourceIn(m).bindings| == |m.tables[5]|
  {
    hide ArtifactAt, SymbolAt, ImportAt, DependencyAt, ResourceAt, BindingAt;
  }

  lemma DependencyIn(m: Image, i: nat)
    requires Shaped(m) && i < |m.tables[1]|
    ensures |SourceIn(m).dependencies| == |m.tables[1]| && |m.tables[1][i]| == 8
    ensures SourceIn(m).dependencies[i] == DependencyAt(m.tables[1][i])
  {
    assert Sized(m.tables[1], 8);
    hide ArtifactAt, SymbolAt, ImportAt, DependencyAt, ResourceAt, BindingAt, ArtifactForm, SymbolForm, ImportForm, ResourceForm;
  }

  lemma ResourceIn(m: Image, i: nat)
    requires Shaped(m) && i < |m.tables[4]|
    ensures |SourceIn(m).resources| == |m.tables[4]| && |m.tables[4][i]| == 72
    ensures SourceIn(m).resources[i] == ResourceAt(m.tables[4][i])
    ensures Formed(m) ==> ResourceForm(m.tables[4][i])
  {
    assert Sized(m.tables[4], 72);
    hide ArtifactAt, SymbolAt, ImportAt, DependencyAt, ResourceAt, BindingAt, ArtifactForm, SymbolForm, ImportForm, ResourceForm;
  }

  lemma BindingIn(m: Image, i: nat)
    requires Shaped(m) && i < |m.tables[5]|
    ensures |SourceIn(m).bindings| == |m.tables[5]| && |m.tables[5][i]| == 8
    ensures SourceIn(m).bindings[i] == BindingAt(m.tables[5][i])
  {
    assert Sized(m.tables[5], 8);
    hide ArtifactAt, SymbolAt, ImportAt, DependencyAt, ResourceAt, BindingAt, ArtifactForm, SymbolForm, ImportForm, ResourceForm;
  }
}
