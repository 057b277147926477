/** The records of a closure manifest, and the rows that hold them. */
module ManifestRecords {
  import opened Bytes
  import opened Fields
  import opened Names
  import opened ManifestLayout

  const DIGEST_SIZE: nat := 32

  datatype ArtifactHead = ArtifactHead(node: u32, kind: u32, flags: u32, size: u64, digest: seq<byte>)
  datatype Artifact = Artifact(head: ArtifactHead, namespace: Name, init: Name, quiesce: Name, cleanup: Name)
  datatype Dependency = Dependency(consumer: u32, provider: u32)
  datatype Symbol = Symbol(node: u32, kind: u32, name: Name)
  datatype Import = Import(consumer: u32, provider: u32, kind: u32, flags: u32, consumerName: Name, providerName: Name)
  datatype Resource = Resource(
    slot: u32, kind: u32, minimum: u32, maximum: u32, requiredRights: u64, maximumRights: u64, flags: u32, schema: seq<byte>)
  datatype Binding = Binding(slot: u32, node: u32)

  predicate IsRoot(flags: u32) {
    flags % 2 == 1
  }

  predicate IsNative(flags: u32) {
    flags / 2 % 2 == 1
  }

  // ------------------------------------------------------------------- references

  /** A range of the string table. */
  datatype Ref = Ref(offset: nat, length: nat)

  predicate Narrow(r: Ref) {
    r.offset < U32 && r.length < U32
  }

  /** The reference stored for a name that is appended at `cursor`. */
  function RefTo(cursor: nat, name: Name): Ref {
    if name == [] then Ref(0, 0) else Ref(cursor, |name|)
  }

  predicate Inside(t: seq<byte>, r: Ref) {
    r.offset <= |t| && r.length <= |t| - r.offset
  }

  function TextAt(t: seq<byte>, r: Ref): Name {
    if Inside(t, r) then t[r.offset..r.offset + r.length] else []
  }

  /** Text that is in the table at the cursor is what the reference reads. */
  lemma RefReads(t: seq<byte>, before: seq<byte>, name: Name)
    requires before + name <= t && |t| < U32
    ensures var r := RefTo(|before|, name); Narrow(r) && Inside(t, r) && TextAt(t, r) == name
  {
    assert name == (before + name)[|before|..];
    assert name == t[|before|..|before| + |name|];
  }

  function Pair(x: nat, y: nat): (s: seq<byte>)
    ensures |s| == 8
  {
    Le(x, 4) + Le(y, 4)
  }

  lemma PairIs(b: seq<byte>, o: nat, x: nat, y: nat)
    requires o + 8 <= |b| && x < U32 && y < U32
    ensures b[o..o + 8] == Pair(x, y) <==> U32At(b, o) == x && U32At(b, o + 4) == y
  {
    hide Le, U32At;
    PartsAt(b, o, 8, Le(x, 4), Le(y, 4));
    FieldIs(b, o, x);
    FieldIs(b, o + 4, y);
  }

  function RefAt(b: seq<byte>, o: nat): (r: Ref)
    requires o + 8 <= |b|
    ensures Narrow(r)
  {
    Ref(U32At(b, o), U32At(b, o + 4))
  }

  function RefBytes(r: Ref): (s: seq<byte>)
    ensures |s| == 8
  {
    Pair(r.offset, r.length)
  }

  lemma RefIs(b: seq<byte>, o: nat, r: Ref)
    requires o + 8 <= |b| && Narrow(r)
    ensures b[o..o + 8] == RefBytes(r) <==> RefAt(b, o) == r
  {
    hide U32At, Pair;
    PairIs(b, o, r.offset, r.length);
  }

  // -------------------------------------------------------------------- artifacts

  datatype ArtifactRefs = ArtifactRefs(namespace: Ref, init: Ref, quiesce: Ref, cleanup: Ref)

  predicate AllNarrow(r: ArtifactRefs) {
    Narrow(r.namespace) && Narrow(r.init) && Narrow(r.quiesce) && Narrow(r.cleanup)
  }

  function HeadBytes(h: ArtifactHead): seq<byte> {
    Pair(h.node, h.kind) + Le(h.flags, 4) + Zeros(4) + Le(h.size, 8) + h.digest
  }

  function RefsBytes(r: ArtifactRefs): (s: seq<byte>)
    ensures |s| == 32
  {
    RefBytes(r.namespace) + RefBytes(r.init) + RefBytes(r.quiesce) + RefBytes(r.cleanup)
  }

  function ArtifactRow(h: ArtifactHead, r: ArtifactRefs): Row {
    HeadBytes(h) + RefsBytes(r) + Zeros(8)
  }

  function HeadAt(row: Row): (h: ArtifactHead)
    requires |row| == 96
  {
    ArtifactHead(U32At(row, 0), U32At(row, 4), U32At(row, 8), U64At(row, 16), row[24..56])
  }

  function RefsAt(row: Row): (r: ArtifactRefs)
    requires |row| == 96
    ensures AllNarrow(r)
  {
    ArtifactRefs(RefAt(row, 56), RefAt(row, 64), RefAt(row, 72), RefAt(row, 80))
  }

  lemma HeadIs(row: Row, h: ArtifactHead)
    requires |row| == 96 && |h.digest| == DIGEST_SIZE
    ensures row[0..56] == HeadBytes(h) <==> HeadAt(row) == h && Zero(row[12..16])
  {
    hide Le, U32At, U64At, Zero, Zeros, Pair;
    var p, f, z, n := Pair(h.node, h.kind), Le(h.flags, 4), Zeros(4), Le(h.size, 8);
    PartsAt(row, 0, 56, p + f + z + n, h.digest);
    PartsAt(row, 0, 24, p + f + z, n);
    PartsAt(row, 0, 16, p + f, z);
    PartsAt(row, 0, 12, p, f);
    PairIs(row, 0, h.node, h.kind);
    FieldIs(row, 8, h.flags);
    FieldIs(row, 16, h.size);
    ZeroIs(row[12..16]);
  }

  lemma RefsAre(row: Row, r: ArtifactRefs)
    requires |row| == 96 && AllNarrow(r)
    ensures row[56..88] == RefsBytes(r) <==> RefsAt(row) == r
  {
    hide RefBytes, RefAt;
    var n, i, q, c := RefBytes(r.namespace), RefBytes(r.init), RefBytes(r.quiesce), RefBytes(r.cleanup);
    PartsAt(row, 56, 32, n + i + q, c);
    PartsAt(row, 56, 24, n + i, q);
    PartsAt(row, 56, 16, n, i);
    RefIs(row, 56, r.namespace);
    RefIs(row, 64, r.init);
    RefIs(row, 72, r.quiesce);
    RefIs(row, 80, r.cleanup);
  }

  lemma HeadLength(h: ArtifactHead)
    requires |h.digest| == DIGEST_SIZE
    ensures |HeadBytes(h)| == 56
  {
    hide Le, Zeros, Pair;
  }

  /** A row is what its fields say, with nothing in the reserved bytes. */
  lemma ArtifactRowIs(row: Row, h: ArtifactHead, r: ArtifactRefs)
    requires |row| == 96 && |h.digest| == DIGEST_SIZE && AllNarrow(r)
    ensures row == ArtifactRow(h, r) <==> HeadAt(row) == h && RefsAt(row) == r && Zero(row[12..16]) && Zero(row[88..96])
  {
    hide HeadBytes, RefsBytes, HeadAt, RefsAt, Zero, Zeros;
    HeadLength(h);
    assert row[0..96] == row;
    PartsAt(row, 0, 96, HeadBytes(h) + RefsBytes(r), Zeros(8));
    PartsAt(row, 0, 88, HeadBytes(h), RefsBytes(r));
    HeadIs(row, h);
    RefsAre(row, r);
    ZeroIs(row[88..96]);
  }

  // -------------------------------------------------------- symbols and imports

  function DependencyRow(d: Dependency): Row {
    Pair(d.consumer, d.provider)
  }

  function DependencyAt(row: Row): Dependency
    requires |row| == 8
  {
    Dependency(U32At(row, 0), U32At(row, 4))
  }

  lemma DependencyRowIs(row: Row, d: Dependency)
    requires |row| == 8
    ensures row == DependencyRow(d) <==> DependencyAt(row) == d
  {
    hide Pair, U32At;
    assert row[0..8] == row;
    PairIs(row, 0, d.consumer, d.provider);
  }

  function BindingRow(b: Binding): Row {
    Pair(b.slot, b.node)
  }

  function BindingAt(row: Row): Binding
    requires |row| == 8
  {
    Binding(U32At(row, 0), U32At(row, 4))
  }

  lemma BindingRowIs(row: Row, b: Binding)
    requires |row| == 8
    ensures row == BindingRow(b) <==> BindingAt(row) == b
  {
    hide Pair, U32At;
    assert row[0..8] == row;
    PairIs(row, 0, b.slot, b.node);
  }

  function SymbolRow(node: u32, kind: u32, r: Ref): (row: Row)
    ensures |row| == 16
  {
    Pair(node, kind) + RefBytes(r)
  }

  lemma SymbolRowIs(row: Row, node: u32, kind: u32, r: Ref)
    requires |row| == 16 && Narrow(r)
    ensures row == SymbolRow(node, kind, r) <==> U32At(row, 0) == node && U32At(row, 4) == kind && RefAt(row, 8) == r
  {
    hide Pair, U32At, RefBytes, RefAt;
    assert row[0..16] == row;
    PartsAt(row, 0, 16, Pair(node, kind), RefBytes(r));
    PairIs(row, 0, node, kind);
    RefIs(row, 8, r);
  }

  function ImportRow(i: Import, consumer: Ref, provider: Ref): (row: Row)
    ensures |row| == 32
  {
    Pair(i.consumer, i.provider) + Pair(i.kind, i.flags) + RefBytes(consumer) + RefBytes(provider)
  }

  /** The import a row holds, with names read from the string table. */
  function ImportAt(row: Row, t: seq<byte>): Import
    requires |row| == 32
  {
    Import(U32At(row, 0), U32At(row, 4), U32At(row, 8), U32At(row, 12), TextAt(t, RefAt(row, 16)), TextAt(t, RefAt(row, 24)))
  }

  predicate SameHead(i: Import, j: Import) {
    i.consumer == j.consumer && i.provider == j.provider && i.kind == j.kind && i.flags == j.flags
  }

  lemma ImportRowIs(row: Row, t: seq<byte>, i: Import, consumer: Ref, provider: Ref)
    requires |row| == 32 && Narrow(consumer) && Narrow(provider)
    ensures row == ImportRow(i, consumer, provider)
            <==> SameHead(ImportAt(row, t), i) && RefAt(row, 16) == consumer && RefAt(row, 24) == provider
  {
    hide Pair, U32At, RefBytes, RefAt, TextAt;
    assert row[0..32] == row;
    var p, q := Pair(i.consumer, i.provider), Pair(i.kind, i.flags);
    PartsAt(row, 0, 32, p + q + RefBytes(consumer), RefBytes(provider));
    PartsAt(row, 0, 24, p + q, RefBytes(consumer));
    PartsAt(row, 0, 16, p, q);
    PairIs(row, 0, i.consumer, i.provider);
    PairIs(row, 8, i.kind, i.flags);
    RefIs(row, 16, consumer);
    RefIs(row, 24, provider);
  }

  // ------------------------------------------------------------------- resources

  function ResourceRow(r: Resource): Row {
    Pair(r.slot, r.kind) + Pair(r.minimum, r.maximum) + Le(r.requiredRights, 8) + Le(r.maximumRights, 8)
    + Le(r.flags, 4) + Zeros(4) + r.schema
  }

  function ResourceAt(row: Row): Resource
    requires |row| == 72
  {
    Resource(U32At(row, 0), U32At(row, 4), U32At(row, 8), U32At(row, 12), U64At(row, 16), U64At(row, 24), U32At(row, 32), row[40..72])
  }

  lemma ResourceLength(r: Resource)
    requires |r.schema| == DIGEST_SIZE
    ensures |ResourceRow(r)| == 72
  {
    hide Le, Zeros, Pair;
  }

  lemma ResourceRowIs(row: Row, r: Resource)
    requires |row| == 72 && |r.schema| == DIGEST_SIZE
    ensures row == ResourceRow(r) <==> ResourceAt(row) == r && Zero(row[36..40])
  {
    hide Le, U32At, U64At, Zero, Zeros, Pair;
    assert row[0..72] == row;
    ResourceParts(row, Pair(r.slot, r.kind), Pair(r.minimum, r.maximum), Le(r.requiredRights, 8), Le(r.maximumRights, 8),
                  Le(r.flags, 4), Zeros(4), r.schema);
    PairIs(row, 0, r.slot, r.kind);
    PairIs(row, 8, r.minimum, r.maximum);
    FieldIs(row, 16, r.requiredRights);
    FieldIs(row, 24, r.maximumRights);
    FieldIs(row, 32, r.flags);
    ZeroIs(row[36..40]);
  }

  lemma ResourceParts(row: Row, a: seq<byte>, b: seq<byte>, c: seq<byte>, d: seq<byte>, e: seq<byte>, f: seq<byte>, g: seq<byte>)
    requires |row| == 72 && |a| == |b| == |c| == |d| == 8 && |e| == |f| == 4 && |g| == 32
    ensures row == a + b + c + d + e + f + g
            <==> && row[0..8] == a && row[8..16] == b && row[16..24] == c && row[24..32] == d && row[32..36] == e
                 && row[36..40] == f && row[40..72] == g
  {
    assert row[0..72] == row;
    PartsAt(row, 0, 72, a + b + c + d + e + f, g);
    PartsAt(row, 0, 40, a + b + c + d + e, f);
    PartsAt(row, 0, 36, a + b + c + d, e);
    PartsAt(row, 0, 32, a + b + c, d);
    PartsAt(row, 0, 24, a + b, c);
    PartsAt(row, 0, 16, a, b);
  }
}
