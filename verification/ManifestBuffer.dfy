/** Writing a closure manifest into the caller's buffer. */
module ManifestBuffer {
  import opened Bytes
  import opened Fields
  import opened Names
  import opened ManifestLayout
  import opened ManifestRecords
  import opened Manifest
  import opened ManifestRoundTrip
  import opened ManifestEncoder

  /** The header, the tables before `t`, and `n` rows of table `t`. */
  ghost function Partial(m: Image, t: nat, n: nat): seq<byte>
    requires |m.tables| == TABLES && t < TABLES && n <= |m.tables[t]|
  {
    Header(Counts(m, TABLES), |m.strings|) + Prefix(m, t) + Join(m.tables[t][..n])
  }

  lemma PartialNext(m: Image, t: nat, n: nat)
    requires |m.tables| == TABLES && t < TABLES && n < |m.tables[t]|
    ensures Partial(m, t, n + 1) == Partial(m, t, n) + m.tables[t][n]
  {
    hide Header, Prefix;
    var rows := m.tables[t][..n + 1];
    assert rows[..n] == m.tables[t][..n];
    Longer(Header(Counts(m, TABLES), |m.strings|) + Prefix(m, t), Join(m.tables[t][..n]), m.tables[t][n]);
  }

  lemma PartialSize(m: Image, t: nat, n: nat)
    requires Shaped(m) && t < TABLES && n <= |m.tables[t]|
    ensures |Partial(m, t, n)| == Offset(Counts(m, TABLES), t) + n * SIZES[t]
  {
    hide Header, Prefix, Join, Offset, Counts;
    HeaderLength(Counts(m, TABLES), |m.strings|);
    PrefixSize(m, t);
    JoinSize(m.tables[t][..n], SIZES[t]);
  }

  /** A finished table is the start of the next. */
  lemma PartialEnd(m: Image, t: nat)
    requires |m.tables| == TABLES && t < TABLES
    ensures var all := Header(Counts(m, TABLES), |m.strings|) + Prefix(m, t + 1);
            Partial(m, t, |m.tables[t]|) == all && (t + 1 < TABLES ==> Partial(m, t + 1, 0) == all)
  {
    hide Header, Join, Counts;
    var h := Header(Counts(m, TABLES), |m.strings|);
    assert m.tables[t][..|m.tables[t]|] == m.tables[t];
    Longer(h, Prefix(m, t), Join(m.tables[t]));
    if t + 1 < TABLES { JoinNone(m.tables[t + 1]); }
  }

  lemma JoinNone(rows: seq<Row>)
    ensures Join(rows[..0]) == []
  {
  }

  ghost function Base(s: Source): nat {
    Offset(Counts(ImageOf(s), TABLES), TABLES)
  }

  /** The encoder has stored `n` rows of table `t`. */
  ghost function Stage(s: Source, t: nat, n: nat, text: seq<byte>, tail: seq<byte>): Progress
    requires t < TABLES && n <= |ImageOf(s).tables[t]|
  {
    Progress(Partial(ImageOf(s), t, n), Base(s), text, |Encoded(s)|, tail)
  }

  /** There is room for row `n` of table `t`, and storing it is the next stage. */
  lemma RowRoom(s: Source, t: nat, n: nat, before: seq<byte>, text: seq<byte>, tail: seq<byte>)
    requires Encodable(s) && t < TABLES && n < |ImageOf(s).tables[t]|
    ensures var g := Stage(s, t, n, before, tail);
            && |g.done| == RowStart(s, t, n) && |g.done| + SIZES[t] <= g.base && g.size == g.base + |Text(s)|
            && Stage(s, t, n + 1, text, tail) == g.(text := text).Row(ImageOf(s).tables[t][n])
  {
    hide Partial, ImageOf, Written, Offset, Counts, Named, Counted, Digests;
    var m := ImageOf(s);
    ShapedImage(s);
    WrittenSize(m);
    StringsOf(s);
    PartialNext(m, t, n);
    PartialSize(m, t, n);
    RowFits(Counts(m, TABLES), t, n, |m.tables[t]|);
    CountsTable(m, t);
    TableFits(Written(m), Counts(m, TABLES), t);
    OffsetsRise(Counts(m, TABLES), t + 1, TABLES);
  }

  lemma CountsTable(m: Image, t: nat)
    requires |m.tables| == TABLES && t < TABLES
    ensures Counts(m, TABLES)[t] == |m.tables[t]|
  {
  }

  lemma RowFits(c: seq<nat>, t: nat, n: nat, count: nat)
    requires t < TABLES && n < count
    ensures n * SIZES[t] + SIZES[t] <= count * SIZES[t]
  {
    assert (n + 1) * SIZES[t] <= count * SIZES[t];
  }

  ghost function RowStart(s: Source, t: nat, n: nat): nat
    requires t < TABLES
  {
    Offset(Counts(ImageOf(s), TABLES), t) + n * SIZES[t]
  }

  // ------------------------------------------------------------------------ tables

  lemma ArtifactRoom(s: Source, i: nat)
    requires i < |s.artifacts|
    ensures |ImageOf(s).tables[0]| == |s.artifacts|
    ensures ImageOf(s).tables[0][i] == ArtifactRow(s.artifacts[i].head, RefsTo(s.artifacts[i], |ArtifactText(s.artifacts, i)|))
    ensures var a := s.artifacts[i];
            && ArtifactText(s.artifacts, i + 1) == ArtifactText(s.artifacts, i) + a.namespace + a.init + a.quiesce + a.cleanup
            && |ArtifactText(s.artifacts, i + 1)| <= |Text(s)|
  {
    TextHolds(s);
    hide ArtifactRow, RefsTo, Text;
    assert ArtifactText(s.artifacts, i + 1) <= Text(s);
  }

  lemma TableCounts(s: Source)
    ensures var m := ImageOf(s);
            && |s.artifacts| == |m.tables[0]| && |s.dependencies| == |m.tables[1]| && |s.exports| == |m.tables[2]|
            && |s.imports| == |m.tables[3]| && |s.resources| == |m.tables[4]| && |s.bindings| == |m.tables[5]|
  {
    hide Text, ArtifactRow, SymbolRow, ImportRow, ResourceRow;
  }

  method ArtifactStep(buffer: array<byte>, s: Source, at: nat, base: nat, cursor: nat, i: nat, ghost tail: seq<byte>)
    returns (next: nat)
    requires Encodable(s) && i < |s.artifacts| == |ImageOf(s).tables[0]| && at == RowStart(s, 0, i) && base == Base(s)
    requires cursor == |ArtifactText(s.artifacts, i)|
    requires Holding(buffer[..], Stage(s, 0, i, ArtifactText(s.artifacts, i), tail))
    modifies buffer
    ensures next == |ArtifactText(s.artifacts, i + 1)|
    ensures Holding(buffer[..], Stage(s, 0, i + 1, ArtifactText(s.artifacts, i + 1), tail))
  {
    hide Holding, ImageOf, ArtifactText, ArtifactRow, RefsTo, Text, RowStart, Partial, Encoded, Base, Counted, Named;
    ghost var text := ArtifactText(s.artifacts, i);
    ArtifactRoom(s, i);
    RowRoom(s, 0, i, text, ArtifactText(s.artifacts, i + 1), tail);
    next := StoreArtifact(buffer, at, base, cursor, s.artifacts[i], Stage(s, 0, i, text, tail));
  }

  method StoreArtifacts(buffer: array<byte>, s: Source, start: nat, base: nat, ghost tail: seq<byte>) returns (cursor: nat)
    requires Encodable(s) && base == Base(s) && start == RowStart(s, 0, 0) && |s.artifacts| == |ImageOf(s).tables[0]|
    requires Holding(buffer[..], Stage(s, 0, 0, [], tail))
    modifies buffer
    ensures cursor == |ExportText(s, 0)|
    ensures Holding(buffer[..], Stage(s, 0, |s.artifacts|, ExportText(s, 0), tail))
  {
    hide Holding, Stage, Encodable, ImageOf, Base, Offset, Counts;
    cursor := 0;
    for index := 0 to |s.artifacts|
      invariant cursor == |ArtifactText(s.artifacts, index)|
      invariant Holding(buffer[..], Stage(s, 0, index, ArtifactText(s.artifacts, index), tail))
    {
      cursor := ArtifactStep(buffer, s, start + index * SIZES[0], base, cursor, index, tail);
    }
  }

  method StoreDependencies(buffer: array<byte>, s: Source, start: nat, ghost text: seq<byte>, ghost tail: seq<byte>)
    requires Encodable(s) && start == RowStart(s, 1, 0) && |s.dependencies| == |ImageOf(s).tables[1]| && |text| <= |Text(s)|
    requires Holding(buffer[..], Stage(s, 1, 0, text, tail))
    modifies buffer
    ensures Holding(buffer[..], Stage(s, 1, |s.dependencies|, text, tail))
  {
    hide Holding, Encodable, ImageOf, Base, Offset, Counts, Partial, Encoded, Text, Pair;
    for index := 0 to |s.dependencies|
      invariant Holding(buffer[..], Stage(s, 1, index, text, tail))
    {
      RowRoom(s, 1, index, text, text, tail);
      DependencyRoom(s, index);
      var d := s.dependencies[index];
      PutRow(buffer, start + index * SIZES[1], Pair(d.consumer, d.provider), Stage(s, 1, index, text, tail));
    }
  }

  lemma DependencyRoom(s: Source, i: nat)
    requires i < |s.dependencies|
    ensures |ImageOf(s).tables[1]| == |s.dependencies|
    ensures ImageOf(s).tables[1][i] == Pair(s.dependencies[i].consumer, s.dependencies[i].provider)
  {
    hide Pair;
  }

  lemma ExportRoom(s: Source, i: nat)
    requires i < |s.exports|
    ensures |ImageOf(s).tables[2]| == |s.exports|
    ensures ImageOf(s).tables[2][i]
            == Pair(s.exports[i].node, s.exports[i].kind) + RefBytes(RefTo(|ExportText(s, i)|, s.exports[i].name))
    ensures ExportText(s, i + 1) == ExportText(s, i) + s.exports[i].name && |ExportText(s, i + 1)| <= |Text(s)|
  {
    TextHolds(s);
    hide Pair, RefBytes, RefTo, Text;
    assert ExportText(s, i + 1) <= Text(s);
  }

  method ExportStep(buffer: array<byte>, s: Source, at: nat, base: nat, cursor: nat, i: nat, ghost tail: seq<byte>)
    returns (next: nat)
    requires Encodable(s) && i < |s.exports| == |ImageOf(s).tables[2]| && at == RowStart(s, 2, i) && base == Base(s)
    requires cursor == |ExportText(s, i)| && Holding(buffer[..], Stage(s, 2, i, ExportText(s, i), tail))
    modifies buffer
    ensures next == |ExportText(s, i + 1)| && Holding(buffer[..], Stage(s, 2, i + 1, ExportText(s, i + 1), tail))
  {
    hide Holding, ImageOf, ExportText, RefBytes, RefTo, Pair, Text, RowStart, Partial, Encoded, Base, Counted, Named;
    ghost var text := ExportText(s, i);
    var e := s.exports[i];
    ExportRoom(s, i);
    RowRoom(s, 2, i, text, ExportText(s, i + 1), tail);
    ghost var g := Stage(s, 2, i, text, tail);
    PutRow(buffer, at, Pair(e.node, e.kind), g);
    next := StoreName(buffer, at + 8, base, cursor, e.name, g.Row(Pair(e.node, e.kind)));
    Longer(g.done, Pair(e.node, e.kind), RefBytes(RefTo(cursor, e.name)));
  }

  method StoreExports(buffer: array<byte>, s: Source, start: nat, base: nat, before: nat, ghost tail: seq<byte>)
    returns (cursor: nat)
    requires Encodable(s) && base == Base(s) && start == RowStart(s, 2, 0) && |s.exports| == |ImageOf(s).tables[2]|
    requires before == |ExportText(s, 0)| && Holding(buffer[..], Stage(s, 2, 0, ExportText(s, 0), tail))
    modifies buffer
    ensures cursor == |ImportText(s, 0)| && Holding(buffer[..], Stage(s, 2, |s.exports|, ImportText(s, 0), tail))
  {
    hide Holding, Stage, Encodable, ImageOf, Base, Offset, Counts, ExportText;
    cursor := before;
    for index := 0 to |s.exports|
      invariant cursor == |ExportText(s, index)| && Holding(buffer[..], Stage(s, 2, index, ExportText(s, index), tail))
    {
      cursor := ExportStep(buffer, s, start + index * SIZES[2], base, cursor, index, tail);
    }
  }

  lemma ImportRoom(s: Source, i: nat)
    requires i < |s.imports|
    ensures |ImageOf(s).tables[3]| == |s.imports|
    ensures ImageOf(s).tables[3][i] == ImportRow(s.imports[i], ConsumerRef(s, i), ProviderRef(s, i))
    ensures ImportText(s, i + 1) == ImportText(s, i) + s.imports[i].consumerName + s.imports[i].providerName
    ensures |ImportText(s, i + 1)| <= |Text(s)|
  {
    TextHolds(s);
    hide ImportRow, ConsumerRef, ProviderRef, Text;
    assert ImportText(s, i + 1) <= Text(s);
  }

  method ImportStep(buffer: array<byte>, s: Source, at: nat, base: nat, cursor: nat, i: nat, ghost tail: seq<byte>)
    returns (next: nat)
    requires Encodable(s) && i < |s.imports| == |ImageOf(s).tables[3]| && at == RowStart(s, 3, i) && base == Base(s)
    requires cursor == |ImportText(s, i)| && Holding(buffer[..], Stage(s, 3, i, ImportText(s, i), tail))
    modifies buffer
    ensures next == |ImportText(s, i + 1)| && Holding(buffer[..], Stage(s, 3, i + 1, ImportText(s, i + 1), tail))
  {
    hide Holding, ImageOf, ImportText, RefBytes, RefTo, Pair, Text, RowStart, Partial, Encoded, Base, Counted, Named;
    ghost var text := ImportText(s, i);
    var e := s.imports[i];
    ImportRoom(s, i);
    RowRoom(s, 3, i, text, ImportText(s, i + 1), tail);
    ghost var g := Stage(s, 3, i, text, tail);
    ghost var p, q := Pair(e.consumer, e.provider), Pair(e.kind, e.flags);
    PutRow(buffer, at, Pair(e.consumer, e.provider), g);
    PutRow(buffer, at + 8, Pair(e.kind, e.flags), g.Row(p));
    ghost var h, c := g.Row(p).Row(q), RefBytes(RefTo(cursor, e.consumerName));
    next := StoreName(buffer, at + 16, base, cursor, e.consumerName, h);
    ghost var d := RefBytes(RefTo(next, e.providerName));
    next := StoreName(buffer, at + 24, base, next, e.providerName, h.Name(e.consumerName).Row(c));
    FourParts(g.done, p, q, c, d);
  }

  lemma FourParts(x: seq<byte>, p: seq<byte>, q: seq<byte>, c: seq<byte>, d: seq<byte>)
    ensures x + p + q + c + d == x + (p + q + c + d)
  {
  }

  method StoreImports(buffer: array<byte>, s: Source, start: nat, base: nat, before: nat, ghost tail: seq<byte>)
    returns (cursor: nat)
    requires Encodable(s) && base == Base(s) && start == RowStart(s, 3, 0) && |s.imports| == |ImageOf(s).tables[3]|
    requires before == |ImportText(s, 0)| && Holding(buffer[..], Stage(s, 3, 0, ImportText(s, 0), tail))
    modifies buffer
    ensures cursor == |Text(s)| && Holding(buffer[..], Stage(s, 3, |s.imports|, Text(s), tail))
  {
    hide Holding, Stage, Encodable, ImageOf, Base, Offset, Counts, ImportText;
    cursor := before;
    for index := 0 to |s.imports|
      invariant cursor == |ImportText(s, index)| && Holding(buffer[..], Stage(s, 3, index, ImportText(s, index), tail))
    {
      cursor := ImportStep(buffer, s, start + index * SIZES[3], base, cursor, index, tail);
    }
  }

  lemma ResourceRoom(s: Source, i: nat)
    requires i < |s.resources|
    ensures |ImageOf(s).tables[4]| == |s.resources| && ImageOf(s).tables[4][i] == ResourceRow(s.resources[i])
  {
    hide ResourceRow;
  }

  method StoreResources(buffer: array<byte>, s: Source, start: nat, ghost text: seq<byte>, ghost tail: seq<byte>)
    requires Encodable(s) && start == RowStart(s, 4, 0) && |s.resources| == |ImageOf(s).tables[4]| && |text| <= |Text(s)|
    requires Holding(buffer[..], Stage(s, 4, 0, text, tail))
    modifies buffer
    ensures Holding(buffer[..], Stage(s, 4, |s.resources|, text, tail))
  {
    hide Holding, ImageOf, Base, Offset, Counts, Partial, Encoded, Text, ResourceRow, Named, Counted, Zero;
    for index := 0 to |s.resources|
      invariant Holding(buffer[..], Stage(s, 4, index, text, tail))
    {
      RowRoom(s, 4, index, text, text, tail);
      ResourceRoom(s, index);
      StoreResource(buffer, start + index * SIZES[4], s.resources[index], Stage(s, 4, index, text, tail));
    }
  }

  lemma BindingRoom(s: Source, i: nat)
    requires i < |s.bindings|
    ensures |ImageOf(s).tables[5]| == |s.bindings|
    ensures ImageOf(s).tables[5][i] == Pair(s.bindings[i].slot, s.bindings[i].node)
  {
    hide Pair;
  }

  method StoreBindings(buffer: array<byte>, s: Source, start: nat, ghost text: seq<byte>, ghost tail: seq<byte>)
    requires Encodable(s) && start == RowStart(s, 5, 0) && |s.bindings| == |ImageOf(s).tables[5]| && |text| <= |Text(s)|
    requires Holding(buffer[..], Stage(s, 5, 0, text, tail))
    modifies buffer
    ensures Holding(buffer[..], Stage(s, 5, |s.bindings|, text, tail))
  {
    hide Holding, Encodable, ImageOf, Base, Offset, Counts, Partial, Encoded, Text, Pair;
    for index := 0 to |s.bindings|
      invariant Holding(buffer[..], Stage(s, 5, index, text, tail))
    {
      RowRoom(s, 5, index, text, text, tail);
      BindingRoom(s, index);
      PutRow(buffer, start + index * SIZES[5], Pair(s.bindings[index].slot, s.bindings[index].node), Stage(s, 5, index, text, tail));
    }
  }

  // ------------------------------------------------------------------------ header

  method StoreWords(buffer: array<byte>, at: nat, xs: seq<nat>, ghost g: Progress)
    requires Holding(buffer[..], g) && at == |g.done| && at + 4 * |xs| <= g.base
    modifies buffer
    ensures Holding(buffer[..], g.Row(Words(xs)))
  {
    hide Holding, Le;
    assert g.Row(Words(xs[..0])) == g;
    for index := 0 to |xs|
      invariant Holding(buffer[..], g.Row(Words(xs[..index])))
    {
      PutRow(buffer, at + 4 * index, Le(xs[index], 4), g.Row(Words(xs[..index])));
      assert xs[..index + 1][..index] == xs[..index];
      Longer(g.done, Words(xs[..index]), Le(xs[index], 4));
    }
    assert xs[..|xs|] == xs;
  }

  method StoreHeader(buffer: array<byte>, counts: seq<nat>, offsets: seq<nat>, size: nat, ghost g: Progress)
    requires |counts| == TABLES && offsets == Offsets(counts, TABLES + 1) && size >= offsets[TABLES]
    requires Holding(buffer[..], g) && g.done == [] && g.base == offsets[TABLES] && HEADER_SIZE <= g.base
    modifies buffer
    ensures Holding(buffer[..], g.Row(Header(counts, size - offsets[TABLES])))
  {
    hide Holding, Le, Words, Zeros, Offsets, Offset;
    var strings := size - offsets[TABLES];
    ghost var r := Le(size, 4);
    assert g.Row(r) == g.(done := r);
    PutRow(buffer, 0, Le(size, 4), g);
    PutRow(buffer, 4, IDENTITY, g.(done := r));
    r := r + IDENTITY;
    PutRow(buffer, 8, SCHEMA, g.(done := r));
    r := r + SCHEMA;
    StoreWords(buffer, 40, counts, g.(done := r));
    r := r + Words(counts);
    StoreWords(buffer, 64, offsets, g.(done := r));
    r := r + Words(offsets);
    PutRow(buffer, 92, Le(strings, 4), g.(done := r));
    r := r + Le(strings, 4);
    Skip(buffer[..], g.(done := r), 32);
    r := r + Zeros(32);
    assert g.(done := r) == g.Row(r);
  }

  // ----------------------------------------------------------------------- encoder

  lemma StageZero(s: Source, text: seq<byte>, tail: seq<byte>)
    ensures Stage(s, 0, 0, text, tail)
            == Progress(Header(Counts(ImageOf(s), TABLES), |Text(s)|), Base(s), text, |Encoded(s)|, tail)
  {
    hide Header, ImageOf, Encoded, Base, Join, Text;
    StringsOf(s);
    JoinNone(ImageOf(s).tables[0]);
  }

  /** Finishing a table is starting the next. */
  lemma StageEnd(s: Source, t: nat, text: seq<byte>, tail: seq<byte>)
    requires t + 1 < TABLES
    ensures Stage(s, t, |ImageOf(s).tables[t]|, text, tail) == Stage(s, t + 1, 0, text, tail)
  {
    hide ImageOf, Encoded, Base, Partial;
    PartialEnd(ImageOf(s), t);
  }

  /** With every table and the whole string table stored, the buffer holds the encoding. */
  lemma StageLast(s: Source, b: seq<byte>, tail: seq<byte>)
    requires Encodable(s) && Holding(b, Stage(s, 5, |ImageOf(s).tables[5]|, Text(s), tail))
    ensures |Encoded(s)| <= |b| && b[..|Encoded(s)|] == Encoded(s) && b[|Encoded(s)|..] == tail
  {
    hide ImageOf, Partial, Header, Prefix, Zero, Offset, Counts, Text, Named, Counted, Digests;
    var m := ImageOf(s);
    ShapedImage(s);
    StringsOf(s);
    WrittenSize(m);
    PartialEnd(m, 5);
    PrefixSize(m, TABLES);
    HeaderLength(Counts(m, TABLES), |m.strings|);
    var base := Base(s);
    assert b[..|Encoded(s)|] == b[..base] + b[base..|Encoded(s)|];
  }

  lemma StageStart(b: seq<byte>, s: Source)
    requires Encodable(s) && |Encoded(s)| <= |b| && b[..|Encoded(s)|] == Zeros(|Encoded(s)|)
    ensures Base(s) >= HEADER_SIZE && Holding(b, Progress([], Base(s), [], |Encoded(s)|, b[|Encoded(s)|..]))
  {
    hide ImageOf, Written, Offset, Counts, Named, Counted, Digests;
    ShapedImage(s);
    WrittenSize(ImageOf(s));
    OffsetsRise(Counts(ImageOf(s), TABLES), 0, TABLES);
    var base := Base(s);
    forall k | 0 <= k < base ensures b[0..base][k] == 0 { assert b[..|Encoded(s)|][k] == 0; }
  }

  method TableOffsets(s: Source) returns (counts: seq<nat>, offsets: seq<nat>)
    ensures counts == Counts(ImageOf(s), TABLES) && offsets == Offsets(counts, TABLES + 1)
  {
    hide ImageOf, Counts;
    CountsOf(s);
    counts := [|s.artifacts|, |s.dependencies|, |s.exports|, |s.imports|, |s.resources|, |s.bindings|];
    assert counts == Counts(ImageOf(s), TABLES);
    offsets := [HEADER_SIZE];
    for index := 0 to TABLES
      invariant offsets == Offsets(counts, index + 1)
    {
      offsets := offsets + [offsets[index] + counts[index] * SIZES[index]];
    }
  }

  /** The six tables in order; the string cursor ends where the string table does. */
  method StoreTables(buffer: array<byte>, s: Source, offsets: seq<nat>, ghost tail: seq<byte>)
    requires Encodable(s) && offsets == Offsets(Counts(ImageOf(s), TABLES), TABLES + 1)
    requires Holding(buffer[..], Stage(s, 0, 0, [], tail))
    modifies buffer
    ensures Holding(buffer[..], Stage(s, 5, |ImageOf(s).tables[5]|, Text(s), tail))
  {
    hide Encodable, Encoded, Holding, ImageOf, Counts, Text, ExportText, ImportText, Offset, Stage, Offsets;
    var base := offsets[TABLES];
    TableCounts(s);
    TextHolds(s);
    EncodedLength(s);
    var cursor := StoreArtifacts(buffer, s, offsets[0], base, tail);
    StageEnd(s, 0, ExportText(s, 0), tail);
    StoreDependencies(buffer, s, offsets[1], ExportText(s, 0), tail);
    StageEnd(s, 1, ExportText(s, 0), tail);
    cursor := StoreExports(buffer, s, offsets[2], base, cursor, tail);
    StageEnd(s, 2, ImportText(s, 0), tail);
    cursor := StoreImports(buffer, s, offsets[3], base, cursor, tail);
    assert base + cursor == |Encoded(s)|;
    StageEnd(s, 3, Text(s), tail);
    StoreResources(buffer, s, offsets[4], Text(s), tail);
    StageEnd(s, 4, Text(s), tail);
    StoreBindings(buffer, s, offsets[5], Text(s), tail);
  }

  /** An encodable source is written in full into a buffer that has room, and nothing else happens to the buffer. */
  method Encode(buffer: array<byte>, s: Source) returns (status: Status, size: nat)
    requires Digests(s)
    modifies buffer
    ensures status.Malformed? <==> !Encodable(s)
    ensures status.BufferTooSmall? <==> Encodable(s) && buffer.Length < |Encoded(s)|
    ensures status.Okay? <==> Encodable(s) && |Encoded(s)| <= buffer.Length
    ensures status.Okay? ==> size == |Encoded(s)| && buffer[..] == Encoded(s) + old(buffer[size..])
    ensures !status.Okay? ==> buffer[..] == old(buffer[..])
  {
    hide Encodable, Encoded, Holding, ImageOf, Counts, Header, Text, Offset, Zeros, Stage;
    var ok;
    ok, size := EncodedSize(s);
    if !ok { return Malformed, 0; }
    if buffer.Length < size { return BufferTooSmall, 0; }
    ghost var tail := buffer[size..];
    EncodedLength(s);
    var counts, offsets := TableOffsets(s);
    var base := offsets[TABLES];
    Clear(buffer, size);
    StageStart(buffer[..], s);
    assert buffer[..][size..] == tail;
    StoreHeader(buffer, counts, offsets, size, Progress([], base, [], size, tail));
    assert [] + Header(counts, size - base) == Header(counts, size - base);
    StageZero(s, [], tail);
    StoreTables(buffer, s, offsets, tail);
    StageLast(s, buffer[..], tail);
    assert buffer[..] == buffer[..][..size] + buffer[..][size..];
    status := Okay;
  }
}
