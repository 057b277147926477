/** Encoding a manifest and decoding it again. */
module ManifestRoundTrip {
  import opened Bytes
  import opened Fields
  import opened Names
  import opened Partitions
  import opened ManifestLayout
  import opened ManifestRecords
  import opened Manifest

  /** No table is over its limit, and there is at least one artifact. */
  ghost predicate Counted(s: Source) {
    && 0 < |s.artifacts| <= LIMITS[0] && |s.dependencies| <= LIMITS[1] && |s.exports| <= LIMITS[2]
    && |s.imports| <= LIMITS[3] && |s.resources| <= LIMITS[4] && |s.bindings| <= LIMITS[5]
  }

  /** Every name is valid, or is a lifecycle name a native artifact does without. */
  ghost predicate Named(s: Source) {
    && (forall i :: 0 <= i < |s.artifacts| ==> ArtifactNamed(s.artifacts[i]))
    && (forall i :: 0 <= i < |s.exports| ==> NameOk(s.exports[i].name))
    && (forall i :: 0 <= i < |s.imports| ==> NameOk(s.imports[i].consumerName) && NameOk(s.imports[i].providerName))
  }

  predicate ArtifactNamed(a: Artifact) {
    && NameOk(a.namespace) && LifecycleOk(a.head.flags, a.init) && LifecycleOk(a.head.flags, a.quiesce)
    && LifecycleOk(a.head.flags, a.cleanup)
  }

  /** A source the encoder accepts. */
  ghost predicate Encodable(s: Source) {
    Digests(s) && Counted(s) && Named(s) && forall i :: 0 <= i < |s.resources| ==> !Zero(s.resources[i].schema)
  }

  lemma RulesName(s: Source)
    requires Rules(s)
    ensures Named(s) && forall i :: 0 <= i < |s.resources| ==> !Zero(s.resources[i].schema)
  {
    hide Increasing, HasRoot, NameOk, Known, Within, Zero;
  }

  // ------------------------------------------------------------------------ sizes

  lemma {:induction false} ArtifactTextSize(artifacts: seq<Artifact>, n: nat)
    requires n <= |artifacts| && forall i :: 0 <= i < |artifacts| ==> ArtifactNamed(artifacts[i])
    ensures |ArtifactText(artifacts, n)| <= n * 508
  {
    if n > 0 {
      ArtifactTextSize(artifacts, n - 1);
      assert ArtifactNamed(artifacts[n - 1]);
    }
  }

  lemma {:induction false} ExportTextSize(s: Source, n: nat)
    requires n <= |s.exports| && Named(s)
    ensures |ExportText(s, n)| <= |s.artifacts| * 508 + n * 127
  {
    if n > 0 { ExportTextSize(s, n - 1); } else { ArtifactTextSize(s.artifacts, |s.artifacts|); }
  }

  lemma {:induction false} ImportTextSize(s: Source, n: nat)
    requires n <= |s.imports| && Named(s)
    ensures |ImportText(s, n)| <= |s.artifacts| * 508 + |s.exports| * 127 + n * 254
  {
    if n > 0 { ImportTextSize(s, n - 1); } else { ExportTextSize(s, |s.exports|); }
  }

  /** The string table of an encodable source never outgrows its field. */
  lemma TextSmall(s: Source)
    requires Counted(s) && Named(s)
    ensures |Text(s)| < 0x200_0000
  {
    hide Named;
    ImportTextSize(s, |s.imports|);
  }

  lemma ShapedImage(s: Source)
    requires Digests(s)
    ensures Shaped(ImageOf(s))
  {
    hide ArtifactRow, ResourceRow, SymbolRow, ImportRow, RefsTo, ArtifactText, ExportText, ImportText, Text;
    var m := ImageOf(s);
    forall i | 0 <= i < |m.tables[0]| ensures |m.tables[0][i]| == 96 { ArtifactLength(s, i); }
    forall i | 0 <= i < |m.tables[4]| ensures |m.tables[4][i]| == 72 { ResourceLength(s.resources[i]); }
    assert Sized(m.tables[0], 96) && Sized(m.tables[1], 8) && Sized(m.tables[2], 16);
    assert Sized(m.tables[3], 32) && Sized(m.tables[4], 72) && Sized(m.tables[5], 8);
  }

  lemma ArtifactLength(s: Source, i: nat)
    requires Digests(s) && i < |s.artifacts|
    ensures |ArtifactRowOf(s, i)| == 96
  {
    hide RefsBytes, RefsTo, Zeros, HeadBytes;
    HeadLength(s.artifacts[i].head);
  }

  lemma CountsOf(s: Source)
    ensures var c := Counts(ImageOf(s), TABLES);
            && c[0] == |s.artifacts| && c[1] == |s.dependencies| && c[2] == |s.exports| && c[3] == |s.imports|
            && c[4] == |s.resources| && c[5] == |s.bindings|
  {
  }

  lemma LimitedOf(s: Source)
    requires Counted(s)
    ensures Limited(Counts(ImageOf(s), TABLES))
  {
    hide ImageOf;
    CountsOf(s);
  }

  // ------------------------------------------------------------------------- rows

  /** The names of an artifact, once in the string table, are found through its references. */
  lemma NamesRead(a: Artifact, before: seq<byte>, t: seq<byte>)
    requires before + a.namespace + a.init + a.quiesce + a.cleanup <= t && |t| < U32
    ensures var r := RefsTo(a, |before|);
            && AllNarrow(r) && Inside(t, r.namespace) && Inside(t, r.init) && Inside(t, r.quiesce) && Inside(t, r.cleanup)
            && TextAt(t, r.namespace) == a.namespace && TextAt(t, r.init) == a.init
            && TextAt(t, r.quiesce) == a.quiesce && TextAt(t, r.cleanup) == a.cleanup
  {
    hide TextAt, Inside, RefTo;
    var c := before + a.namespace;
    var d := c + a.init;
    var e := d + a.quiesce;
    assert e + a.cleanup <= t && e <= t && d <= t && c <= t;
    RefReads(t, before, a.namespace);
    RefReads(t, c, a.init);
    RefReads(t, d, a.quiesce);
    RefReads(t, e, a.cleanup);
  }

  lemma NativeRefs(a: Artifact, cursor: nat)
    ensures a.init == [] ==> RefsTo(a, cursor).init == Ref(0, 0)
    ensures a.quiesce == [] ==> RefsTo(a, cursor).quiesce == Ref(0, 0)
    ensures a.cleanup == [] ==> RefsTo(a, cursor).cleanup == Ref(0, 0)
  {
  }

  lemma ArtifactReads(s: Source, i: nat, t: seq<byte>)
    requires Digests(s) && i < |s.artifacts| && ArtifactNamed(s.artifacts[i]) && Text(s) <= t && |t| < U32
    ensures |ArtifactRowOf(s, i)| == 96
    ensures ArtifactForm(ArtifactRowOf(s, i), t) && ArtifactAt(ArtifactRowOf(s, i), t) == s.artifacts[i]
  {
    var a, before := s.artifacts[i], ArtifactText(s.artifacts, i);
    TextHolds(s);
    assert ArtifactText(s.artifacts, i + 1) <= Text(s) <= t;
    hide RefsTo, Inside, TextAt, NameOk, ArtifactRow, HeadAt, RefsAt, Zero, Text, ArtifactText;
    ArtifactLength(s, i);
    NamesRead(a, before, t);
    NativeRefs(a, |before|);
    ArtifactRowIs(ArtifactRowOf(s, i), a.head, RefsTo(a, |before|));
  }

  lemma ExportReads(s: Source, i: nat, t: seq<byte>)
    requires i < |s.exports| && Text(s) <= t && |t| < U32
    ensures SymbolForm(ExportRow(s, i), t) && SymbolAt(ExportRow(s, i), t) == s.exports[i]
  {
    TextHolds(s);
    assert ExportText(s, i + 1) <= Text(s) <= t;
    hide RefTo, Inside, TextAt, RefAt, U32At, SymbolRow, Text, ExportText;
    var e, before := s.exports[i], ExportText(s, i);
    RefReads(t, before, e.name);
    SymbolRowIs(ExportRow(s, i), e.node, e.kind, RefTo(|before|, e.name));
  }

  lemma ImportReads(s: Source, i: nat, t: seq<byte>)
    requires i < |s.imports| && Text(s) <= t && |t| < U32
    ensures ImportForm(ImportRowOf(s, i), t) && ImportAt(ImportRowOf(s, i), t) == s.imports[i]
  {
    TextHolds(s);
    assert ImportText(s, i + 1) <= Text(s) <= t;
    hide RefTo, Inside, TextAt, RefAt, U32At, ImportRow, Text, ImportText;
    var r, before := s.imports[i], ImportText(s, i);
    assert before + r.consumerName <= t;
    RefReads(t, before, r.consumerName);
    RefReads(t, before + r.consumerName, r.providerName);
    ImportRowIs(ImportRowOf(s, i), t, r, ConsumerRef(s, i), ProviderRef(s, i));
  }

  lemma ResourceReads(r: Resource)
    requires |r.schema| == DIGEST_SIZE
    ensures |ResourceRow(r)| == 72 && ResourceForm(ResourceRow(r)) && ResourceAt(ResourceRow(r)) == r
  {
    hide ResourceRow, ResourceAt, Zero;
    ResourceLength(r);
    ResourceRowIs(ResourceRow(r), r);
  }

  // -------------------------------------------------------------------- round trip

  /** The rows of a source over a string table that starts with its names and may go on. */
  function ImageOver(s: Source, t: seq<byte>): (m: Image)
    ensures |m.tables| == TABLES && m.strings == t && Counts(m, TABLES) == Counts(ImageOf(s), TABLES)
  {
    hide ImageOf;
    ImageOf(s).(strings := t)
  }

  /** Every row is well formed and reads back as its record. */
  lemma ImageReads(s: Source, t: seq<byte>)
    requires Digests(s) && Named(s) && Shaped(ImageOver(s, t)) && Text(s) <= t && |t| < U32
    ensures Formed(ImageOver(s, t)) && SourceIn(ImageOver(s, t)) == s
  {
    hide ArtifactRowOf, ArtifactForm, ArtifactAt, ArtifactNamed, ExportRow, SymbolForm, SymbolAt, ImportRowOf, ImportForm,
      ImportAt, ResourceRow, ResourceForm, ResourceAt, DependencyRow, DependencyAt, BindingRow, BindingAt, Text, NameOk;
    var m := ImageOver(s, t);
    var u := SourceIn(m);
    assert Sized(m.tables[0], 96) && Sized(m.tables[1], 8) && Sized(m.tables[2], 16);
    assert Sized(m.tables[3], 32) && Sized(m.tables[4], 72) && Sized(m.tables[5], 8);
    forall i | 0 <= i < |s.artifacts| ensures ArtifactForm(m.tables[0][i], t) && u.artifacts[i] == s.artifacts[i] {
      ArtifactReads(s, i, t);
    }
    forall i | 0 <= i < |s.dependencies| ensures u.dependencies[i] == s.dependencies[i] {
      DependencyRowIs(m.tables[1][i], s.dependencies[i]);
    }
    forall i | 0 <= i < |s.exports| ensures SymbolForm(m.tables[2][i], t) && u.exports[i] == s.exports[i] {
      ExportReads(s, i, t);
    }
    forall i | 0 <= i < |s.imports| ensures ImportForm(m.tables[3][i], t) && u.imports[i] == s.imports[i] {
      ImportReads(s, i, t);
    }
    forall i | 0 <= i < |s.resources| ensures ResourceForm(m.tables[4][i]) && u.resources[i] == s.resources[i] {
      ResourceReads(s.resources[i]);
    }
    forall i | 0 <= i < |s.bindings| ensures u.bindings[i] == s.bindings[i] {
      BindingRowIs(m.tables[5][i], s.bindings[i]);
    }
    assert u.artifacts == s.artifacts && u.dependencies == s.dependencies && u.exports == s.exports;
    assert u.imports == s.imports && u.resources == s.resources && u.bindings == s.bindings;
  }

  /** The header of what is written is in order, and its contents are the image. */
  lemma WrittenContents(m: Image)
    requires Shaped(m) && Limited(Counts(m, TABLES)) && m.tables[0] != [] && |Written(m)| < U32
    ensures HeaderOk(Written(m)) && Contents(Written(m)) == m
  {
    hide Written, Header, HeaderSays, Offset, Limited, Counts, Shaped;
    FirstCount(m);
    var b, c := Written(m), Counts(m, TABLES);
    WrittenSize(m);
    ReadWritten(m);
    OffsetsRise(c, 0, TABLES);
    HeaderIs(b, c, |m.strings|);
    CountsSaid(b, c, |m.strings|);
  }

  lemma FirstCount(m: Image)
    requires Shaped(m)
    ensures |m.tables| == TABLES && Counts(m, TABLES)[0] == |m.tables[0]|
  {
  }

  lemma StretchedSize(s: Source, t: seq<byte>)
    requires Encodable(s)
    ensures |t| <= |Written(ImageOver(s, t))| < 0x100_0000 + |t|
  {
    ShapedImage(s);
    CountsOf(s);
    LimitedOf(s);
    hide ImageOf, Written, Limited, Counts, Digests, Named;
    WrittenSize(ImageOver(s, t));
    TablesSmall(Counts(ImageOver(s, t), TABLES));
  }

  lemma StretchedContents(s: Source, t: seq<byte>)
    requires Encodable(s) && |Written(ImageOver(s, t))| < U32
    ensures Shaped(ImageOver(s, t)) && HeaderOk(Written(ImageOver(s, t)))
    ensures Contents(Written(ImageOver(s, t))) == ImageOver(s, t)
  {
    ShapedImage(s);
    CountsOf(s);
    LimitedOf(s);
    hide ImageOf, Written, Limited, Counts, HeaderOk, Contents, Digests, Named;
    WrittenContents(ImageOver(s, t));
  }

  lemma EncodedContents(s: Source)
    requires Encodable(s)
    ensures HeaderOk(Encoded(s)) && Contents(Encoded(s)) == ImageOf(s)
  {
    hide ImageOf, Written, Text, HeaderOk, Contents, Digests, Named, Counted;
    StringsOf(s);
    TextSmall(s);
    StretchedSize(s, Text(s));
    StretchedContents(s, Text(s));
    assert ImageOver(s, Text(s)) == ImageOf(s);
  }

  lemma StringsOf(s: Source)
    ensures ImageOf(s).strings == Text(s)
  {
  }

  lemma CountsSaid(b: seq<byte>, c: seq<nat>, strings: nat)
    requires |b| >= HEADER_SIZE && |c| == TABLES && HeaderSays(b, c, strings)
    ensures CountsAt(b) == c
  {
    hide U32At, Offset, Zero, Offsets;
    forall t: nat | t < TABLES ensures CountsAt(b)[t] == c[t] { assert WordIs(b, 40, c, t); }
  }

  /** Whatever follows the names, the accessors return the source, and decoding accepts exactly by the record rules. */
  lemma StretchedDecodes(s: Source, t: seq<byte>)
    requires Encodable(s) && Text(s) <= t && |Written(ImageOver(s, t))| < U32
    ensures var b := Written(ImageOver(s, t));
            HeaderOk(b) && Contents(b) == ImageOver(s, t) && SourceAt(b) == s && (DecodeOk(b) <==> Rules(s))
  {
    hide ImageOver, Written, Text, Rules, HeaderOk, Formed, SourceIn, Shaped, Contents, Digests, Named, Counted;
    StretchedSize(s, t);
    StretchedContents(s, t);
    ImageReads(s, t);
  }

  /** Decoding accepts the encoding of an encodable source exactly by the record rules, and gives the source back. */
  lemma EncodingDecodes(s: Source)
    requires Encodable(s)
    ensures HeaderOk(Encoded(s)) && SourceAt(Encoded(s)) == s && (DecodeOk(Encoded(s)) <==> Rules(s))
  {
    hide ImageOf, Written, Text, Rules, HeaderOk, SourceAt, DecodeOk, Digests, Named, Counted;
    StringsOf(s);
    TextSmall(s);
    StretchedSize(s, Text(s));
    StretchedDecodes(s, Text(s));
    assert ImageOver(s, Text(s)) == ImageOf(s);
  }
}
