/** Which accepted manifests are the encoding of what they hold. */
module ManifestCanonical {
  import opened Bytes
  import opened Fields
  import opened Names
  import opened ManifestLayout
  import opened ManifestRecords
  import opened Manifest
  import opened ManifestRoundTrip

  /** The references of a row start where the names before it end. */
  ghost predicate ArtifactPlaced(m: Image, i: nat)
    requires Shaped(m) && i < |m.tables[0]|
  {
    ArtifactIn(m, i);
    RefsAt(m.tables[0][i]) == RefsTo(SourceIn(m).artifacts[i], |ArtifactText(SourceIn(m).artifacts, i)|)
  }

  ghost predicate ExportPlaced(m: Image, i: nat)
    requires Shaped(m) && i < |m.tables[2]|
  {
    ExportIn(m, i);
    RefAt(m.tables[2][i], 8) == RefTo(|ExportText(SourceIn(m), i)|, SourceIn(m).exports[i].name)
  }

  ghost predicate ImportPlaced(m: Image, i: nat)
    requires Shaped(m) && i < |m.tables[3]|
  {
    ImportIn(m, i);
    RefAt(m.tables[3][i], 16) == ConsumerRef(SourceIn(m), i) && RefAt(m.tables[3][i], 24) == ProviderRef(SourceIn(m), i)
  }

  /** Every reference starts where the one before it ended, and together they cover the string table. */
  ghost predicate Packed(m: Image)
    requires Shaped(m)
  {
    && |m.strings| == |Text(SourceIn(m))|
    && (forall i: nat :: i < |m.tables[0]| ==> ArtifactPlaced(m, i))
    && (forall i: nat :: i < |m.tables[2]| ==> ExportPlaced(m, i))
    && (forall i: nat :: i < |m.tables[3]| ==> ImportPlaced(m, i))
  }

  /** What the accessors return for an accepted string can be encoded again, and decodes to the same records. */
  lemma DecodedEncodes(b: seq<byte>)
    requires DecodeOk(b)
    ensures Encodable(SourceAt(b))
    ensures DecodeOk(Encoded(SourceAt(b))) && SourceAt(Encoded(SourceAt(b))) == SourceAt(b)
  {
    DecodedFits(b);
    hide DecodeOk, Encoded, Encodable, SourceAt;
    EncodingDecodes(SourceAt(b));
  }

  lemma DecodedFits(b: seq<byte>)
    requires DecodeOk(b)
    ensures Encodable(SourceAt(b)) && Rules(SourceAt(b))
  {
    DecodedCounts(b);
    DecodedDigests(Contents(b));
    hide HeaderOk, Formed, Rules, SourceIn, Contents, Counted, Digests;
    RulesName(SourceAt(b));
  }

  lemma DecodedCounts(b: seq<byte>)
    requires HeaderOk(b)
    ensures Counted(SourceAt(b))
  {
    hide HeaderSays, CountsAt, ArtifactAt, SymbolAt, ImportAt, ResourceAt;
  }

  lemma DecodedDigests(m: Image)
    requires Shaped(m)
    ensures Digests(SourceIn(m))
  {
    hide U32At, U64At, RefsAt, SymbolAt, ImportAt;
  }

  // ------------------------------------------------------------------------- rows

  lemma RefExtends(t: seq<byte>, before: seq<byte>, name: Name)
    requires before <= t && Inside(t, RefTo(|before|, name)) && TextAt(t, RefTo(|before|, name)) == name
    ensures before + name <= t
  {
    assert before == t[..|before|];
    if name != [] { assert t[..|before| + |name|] == t[..|before|] + t[|before|..|before| + |name|]; }
  }

  lemma ArtifactExtends(row: Row, t: seq<byte>, before: seq<byte>)
    requires |row| == 96 && ArtifactForm(row, t) && before <= t && RefsAt(row) == RefsTo(ArtifactAt(row, t), |before|)
    ensures var a := ArtifactAt(row, t); before + a.namespace + a.init + a.quiesce + a.cleanup <= t
  {
    hide Zero, HeadAt, RefsAt, TextAt;
    var a := ArtifactAt(row, t);
    var c := before + a.namespace;
    var d := c + a.init;
    var e := d + a.quiesce;
    RefExtends(t, before, a.namespace);
    RefExtends(t, c, a.init);
    RefExtends(t, d, a.quiesce);
    RefExtends(t, e, a.cleanup);
  }

  lemma ImportExtends(s: Source, i: nat, row: Row, t: seq<byte>)
    requires |row| == 32 && ImportForm(row, t) && i < |s.imports| && s.imports[i] == ImportAt(row, t)
    requires RefAt(row, 16) == ConsumerRef(s, i) && RefAt(row, 24) == ProviderRef(s, i) && ImportText(s, i) <= t
    ensures ImportText(s, i + 1) <= t
  {
    var before := ImportText(s, i);
    hide RefAt, U32At, ImportText, Inside, RefTo, TextAt;
    RefExtends(t, before, s.imports[i].consumerName);
    RefExtends(t, before + s.imports[i].consumerName, s.imports[i].providerName);
  }

  lemma ArtifactStep(m: Image, i: nat)
    requires Shaped(m) && Formed(m) && i < |m.tables[0]| == |SourceIn(m).artifacts| && ArtifactPlaced(m, i)
    requires ArtifactText(SourceIn(m).artifacts, i) <= m.strings
    ensures ArtifactText(SourceIn(m).artifacts, i + 1) <= m.strings
  {
    hide Formed, SourceIn, ArtifactForm, ArtifactAt, RefsAt, RefsTo, Text;
    ArtifactIn(m, i);
    ArtifactExtends(m.tables[0][i], m.strings, ArtifactText(SourceIn(m).artifacts, i));
  }

  lemma ExportStep(m: Image, i: nat)
    requires Shaped(m) && Formed(m) && i < |m.tables[2]| == |SourceIn(m).exports| && ExportPlaced(m, i)
    requires ExportText(SourceIn(m), i) <= m.strings
    ensures ExportText(SourceIn(m), i + 1) <= m.strings
  {
    hide Formed, SourceIn, ArtifactText, Text, RefAt, RefTo, Inside, TextAt, U32At;
    ExportIn(m, i);
    RefExtends(m.strings, ExportText(SourceIn(m), i), SourceIn(m).exports[i].name);
  }

  lemma ImportStep(m: Image, i: nat)
    requires Shaped(m) && Formed(m) && i < |m.tables[3]| == |SourceIn(m).imports| && ImportPlaced(m, i)
    requires ImportText(SourceIn(m), i) <= m.strings
    ensures ImportText(SourceIn(m), i + 1) <= m.strings
  {
    hide Formed, SourceIn, ImportForm, ImportAt, RefAt, ConsumerRef, ProviderRef, ImportText;
    ImportIn(m, i);
    ImportExtends(SourceIn(m), i, m.tables[3][i], m.strings);
  }

  lemma {:induction false} ArtifactsPacked(m: Image, n: nat)
    requires Shaped(m) && Formed(m) && Packed(m) && n <= |SourceIn(m).artifacts| == |m.tables[0]|
    ensures ArtifactText(SourceIn(m).artifacts, n) <= m.strings
  {
    hide Formed, SourceIn, ArtifactPlaced, ExportPlaced, ImportPlaced, Text;
    if n > 0 {
      ArtifactsPacked(m, n - 1);
      ArtifactStep(m, n - 1);
    }
  }

  lemma {:induction false} ExportsPacked(m: Image, n: nat)
    requires Shaped(m) && Formed(m) && Packed(m) && n <= |SourceIn(m).exports| == |m.tables[2]|
    ensures ExportText(SourceIn(m), n) <= m.strings
  {
    hide Formed, SourceIn, ArtifactPlaced, ExportPlaced, ImportPlaced, Text, ArtifactText;
    LengthsIn(m);
    if n > 0 {
      ExportsPacked(m, n - 1);
      ExportStep(m, n - 1);
    } else {
      ArtifactsPacked(m, |SourceIn(m).artifacts|);
    }
  }

  lemma {:induction false} ImportsPacked(m: Image, n: nat)
    requires Shaped(m) && Formed(m) && Packed(m) && n <= |SourceIn(m).imports| == |m.tables[3]|
    ensures ImportText(SourceIn(m), n) <= m.strings
  {
    hide Formed, SourceIn, ArtifactPlaced, ExportPlaced, ImportPlaced, Text, ExportText;
    LengthsIn(m);
    if n > 0 {
      ImportsPacked(m, n - 1);
      ImportStep(m, n - 1);
    } else {
      ExportsPacked(m, |SourceIn(m).exports|);
    }
  }

  /** The rows of an image are the rows of its source exactly when its references are placed. */
  lemma ArtifactRowsSame(m: Image)
    requires Shaped(m) && Formed(m) && |Text(SourceIn(m))| < U32
    ensures m.tables[0] == ArtifactRows(SourceIn(m), |SourceIn(m).artifacts|)
            <==> forall i: nat :: i < |m.tables[0]| ==> ArtifactPlaced(m, i)
  {
    hide SourceIn, Formed, Shaped, ArtifactRowOf, ArtifactAt, ArtifactForm, Text;
    LengthsIn(m);
    var s := SourceIn(m);
    forall i: nat | i < |m.tables[0]| ensures m.tables[0][i] == ArtifactRowOf(s, i) <==> ArtifactPlaced(m, i) {
      ArtifactIn(m, i);
      ArtifactRowSame(s, i, m.tables[0][i], m.strings);
    }
    hide ArtifactPlaced;
    var rows := ArtifactRows(s, |s.artifacts|);
    assert m.tables[0] == rows <==> forall i: nat :: i < |rows| ==> m.tables[0][i] == rows[i];
  }

  lemma ArtifactRowSame(s: Source, i: nat, row: Row, t: seq<byte>)
    requires i < |s.artifacts| && |row| == 96 && s.artifacts[i] == ArtifactAt(row, t) && ArtifactForm(row, t) && |Text(s)| < U32
    ensures row == ArtifactRowOf(s, i) <==> RefsAt(row) == RefsTo(s.artifacts[i], |ArtifactText(s.artifacts, i)|)
  {
    TextHolds(s);
    assert |ArtifactText(s.artifacts, i + 1)| < U32;
    hide Zero, RefsAt, Text, ArtifactRow, TextAt, U32At, U64At;
    ArtifactRowIs(row, s.artifacts[i].head, RefsTo(s.artifacts[i], |ArtifactText(s.artifacts, i)|));
  }

  lemma ExportRowSame(s: Source, i: nat, row: Row, t: seq<byte>)
    requires i < |s.exports| && |row| == 16 && s.exports[i] == SymbolAt(row, t) && |Text(s)| < U32
    ensures row == ExportRow(s, i) <==> RefAt(row, 8) == RefTo(|ExportText(s, i)|, s.exports[i].name)
  {
    TextHolds(s);
    assert |ExportText(s, i + 1)| < U32;
    hide Text, SymbolRow, TextAt, U32At, RefAt;
    SymbolRowIs(row, s.exports[i].node, s.exports[i].kind, RefTo(|ExportText(s, i)|, s.exports[i].name));
  }

  lemma ImportRowSame(s: Source, i: nat, row: Row, t: seq<byte>)
    requires i < |s.imports| && |row| == 32 && s.imports[i] == ImportAt(row, t) && |Text(s)| < U32
    ensures row == ImportRowOf(s, i) <==> RefAt(row, 16) == ConsumerRef(s, i) && RefAt(row, 24) == ProviderRef(s, i)
  {
    TextHolds(s);
    assert |ImportText(s, i + 1)| < U32;
    hide Text, ImportRow, TextAt, U32At, RefAt;
    ImportRowIs(row, t, s.imports[i], ConsumerRef(s, i), ProviderRef(s, i));
  }

  lemma ExportRowsSame(m: Image)
    requires Shaped(m) && |Text(SourceIn(m))| < U32
    ensures m.tables[2] == ExportRows(SourceIn(m), |SourceIn(m).exports|)
            <==> forall i: nat :: i < |m.tables[2]| ==> ExportPlaced(m, i)
  {
    hide SourceIn, Shaped, ExportRow, SymbolAt, Text;
    LengthsIn(m);
    var s := SourceIn(m);
    forall i: nat | i < |m.tables[2]| ensures m.tables[2][i] == ExportRow(s, i) <==> ExportPlaced(m, i) {
      ExportIn(m, i);
      ExportRowSame(s, i, m.tables[2][i], m.strings);
    }
    hide ExportPlaced;
    var rows := ExportRows(s, |s.exports|);
    assert m.tables[2] == rows <==> forall i: nat :: i < |rows| ==> m.tables[2][i] == rows[i];
  }

  lemma ImportRowsSame(m: Image)
    requires Shaped(m) && |Text(SourceIn(m))| < U32
    ensures m.tables[3] == ImportRows(SourceIn(m), |SourceIn(m).imports|)
            <==> forall i: nat :: i < |m.tables[3]| ==> ImportPlaced(m, i)
  {
    hide SourceIn, Shaped, ImportRowOf, ImportAt, Text;
    LengthsIn(m);
    var s := SourceIn(m);
    forall i: nat | i < |m.tables[3]| ensures m.tables[3][i] == ImportRowOf(s, i) <==> ImportPlaced(m, i) {
      ImportIn(m, i);
      ImportRowSame(s, i, m.tables[3][i], m.strings);
    }
    hide ImportPlaced;
    var rows := ImportRows(s, |s.imports|);
    assert m.tables[3] == rows <==> forall i: nat :: i < |rows| ==> m.tables[3][i] == rows[i];
  }

  /** The tables without names are always the rows of what they hold. */
  lemma OtherRowsSame(m: Image)
    requires Shaped(m) && Formed(m)
    ensures var s := SourceIn(m);
            && m.tables[1] == DependencyRows(s, |s.dependencies|) && m.tables[4] == ResourceRows(s, |s.resources|)
            && m.tables[5] == BindingRows(s, |s.bindings|)
  {
    hide ArtifactAt, SymbolAt, ImportAt, DependencyAt, DependencyRow, ResourceAt, ResourceRow, BindingAt, BindingRow,
      ArtifactForm, SymbolForm, ImportForm;
    var s := SourceIn(m);
    assert Sized(m.tables[1], 8) && Sized(m.tables[4], 72) && Sized(m.tables[5], 8);
    forall i | 0 <= i < |s.dependencies| ensures m.tables[1][i] == DependencyRow(s.dependencies[i]) {
      DependencyRowIs(m.tables[1][i], s.dependencies[i]);
    }
    forall i | 0 <= i < |s.resources| ensures m.tables[4][i] == ResourceRow(s.resources[i]) {
      ResourceSchema(m.tables[4][i]);
      ResourceRowIs(m.tables[4][i], s.resources[i]);
    }
    forall i | 0 <= i < |s.bindings| ensures m.tables[5][i] == BindingRow(s.bindings[i]) {
      BindingRowIs(m.tables[5][i], s.bindings[i]);
    }
  }

  lemma ResourceSchema(row: Row)
    requires |row| == 72
    ensures |ResourceAt(row).schema| == DIGEST_SIZE
  {
  }

  lemma ImageSame(m: Image, s: Source)
    ensures ImageOf(s) == m
            <==> && |m.tables| == TABLES && m.strings == Text(s)
                 && m.tables[0] == ArtifactRows(s, |s.artifacts|) && m.tables[1] == DependencyRows(s, |s.dependencies|)
                 && m.tables[2] == ExportRows(s, |s.exports|) && m.tables[3] == ImportRows(s, |s.imports|)
                 && m.tables[4] == ResourceRows(s, |s.resources|) && m.tables[5] == BindingRows(s, |s.bindings|)
  {
    hide Text, ArtifactRows, DependencyRows, ExportRows, ImportRows, ResourceRows, BindingRows;
    if |m.tables| == TABLES {
      assert m.tables == [m.tables[0], m.tables[1], m.tables[2], m.tables[3], m.tables[4], m.tables[5]];
    }
  }

  lemma ImagePacked(m: Image)
    requires Shaped(m) && Formed(m) && |Text(SourceIn(m))| < U32
    ensures ImageOf(SourceIn(m)) == m <==> Packed(m)
  {
    hide SourceIn, ImageOf, Formed, Text, ArtifactPlaced, ExportPlaced, ImportPlaced,
      ArtifactRows, DependencyRows, ExportRows, ImportRows, ResourceRows, BindingRows;
    LengthsIn(m);
    var s := SourceIn(m);
    ArtifactRowsSame(m);
    ExportRowsSame(m);
    ImportRowsSame(m);
    OtherRowsSame(m);
    ImageSame(m, s);
    if Packed(m) { StringsPacked(m); }
  }

  lemma StringsPacked(m: Image)
    requires Shaped(m) && Formed(m) && Packed(m)
    ensures m.strings == Text(SourceIn(m))
  {
    hide SourceIn, Formed, ImportText, ArtifactPlaced, ExportPlaced, ImportPlaced;
    LengthsIn(m);
    ImportsPacked(m, |SourceIn(m).imports|);
  }

  /** An accepted string is the encoding of what it holds exactly when its references are packed. */
  lemma CanonicalWhenPacked(b: seq<byte>)
    requires DecodeOk(b)
    ensures Encoded(SourceAt(b)) == b <==> Packed(Contents(b))
  {
    DecodedFits(b);
    var m, s := Contents(b), SourceAt(b);
    ContentsWritten(b);
    hide DecodeOk, HeaderOk, Contents, ImageOf, Written, Rules, Packed, SourceIn, Text, Named;
    EncodedContents(s);
    TextSmall(s);
    FormedContents(b);
    ImagePacked(m);
  }

  /** Unused bytes after the names make an accepted string that is not the encoding of what it holds. */
  lemma SlackIsAccepted(s: Source, slack: seq<byte>)
    requires Encodable(s) && Rules(s) && slack != [] && |Written(ImageOver(s, Text(s) + slack))| < U32
    ensures var b := Written(ImageOver(s, Text(s) + slack));
            DecodeOk(b) && SourceAt(b) == s && b != Encoded(s) && !Packed(Contents(b))
  {
    hide ImageOver, ImageOf, Written, Text, Rules, HeaderOk, SourceAt, DecodeOk, Digests, Named, Counted, Packed, Contents;
    var t := Text(s) + slack;
    StretchedDecodes(s, t);
    SlackIsLonger(s, t);
    EncodedContents(s);
    var b := Written(ImageOver(s, t));
    CanonicalWhenPacked(b);
  }

  lemma SlackIsLonger(s: Source, t: seq<byte>)
    requires Text(s) < t
    ensures ImageOver(s, t) != ImageOf(s)
  {
    hide Text;
    StringsOf(s);
  }

  lemma ContentsWritten(b: seq<byte>)
    requires HeaderOk(b)
    ensures Written(Contents(b)) == b
  {
    hide HeaderSays, Limited, Offset, Written, ImageAt, Fits;
    WrittenRead(b, CountsAt(b));
  }

  lemma FormedContents(b: seq<byte>)
    requires DecodeOk(b)
    ensures HeaderOk(b) && Formed(Contents(b)) && SourceAt(b) == SourceIn(Contents(b))
  {
    hide HeaderOk, Formed, Contents, SourceIn, Rules;
  }
}
