/** The decoder of closure manifests: a header pass, one pass per table, and a binary search for nodes. */
module ManifestDecoder {
  import opened Bytes
  import opened Fields
  import opened Names
  import opened Partitions
  import opened ManifestLayout
  import opened ManifestRecords
  import opened Manifest

  // ----------------------------------------------------------------------- header

  ghost predicate SchemaOk(b: seq<byte>)
    requires |b| >= HEADER_SIZE
  {
    b[4..8] == IDENTITY && b[8..40] == SCHEMA
  }

  /** What the header pass checks about table `t`. */
  ghost predicate TableOk(b: seq<byte>, c: seq<nat>, t: nat)
    requires |b| >= HEADER_SIZE && |c| == TABLES && t < TABLES
  {
    c[t] <= LIMITS[t] && U32At(b, 64 + 4 * t) == Offset(c, t) && Offset(c, t + 1) <= |b|
  }

  lemma HeaderTable(b: seq<byte>, t: nat)
    requires HeaderOk(b) && t < TABLES
    ensures TableOk(b, CountsAt(b), t)
  {
    hide U32At, CountsAt, Zero;
    var c := CountsAt(b);
    assert WordIs(b, 64, Offsets(c, TABLES + 1), t);
    OffsetsRise(c, t + 1, TABLES);
  }

  lemma HeaderEnds(b: seq<byte>)
    requires HeaderOk(b)
    ensures SchemaOk(b) && U32At(b, 0) == |b| && Zero(b[96..128])
    ensures var c := CountsAt(b); c[0] != 0 && U32At(b, 88) == Offset(c, TABLES) && U32At(b, 92) == |b| - Offset(c, TABLES)
  {
    hide U32At, CountsAt, Zero, Limited, Offset;
    assert WordIs(b, 64, Offsets(CountsAt(b), TABLES + 1), TABLES);
  }

  lemma TablesMakeHeader(b: seq<byte>)
    requires HEADER_SIZE <= |b| < U32 && SchemaOk(b) && U32At(b, 0) == |b| && Zero(b[96..128])
    requires forall t: nat :: t < TABLES ==> TableOk(b, CountsAt(b), t)
    requires var c := CountsAt(b); c[0] != 0 && U32At(b, 88) == Offset(c, TABLES) && U32At(b, 92) == |b| - Offset(c, TABLES)
    ensures HeaderOk(b)
  {
    hide U32At, Zero, Offset;
    var c := CountsAt(b);
    assert TableOk(b, c, TABLES - 1);
    forall t: nat | t < TABLES ensures c[t] <= LIMITS[t] { assert TableOk(b, c, t); }
    forall t: nat | t < TABLES ensures WordIs(b, 40, c, t) { }
    var offsets := Offsets(c, TABLES + 1);
    forall t: nat | t < TABLES + 1 ensures WordIs(b, 64, offsets, t) { if t < TABLES { assert TableOk(b, c, t); } }
  }

  method ReadHeader(b: seq<byte>) returns (status: Status)
    ensures status.Okay? <==> HeaderOk(b)
    ensures status.BufferTooSmall? <==> |b| < HEADER_SIZE
    ensures status.Overflow? <==> |b| >= U32
    ensures status.SchemaMismatch? <==> HEADER_SIZE <= |b| < U32 && !SchemaOk(b)
  {
    hide U32At, Zero, HeaderOk, CountsAt, Offset;
    if HeaderOk(b) {
      HeaderSpan(b);
      HeaderEnds(b);
    }
    if |b| < HEADER_SIZE { return BufferTooSmall; }
    if |b| >= U32 { return Overflow; }
    if b[4..8] != IDENTITY || b[8..40] != SCHEMA { return SchemaMismatch; }
    if U32At(b, 0) != |b| || !Zero(b[96..128]) { return Malformed; }
    var counts := CountsAt(b);
    var expected := HEADER_SIZE;
    OffsetStart(counts);
    for index := 0 to TABLES
      invariant expected == Offset(counts, index) && expected <= |b|
      invariant forall t: nat :: t < index ==> TableOk(b, counts, t)
    {
      OffsetNext(counts, index);
      if HeaderOk(b) { HeaderTable(b, index); }
      if counts[index] > LIMITS[index] || U32At(b, 64 + 4 * index) != expected { return Malformed; }
      var next := expected + counts[index] * SIZES[index];
      if next > |b| { return Malformed; }
      expected := next;
    }
    if counts[0] == 0 || U32At(b, 88) != expected || U32At(b, 92) != |b| - expected { return Malformed; }
    TablesMakeHeader(b);
    return Okay;
  }

  lemma OffsetStart(c: seq<nat>)
    requires |c| == TABLES
    ensures Offset(c, 0) == HEADER_SIZE
  {
  }

  lemma OffsetNext(c: seq<nat>, t: nat)
    requires |c| == TABLES && t < TABLES
    ensures Offset(c, t + 1) == Offset(c, t) + c[t] * SIZES[t]
  {
  }

  // --------------------------------------------------------------------- accessors

  lemma HeaderSpan(b: seq<byte>)
    requires HeaderOk(b)
    ensures HEADER_SIZE <= |b| < U32
  {
  }

  function RowOffset(c: seq<nat>, t: nat, i: nat): nat
    requires |c| == TABLES && t < TABLES
  {
    Offset(c, t) + i * SIZES[t]
  }

  ghost predicate StoredAt(b: seq<byte>, o: nat, size: nat, row: Row) {
    |row| == size && o + size <= |b| && b[o..o + size] == row
  }

  /** Row `i` of table `t` in the bytes. */
  lemma RowAt(b: seq<byte>, t: nat, i: nat)
    requires HeaderOk(b) && t < TABLES && i < CountsAt(b)[t]
    ensures |Contents(b).tables[t]| == CountsAt(b)[t]
    ensures StoredAt(b, RowOffset(CountsAt(b), t, i), SIZES[t], Contents(b).tables[t][i])
  {
    hide HeaderSays, CountsAt, U32At, Offset;
    var c, size := CountsAt(b), SIZES[t];
    TableFits(b, c, t);
    var base := Offset(c, t);
    RowIn(b[base..], size, c[t], i);
    assert (i + 1) * size == i * size + size;
    assert b[base..][i * size..(i + 1) * size] == b[base + i * size..base + i * size + size];
  }

  lemma StringsAt(b: seq<byte>)
    requires HeaderOk(b)
    ensures Offset(CountsAt(b), TABLES) <= |b| && Contents(b).strings == b[Offset(CountsAt(b), TABLES)..]
    ensures Counts(Contents(b), TABLES) == CountsAt(b) && Contents(b).Image?
  {
    hide HeaderSays, CountsAt, U32At, Offset, TablesAt;
  }

  method ReadRow(b: seq<byte>, t: nat, index: nat) returns (row: Row)
    requires HeaderOk(b) && t < TABLES && index < CountsAt(b)[t]
    ensures |Contents(b).tables[t]| == CountsAt(b)[t] && row == Contents(b).tables[t][index] && |row| == SIZES[t]
  {
    hide HeaderOk, Contents, CountsAt, RowOffset;
    HeaderSpan(b);
    RowAt(b, t, index);
    var o := RowOffset(CountsAt(b), t, index);
    row := b[o..o + SIZES[t]];
  }

  method Strings(b: seq<byte>) returns (t: seq<byte>)
    requires HeaderOk(b)
    ensures t == Contents(b).strings
  {
    hide HeaderOk, Contents, CountsAt, Offset;
    HeaderSpan(b);
    StringsAt(b);
    t := b[Offset(CountsAt(b), TABLES)..];
  }

  method DecodedString(t: seq<byte>, r: Ref) returns (ok: bool, name: Name)
    ensures ok <==> Inside(t, r) && NameOk(TextAt(t, r))
    ensures ok ==> name == TextAt(t, r)
  {
    hide NameOk;
    if r.offset > |t| || r.length > |t| - r.offset { return false, []; }
    name := t[r.offset..r.offset + r.length];
    ok := NameValid(name);
  }

  method DecodedLifecycle(t: seq<byte>, flags: u32, r: Ref) returns (ok: bool, name: Name)
    ensures ok <==> LifecycleRef(flags, r, t) && LifecycleOk(flags, TextAt(t, r))
    ensures ok ==> name == TextAt(t, r)
  {
    hide NameOk;
    if IsNative(flags) { return r == Ref(0, 0), []; }
    ok, name := DecodedString(t, r);
  }

  ghost predicate ArtifactGood(m: Image, i: nat)
    requires Shaped(m) && i < |m.tables[0]|
  {
    ArtifactIn(m, i);
    ArtifactForm(m.tables[0][i], m.strings) && ArtifactOk(SourceIn(m).artifacts[i])
  }

  method ReadArtifact(b: seq<byte>, index: nat) returns (ok: bool, artifact: Artifact)
    requires HeaderOk(b)
    ensures ok <==> index < |Contents(b).tables[0]| && ArtifactGood(Contents(b), index)
    ensures ok ==> index < |SourceAt(b).artifacts| && artifact == SourceAt(b).artifacts[index]
  {
    hide HeaderOk, Contents, SourceIn, NameOk, HeadAt, RefsAt, TextAt, Inside, Zero, CountsAt, LifecycleOk, LifecycleRef, Shaped, Counts;
    ghost var m := Contents(b);
    HeaderSpan(b);
    LengthsIn(m);
    StringsAt(b);
    CountsLength(m, 0);
    artifact := Artifact(ArtifactHead(0, 0, 0, 0, []), [], [], [], []);
    if index >= CountsAt(b)[0] { return false, artifact; }
    var row := ReadRow(b, 0, index);
    ArtifactIn(m, index);
    var t := Strings(b);
    var head, refs := HeadAt(row), RefsAt(row);
    if head.node == 0 || head.size == 0 || head.kind > 1 || head.flags >= 4 || !Zero(row[12..16]) || !Zero(row[88..96]) {
      return false, artifact;
    }
    var namespace, init, quiesce, cleanup;
    ok, namespace := DecodedString(t, refs.namespace);
    if !ok { return; }
    ok, init := DecodedLifecycle(t, head.flags, refs.init);
    if !ok { return; }
    ok, quiesce := DecodedLifecycle(t, head.flags, refs.quiesce);
    if !ok { return; }
    ok, cleanup := DecodedLifecycle(t, head.flags, refs.cleanup);
    if !ok { return; }
    artifact := Artifact(head, namespace, init, quiesce, cleanup);
  }

  lemma CountsLength(m: Image, t: nat)
    requires Shaped(m) && t < TABLES
    ensures |m.tables| == TABLES && Counts(m, TABLES)[t] == |m.tables[t]|
  {
  }

  method ReadDependency(b: seq<byte>, index: nat) returns (ok: bool, dependency: Dependency)
    requires HeaderOk(b)
    ensures ok <==> index < |SourceAt(b).dependencies| && DependencyOk(SourceAt(b).dependencies[index])
    ensures ok ==> dependency == SourceAt(b).dependencies[index]
  {
    hide HeaderOk, Contents, SourceIn, CountsAt, Shaped, Counts, DependencyAt;
    ghost var m := Contents(b);
    HeaderSpan(b);
    LengthsIn(m);
    StringsAt(b);
    CountsLength(m, 1);
    if index >= CountsAt(b)[1] { return false, Dependency(0, 0); }
    var row := ReadRow(b, 1, index);
    DependencyIn(m, index);
    dependency := DependencyAt(row);
    ok := DependencyOk(dependency);
  }

  ghost predicate ExportGood(m: Image, i: nat)
    requires Shaped(m) && i < |m.tables[2]|
  {
    ExportIn(m, i);
    SymbolForm(m.tables[2][i], m.strings) && SymbolOk(SourceIn(m).exports[i])
  }

  method ReadExport(b: seq<byte>, index: nat) returns (ok: bool, symbol: Symbol)
    requires HeaderOk(b)
    ensures ok <==> index < |Contents(b).tables[2]| && ExportGood(Contents(b), index)
    ensures ok ==> index < |SourceAt(b).exports| && symbol == SourceAt(b).exports[index]
  {
    hide HeaderOk, Contents, SourceIn, NameOk, U32At, RefAt, TextAt, Inside, CountsAt, Shaped, Counts;
    ghost var m := Contents(b);
    HeaderSpan(b);
    LengthsIn(m);
    StringsAt(b);
    CountsLength(m, 2);
    symbol := Symbol(0, 0, []);
    if index >= CountsAt(b)[2] { return false, symbol; }
    var row := ReadRow(b, 2, index);
    ExportIn(m, index);
    var t := Strings(b);
    var node, kind := U32At(row, 0), U32At(row, 4);
    if node == 0 || kind > 1 { return false, symbol; }
    var name;
    ok, name := DecodedString(t, RefAt(row, 8));
    if ok { symbol := Symbol(node, kind, name); }
  }

  ghost predicate ImportGood(m: Image, i: nat)
    requires Shaped(m) && i < |m.tables[3]|
  {
    ImportIn(m, i);
    ImportForm(m.tables[3][i], m.strings) && ImportOk(SourceIn(m).imports[i])
  }

  method ReadImport(b: seq<byte>, index: nat) returns (ok: bool, entry: Import)
    requires HeaderOk(b)
    ensures ok <==> index < |Contents(b).tables[3]| && ImportGood(Contents(b), index)
    ensures ok ==> index < |SourceAt(b).imports| && entry == SourceAt(b).imports[index]
  {
    hide HeaderOk, Contents, SourceIn, NameOk, U32At, RefAt, TextAt, Inside, CountsAt, Shaped, Counts;
    ghost var m := Contents(b);
    HeaderSpan(b);
    LengthsIn(m);
    StringsAt(b);
    CountsLength(m, 3);
    entry := Import(0, 0, 0, 0, [], []);
    if index >= CountsAt(b)[3] { return false, entry; }
    var row := ReadRow(b, 3, index);
    ImportIn(m, index);
    var t := Strings(b);
    var consumer, provider, kind, flags := U32At(row, 0), U32At(row, 4), U32At(row, 8), U32At(row, 12);
    if consumer == 0 || consumer == provider || kind > 1 || flags > 1 { return false, entry; }
    var consumerName, providerName;
    ok, consumerName := DecodedString(t, RefAt(row, 16));
    if !ok { return; }
    ok, providerName := DecodedString(t, RefAt(row, 24));
    if ok { entry := Import(consumer, provider, kind, flags, consumerName, providerName); }
  }

  ghost predicate ResourceGood(m: Image, i: nat)
    requires Shaped(m) && i < |m.tables[4]|
  {
    ResourceIn(m, i);
    ResourceForm(m.tables[4][i]) && ResourceOk(SourceIn(m).resources[i])
  }

  method ReadResource(b: seq<byte>, index: nat) returns (ok: bool, resource: Resource)
    requires HeaderOk(b)
    ensures ok <==> index < |Contents(b).tables[4]| && ResourceGood(Contents(b), index)
    ensures ok ==> index < |SourceAt(b).resources| && resource == SourceAt(b).resources[index]
  {
    hide HeaderOk, Contents, SourceIn, ResourceAt, Within, Zero, CountsAt, Shaped, Counts;
    ghost var m := Contents(b);
    HeaderSpan(b);
    LengthsIn(m);
    StringsAt(b);
    CountsLength(m, 4);
    if index >= CountsAt(b)[4] { return false, Resource(0, 0, 0, 0, 0, 0, 0, []); }
    var row := ReadRow(b, 4, index);
    ResourceIn(m, index);
    resource := ResourceAt(row);
    ok := && resource.slot != 0 && resource.minimum <= resource.maximum && !Zero(resource.schema) && Zero(row[36..40])
          && Within(resource.requiredRights, resource.maximumRights);
  }

  method ReadBinding(b: seq<byte>, index: nat) returns (ok: bool, binding: Binding)
    requires HeaderOk(b)
    ensures ok <==> index < |SourceAt(b).bindings| && BindingOk(SourceAt(b).bindings[index])
    ensures ok ==> binding == SourceAt(b).bindings[index]
  {
    hide HeaderOk, Contents, SourceIn, CountsAt, Shaped, Counts, BindingAt;
    ghost var m := Contents(b);
    HeaderSpan(b);
    LengthsIn(m);
    StringsAt(b);
    CountsLength(m, 5);
    if index >= CountsAt(b)[5] { return false, Binding(0, 0); }
    var row := ReadRow(b, 5, index);
    BindingIn(m, index);
    binding := BindingAt(row);
    ok := BindingOk(binding);
  }

  // ------------------------------------------------------------------------ passes

  ghost predicate ArtifactsPass(b: seq<byte>)
    requires HeaderOk(b)
  {
    && (forall i: nat :: i < |Contents(b).tables[0]| ==> ArtifactGood(Contents(b), i))
    && Increasing(NodeIds(SourceAt(b).artifacts))
  }

  /** The binary search agrees with looking at every artifact. */
  method HasNode(b: seq<byte>, node: u32) returns (found: bool)
    requires HeaderOk(b) && ArtifactsPass(b)
    ensures found <==> Known(SourceAt(b), node)
  {
    hide HeaderOk, Contents, SourceIn, ArtifactGood, CountsAt, Shaped;
    ghost var m := Contents(b);
    HeaderSpan(b);
    LengthsIn(m);
    StringsAt(b);
    CountsLength(m, 0);
    ghost var ids := NodeIds(SourceAt(b).artifacts);
    var left: nat, right: nat := 0, CountsAt(b)[0];
    while left < right
      invariant left <= right <= |ids|
      invariant forall i :: 0 <= i < left ==> ids[i] < node
      invariant forall i :: right <= i < |ids| ==> node < ids[i]
    {
      var middle := left + (right - left) / 2;
      var ok, artifact := ReadArtifact(b, middle);
      if !ok { assert false; }
      if artifact.head.node == node {
        assert ids[middle] == node;
        return true;
      }
      if artifact.head.node < node { left := middle + 1; } else { right := middle; }
    }
    return false;
  }

  lemma StepsMean(ids: seq<nat>)
    ensures (forall k: nat :: k < |ids| ==> StepUp(ids, k)) <==> Increasing(ids)
  {
    if forall k: nat :: k < |ids| ==> StepUp(ids, k) {
      forall k: nat ensures StepUp(ids, k) { }
      StepsIncrease(ids);
    }
  }

  lemma ArtifactPositive(b: seq<byte>, i: nat)
    requires HeaderOk(b) && i < |Contents(b).tables[0]| && ArtifactGood(Contents(b), i)
    ensures |SourceAt(b).artifacts| == |Contents(b).tables[0]| && NodeIds(SourceAt(b).artifacts)[i] != 0
  {
    hide HeaderOk, Contents, SourceIn, ArtifactForm, NameOk, LifecycleOk;
    LengthsIn(Contents(b));
  }

  /** Node identifiers strictly rise from the first, and some artifact is a root. */
  method CheckArtifacts(b: seq<byte>) returns (ok: bool)
    requires HeaderOk(b)
    ensures ok <==> ArtifactsPass(b) && HasRoot(SourceAt(b).artifacts)
  {
    hide HeaderOk, Contents, SourceIn, ArtifactGood, CountsAt, Shaped, IsRoot, Increasing;
    ghost var m := Contents(b);
    HeaderSpan(b);
    LengthsIn(m);
    StringsAt(b);
    CountsLength(m, 0);
    ghost var s := SourceAt(b);
    ghost var ids := NodeIds(s.artifacts);
    StepsMean(ids);
    var prior: nat, roots := 0, 0;
    for index := 0 to CountsAt(b)[0]
      invariant forall i: nat :: i < index ==> ArtifactGood(m, i) && StepUp(ids, i)
      invariant prior == if index == 0 then 0 else ids[index - 1]
      invariant roots > 0 <==> exists i :: 0 <= i < index && IsRoot(s.artifacts[i].head.flags)
    {
      var good, artifact := ReadArtifact(b, index);
      if !good { return false; }
      assert artifact == s.artifacts[index];
      if artifact.head.node <= prior {
        ArtifactPositive(b, index);
        assert !StepUp(ids, index);
        return false;
      }
      prior := artifact.head.node;
      if IsRoot(artifact.head.flags) { roots := roots + 1; }
    }
    ok := roots != 0;
  }

  ghost predicate EdgesPass(b: seq<byte>)
    requires HeaderOk(b)
  {
    var m, s := Contents(b), SourceAt(b);
    && (forall i :: 0 <= i < |s.dependencies| ==> DependencyOk(s.dependencies[i]) && DependencyKnown(s, s.dependencies[i]))
    && (forall i: nat :: i < |m.tables[2]| ==> ExportGood(m, i))
    && (forall i :: 0 <= i < |s.exports| ==> Known(s, s.exports[i].node))
    && (forall i: nat :: i < |m.tables[3]| ==> ImportGood(m, i))
    && (forall i :: 0 <= i < |s.imports| ==> ImportKnown(s, s.imports[i]))
  }

  ghost predicate DependencyKnown(s: Source, d: Dependency) {
    Known(s, d.consumer) && Known(s, d.provider)
  }

  ghost predicate ImportKnown(s: Source, i: Import) {
    Known(s, i.consumer) && (i.provider != 0 ==> Known(s, i.provider))
  }

  method CheckDependencies(b: seq<byte>) returns (ok: bool)
    requires HeaderOk(b) && ArtifactsPass(b)
    ensures ok <==> forall i :: 0 <= i < |SourceAt(b).dependencies| ==>
        DependencyOk(SourceAt(b).dependencies[i]) && DependencyKnown(SourceAt(b), SourceAt(b).dependencies[i])
  {
    hide HeaderOk, Contents, SourceIn, CountsAt, Shaped, ArtifactsPass, DependencyOk, Known;
    ghost var m := Contents(b);
    HeaderSpan(b);
    LengthsIn(m);
    StringsAt(b);
    CountsLength(m, 1);
    ghost var s := SourceAt(b);
    for index := 0 to CountsAt(b)[1]
      invariant forall i :: 0 <= i < index ==> DependencyOk(s.dependencies[i]) && DependencyKnown(s, s.dependencies[i])
    {
      var good, d := ReadDependency(b, index);
      if !good { return false; }
      var consumer := HasNode(b, d.consumer);
      var provider := HasNode(b, d.provider);
      if !consumer || !provider {
        assert !DependencyKnown(s, s.dependencies[index]);
        return false;
      }
    }
    return true;
  }

  method CheckExports(b: seq<byte>) returns (ok: bool)
    requires HeaderOk(b) && ArtifactsPass(b)
    ensures ok <==> && (forall i: nat :: i < |Contents(b).tables[2]| ==> ExportGood(Contents(b), i))
                    && (forall i :: 0 <= i < |SourceAt(b).exports| ==> Known(SourceAt(b), SourceAt(b).exports[i].node))
  {
    hide HeaderOk, Contents, SourceIn, CountsAt, Shaped, ArtifactsPass, ExportGood, Known;
    ghost var m := Contents(b);
    HeaderSpan(b);
    LengthsIn(m);
    StringsAt(b);
    CountsLength(m, 2);
    ghost var s := SourceAt(b);
    for index := 0 to CountsAt(b)[2]
      invariant forall i: nat :: i < index ==> ExportGood(m, i)
      invariant forall i :: 0 <= i < index ==> Known(s, s.exports[i].node)
    {
      var good, symbol := ReadExport(b, index);
      if !good { return false; }
      assert symbol == s.exports[index];
      var known := HasNode(b, symbol.node);
      if !known { return false; }
    }
    return true;
  }

  method CheckImports(b: seq<byte>) returns (ok: bool)
    requires HeaderOk(b) && ArtifactsPass(b)
    ensures ok <==> && (forall i: nat :: i < |Contents(b).tables[3]| ==> ImportGood(Contents(b), i))
                    && (forall i :: 0 <= i < |SourceAt(b).imports| ==> ImportKnown(SourceAt(b), SourceAt(b).imports[i]))
  {
    hide HeaderOk, Contents, SourceIn, CountsAt, Shaped, ArtifactsPass, ImportGood, Known;
    ghost var m := Contents(b);
    HeaderSpan(b);
    LengthsIn(m);
    StringsAt(b);
    CountsLength(m, 3);
    ghost var s := SourceAt(b);
    for index := 0 to CountsAt(b)[3]
      invariant forall i: nat :: i < index ==> ImportGood(m, i)
      invariant forall i :: 0 <= i < index ==> ImportKnown(s, s.imports[i])
    {
      var good, entry := ReadImport(b, index);
      if !good { return false; }
      assert entry == s.imports[index];
      var consumer := HasNode(b, entry.consumer);
      var provider := true;
      if entry.provider != 0 { provider := HasNode(b, entry.provider); }
      if !consumer || !provider {
        assert !ImportKnown(s, s.imports[index]);
        return false;
      }
    }
    return true;
  }

  method CheckResources(b: seq<byte>) returns (ok: bool)
    requires HeaderOk(b)
    ensures ok <==> forall i: nat :: i < |Contents(b).tables[4]| ==> ResourceGood(Contents(b), i)
  {
    hide HeaderOk, Contents, SourceIn, CountsAt, Shaped, ResourceGood;
    ghost var m := Contents(b);
    HeaderSpan(b);
    LengthsIn(m);
    StringsAt(b);
    CountsLength(m, 4);
    for index := 0 to CountsAt(b)[4]
      invariant forall i: nat :: i < index ==> ResourceGood(m, i)
    {
      var good, _ := ReadResource(b, index);
      if !good { return false; }
    }
    return true;
  }

  method CheckBindings(b: seq<byte>) returns (ok: bool)
    requires HeaderOk(b) && ArtifactsPass(b)
    ensures ok <==> forall i :: 0 <= i < |SourceAt(b).bindings| ==>
        BindingOk(SourceAt(b).bindings[i]) && Known(SourceAt(b), SourceAt(b).bindings[i].node)
  {
    hide HeaderOk, Contents, SourceIn, CountsAt, Shaped, ArtifactsPass, BindingOk, Known;
    ghost var m := Contents(b);
    HeaderSpan(b);
    LengthsIn(m);
    StringsAt(b);
    CountsLength(m, 5);
    ghost var s := SourceAt(b);
    for index := 0 to CountsAt(b)[5]
      invariant forall i :: 0 <= i < index ==> BindingOk(s.bindings[i]) && Known(s, s.bindings[i].node)
    {
      var good, binding := ReadBinding(b, index);
      if !good { return false; }
      assert binding == s.bindings[index];
      var known := HasNode(b, binding.node);
      if !known { return false; }
    }
    return true;
  }

  ghost predicate ResourcesPass(b: seq<byte>)
    requires HeaderOk(b)
  {
    var m, s := Contents(b), SourceAt(b);
    && (forall i: nat :: i < |m.tables[4]| ==> ResourceGood(m, i))
    && (forall i :: 0 <= i < |s.bindings| ==> BindingOk(s.bindings[i]) && Known(s, s.bindings[i].node))
  }

  /** The passes check what decoding promises. */
  lemma PassesDecode(b: seq<byte>)
    requires HeaderOk(b)
    ensures DecodeOk(b) <==> ArtifactsPass(b) && HasRoot(SourceAt(b).artifacts) && EdgesPass(b) && ResourcesPass(b)
  {
    hide HeaderOk, Contents, SourceIn, ArtifactForm, ArtifactOk, SymbolForm, SymbolOk, ImportForm, ImportOk, ResourceForm,
      ResourceOk, DependencyOk, BindingOk, Known, Increasing, HasRoot;
    var m, s := Contents(b), SourceAt(b);
    LengthsIn(m);
    if DecodeOk(b) {
      forall i: nat | i < |m.tables[0]| ensures ArtifactGood(m, i) { }
      forall i: nat | i < |m.tables[2]| ensures ExportGood(m, i) { }
      forall i: nat | i < |m.tables[3]| ensures ImportGood(m, i) { }
      forall i: nat | i < |m.tables[4]| ensures ResourceGood(m, i) { }
    }
    if ArtifactsPass(b) && HasRoot(s.artifacts) && EdgesPass(b) && ResourcesPass(b) {
      forall i: nat | i < |m.tables[0]| ensures ArtifactForm(m.tables[0][i], m.strings) && ArtifactOk(s.artifacts[i]) {
        assert ArtifactGood(m, i);
      }
      forall i: nat | i < |m.tables[2]| ensures SymbolForm(m.tables[2][i], m.strings) && SymbolOk(s.exports[i]) {
        assert ExportGood(m, i);
      }
      forall i: nat | i < |m.tables[3]| ensures ImportForm(m.tables[3][i], m.strings) && ImportOk(s.imports[i]) {
        assert ImportGood(m, i);
      }
      forall i: nat | i < |m.tables[4]| ensures ResourceForm(m.tables[4][i]) && ResourceOk(s.resources[i]) {
        assert ResourceGood(m, i);
      }
    }
  }

  method Decode(b: seq<byte>) returns (status: Status)
    ensures status.Okay? <==> DecodeOk(b)
    ensures status.BufferTooSmall? <==> |b| < HEADER_SIZE
    ensures status.Overflow? <==> |b| >= U32
    ensures status.SchemaMismatch? <==> HEADER_SIZE <= |b| < U32 && !SchemaOk(b)
  {
    hide HeaderOk, Formed, Rules, ArtifactsPass, HasRoot, SourceAt, Contents, SchemaOk, Known, DependencyOk, DependencyKnown,
      ExportGood, ImportGood, ImportKnown, ResourceGood, BindingOk;
    status := ReadHeader(b);
    if !status.Okay? { return; }
    HeaderSpan(b);
    PassesDecode(b);
    hide DecodeOk;
    status := Malformed;
    var ok := CheckArtifacts(b);
    if !ok { return; }
    ok := CheckDependencies(b);
    if !ok { return; }
    ok := CheckExports(b);
    if !ok { return; }
    ok := CheckImports(b);
    if !ok { return; }
    ok := CheckResources(b);
    if !ok { return; }
    ok := CheckBindings(b);
    if !ok { return; }
    status := Okay;
  }
}
