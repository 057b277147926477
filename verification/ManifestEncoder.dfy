/** The encoder of closure manifests: sizes first, then rows and names with one cursor each. */
module ManifestEncoder {
  import opened Bytes
  import opened Fields
  import opened Names
  import opened ManifestLayout
  import opened ManifestRecords
  import opened Manifest
  import opened ManifestRoundTrip

  const SIZE_MAX: nat := U64 - 1

  // ------------------------------------------------------------------------- sizes

  /** Checked accumulation, without computing a product that could wrap. */
  method AddSize(value: nat, count: nat, item: nat) returns (ok: bool, total: nat)
    requires value <= SIZE_MAX
    ensures ok <==> value + count * item <= SIZE_MAX
    ensures ok ==> total == value + count * item
  {
    if count != 0 && item > (SIZE_MAX - value) / count {
      Exceeds(SIZE_MAX - value, count, item);
      return false, value;
    }
    if count != 0 { StaysWithin(SIZE_MAX - value, count, item); }
    return true, value + count * item;
  }

  lemma Exceeds(room: nat, count: nat, item: nat)
    requires count > 0 && item > room / count
    ensures count * item > room
  {
    assert room < count * (room / count) + count;
    assert count * item >= count * (room / count + 1);
  }

  lemma StaysWithin(room: nat, count: nat, item: nat)
    requires count > 0 && item <= room / count
    ensures count * item <= room
  {
    assert count * (room / count) <= room;
    assert count * item <= count * (room / count);
  }

  method SourceValid(s: Source) returns (ok: bool)
    ensures ok <==> Counted(s) && forall i :: 0 <= i < |s.resources| ==> !Zero(s.resources[i].schema)
  {
    hide Zero;
    if |s.artifacts| == 0 || |s.artifacts| > LIMITS[0] || |s.dependencies| > LIMITS[1] || |s.exports| > LIMITS[2]
       || |s.imports| > LIMITS[3] || |s.resources| > LIMITS[4] || |s.bindings| > LIMITS[5] {
      return false;
    }
    for index := 0 to |s.resources|
      invariant forall i :: 0 <= i < index ==> !Zero(s.resources[i].schema)
    {
      if Zero(s.resources[index].schema) { return false; }
    }
    return true;
  }

  method LifecycleNamed(flags: u32, name: Name) returns (ok: bool)
    ensures ok <==> LifecycleOk(flags, name)
  {
    hide NameOk;
    if IsNative(flags) { return |name| == 0; }
    ok := NameValid(name);
  }

  method ArtifactNames(a: Artifact) returns (ok: bool)
    ensures ok <==> ArtifactNamed(a)
  {
    hide NameOk, LifecycleOk;
    ok := NameValid(a.namespace);
    if !ok { return; }
    ok := LifecycleNamed(a.head.flags, a.init);
    if !ok { return; }
    ok := LifecycleNamed(a.head.flags, a.quiesce);
    if !ok { return; }
    ok := LifecycleNamed(a.head.flags, a.cleanup);
  }

  lemma NameShort(a: Artifact)
    requires ArtifactNamed(a)
    ensures |a.namespace| <= NAME_MAX && |a.init| <= NAME_MAX && |a.quiesce| <= NAME_MAX && |a.cleanup| <= NAME_MAX
  {
  }

  /** The precomputed size is the length of the string table, and its overflow guards never fire. */
  method ArtifactStrings(s: Source) returns (ok: bool, size: nat)
    requires Counted(s)
    ensures ok <==> forall i :: 0 <= i < |s.artifacts| ==> ArtifactNamed(s.artifacts[i])
    ensures ok ==> size == |ArtifactText(s.artifacts, |s.artifacts|)| <= |s.artifacts| * 508
  {
    hide ArtifactNamed;
    size := 0;
    for index := 0 to |s.artifacts|
      invariant forall i :: 0 <= i < index ==> ArtifactNamed(s.artifacts[i])
      invariant size == |ArtifactText(s.artifacts, index)| <= index * 508
    {
      var a := s.artifacts[index];
      ok := ArtifactNames(a);
      if !ok { return; }
      NameShort(a);
      ok, size := AddSize(size, 1, |a.namespace|);
      assert ok;
      ok, size := AddSize(size, 1, |a.init|);
      assert ok;
      ok, size := AddSize(size, 1, |a.quiesce|);
      assert ok;
      ok, size := AddSize(size, 1, |a.cleanup|);
      assert ok;
    }
    ok := true;
  }

  method SourceStringSize(s: Source) returns (ok: bool, size: nat)
    requires Counted(s)
    ensures ok <==> Named(s)
    ensures ok ==> size == |Text(s)| < U32
  {
    hide ArtifactNamed, ArtifactText;
    ok, size := ArtifactStrings(s);
    if !ok { return; }
    for index := 0 to |s.exports|
      invariant forall i :: 0 <= i < index ==> NameOk(s.exports[i].name)
      invariant size == |ExportText(s, index)| <= |s.artifacts| * 508 + index * 127
    {
      ok := NameValid(s.exports[index].name);
      if !ok { return; }
      ok, size := AddSize(size, 1, |s.exports[index].name|);
      assert ok;
    }
    for index := 0 to |s.imports|
      invariant forall i :: 0 <= i < index ==> NameOk(s.imports[i].consumerName) && NameOk(s.imports[i].providerName)
      invariant size == |ImportText(s, index)| <= |s.artifacts| * 508 + |s.exports| * 127 + index * 254
    {
      ok := NameValid(s.imports[index].consumerName);
      if !ok { return; }
      ok := NameValid(s.imports[index].providerName);
      if !ok { return; }
      ok, size := AddSize(size, 1, |s.imports[index].consumerName|);
      assert ok;
      ok, size := AddSize(size, 1, |s.imports[index].providerName|);
      assert ok;
    }
    ok := true;
  }

  /** The encoded size, for exactly the sources that can be encoded. */
  method EncodedSize(s: Source) returns (ok: bool, size: nat)
    requires Digests(s)
    ensures ok <==> Encodable(s)
    ensures ok ==> size == |Encoded(s)| < U32
  {
    hide Digests, Named, Zero, Written, ImageOf, Text;
    var counted := SourceValid(s);
    if !counted { return false, 0; }
    size := 0;
    var strings;
    ok, strings := SourceStringSize(s);
    if !ok { return; }
    EncodedLength(s);
    ok, size := AddSize(HEADER_SIZE, |s.artifacts|, SIZES[0]);
    assert ok;
    ok, size := AddSize(size, |s.dependencies|, SIZES[1]);
    assert ok;
    ok, size := AddSize(size, |s.exports|, SIZES[2]);
    assert ok;
    ok, size := AddSize(size, |s.imports|, SIZES[3]);
    assert ok;
    ok, size := AddSize(size, |s.resources|, SIZES[4]);
    assert ok;
    ok, size := AddSize(size, |s.bindings|, SIZES[5]);
    assert ok;
    ok, size := AddSize(size, 1, strings);
    assert ok;
  }

  function TablesLength(s: Source): nat {
    HEADER_SIZE + |s.artifacts| * 96 + |s.dependencies| * 8 + |s.exports| * 16 + |s.imports| * 32 + |s.resources| * 72
    + |s.bindings| * 8
  }

  lemma EncodedLength(s: Source)
    requires Encodable(s)
    ensures |Encoded(s)| == TablesLength(s) + |Text(s)| && |Encoded(s)| < U32
    ensures Offset(Counts(ImageOf(s), TABLES), TABLES) == TablesLength(s)
  {
    hide Digests, Named, Written, ImageOf, Text, Counts;
    var c := Counts(ImageOf(s), TABLES);
    ShapedImage(s);
    CountsOf(s);
    LimitedOf(s);
    WrittenSize(ImageOf(s));
    StringsOf(s);
    TablesSmall(c);
    TextSmall(s);
    assert Offset(c, 1) == 128 + c[0] * 96 && Offset(c, 2) == Offset(c, 1) + c[1] * 8;
    assert Offset(c, 3) == Offset(c, 2) + c[2] * 16 && Offset(c, 4) == Offset(c, 3) + c[3] * 32;
    assert Offset(c, 5) == Offset(c, 4) + c[4] * 72 && Offset(c, 6) == Offset(c, 5) + c[5] * 8;
  }

  // ------------------------------------------------------------------------ buffer

  /** How far the encoder has come: rows done, names appended at `base`, and what lies beyond `size`. */
  datatype Progress = Progress(done: seq<byte>, base: nat, text: seq<byte>, size: nat, tail: seq<byte>) {
    ghost function Row(x: seq<byte>): Progress {
      this.(done := done + x)
    }

    ghost function Name(x: seq<byte>): Progress {
      this.(text := text + x)
    }
  }

  /** The buffer shows the progress, and is clear between the rows and the string table. */
  ghost predicate Holding(b: seq<byte>, g: Progress) {
    && |g.done| <= g.base && g.base + |g.text| <= g.size <= |b| && b[..|g.done|] == g.done && Zero(b[|g.done|..g.base])
    && b[g.base..g.base + |g.text|] == g.text && b[g.size..] == g.tail
  }

  lemma HoldingRow(b: seq<byte>, c: seq<byte>, g: Progress, x: seq<byte>)
    requires Holding(b, g) && |c| == |b| && |g.done| + |x| <= g.base
    requires c[..|g.done| + |x|] == b[..|g.done|] + x && c[|g.done| + |x|..] == b[|g.done| + |x|..]
    ensures Holding(c, g.Row(x))
  {
    var at := |g.done| + |x|;
    assert c[..at] == g.done + x;
    forall k | at <= k < |c| ensures c[k] == b[k] { assert c[at..][k - at] == b[at..][k - at]; }
    forall k | 0 <= k < g.base - at ensures c[at..g.base][k] == 0 { assert b[|g.done|..g.base][k + |x|] == 0; }
    assert c[g.base..g.base + |g.text|] == b[g.base..g.base + |g.text|];
    assert c[g.size..] == b[g.size..];
  }

  lemma HoldingName(b: seq<byte>, c: seq<byte>, g: Progress, x: seq<byte>)
    requires Holding(b, g) && |c| == |b| && g.base + |g.text| + |x| <= g.size
    requires var at := g.base + |g.text|; c[..at + |x|] == b[..at] + x && c[at + |x|..] == b[at + |x|..]
    ensures Holding(c, g.Name(x))
  {
    var base, at := g.base, g.base + |g.text|;
    forall k | 0 <= k < at ensures c[k] == b[k] { assert c[..at + |x|][k] == (b[..at] + x)[k]; }
    forall k | at + |x| <= k < |c| ensures c[k] == b[k] { assert c[at + |x|..][k - at - |x|] == b[at + |x|..][k - at - |x|]; }
    assert c[..|g.done|] == b[..|g.done|] && c[|g.done|..base] == b[|g.done|..base] && c[base..at] == b[base..at];
    assert c[at..at + |x|] == c[..at + |x|][at..] == x;
    assert c[base..at + |x|] == c[base..at] + c[at..at + |x|];
    assert c[g.size..] == b[g.size..];
  }

  /** Bytes left clear are part of the record. */
  lemma Skip(b: seq<byte>, g: Progress, n: nat)
    requires Holding(b, g) && |g.done| + n <= g.base
    ensures Holding(b, g.Row(Zeros(n)))
  {
    var at := |g.done|;
    var gap, rest := b[at..at + n], b[at + n..g.base];
    forall i | 0 <= i < n ensures gap[i] == 0 { assert gap[i] == b[at..g.base][i]; }
    forall i | 0 <= i < |rest| ensures rest[i] == 0 { assert rest[i] == b[at..g.base][n + i]; }
    ZeroIs(gap);
    assert b[..at + n] == b[..at] + gap;
  }

  method PutRow(buffer: array<byte>, at: nat, x: seq<byte>, ghost g: Progress)
    requires Holding(buffer[..], g) && at == |g.done| && at + |x| <= g.base
    modifies buffer
    ensures Holding(buffer[..], g.Row(x))
  {
    ghost var before := buffer[..];
    Store(buffer, at, x);
    assert buffer[..][..at + |x|] == before[..at] + x && buffer[..][at + |x|..] == before[at + |x|..];
    HoldingRow(before, buffer[..], g, x);
  }

  method PutName(buffer: array<byte>, at: nat, x: seq<byte>, ghost g: Progress)
    requires Holding(buffer[..], g) && at == g.base + |g.text| && at + |x| <= g.size
    modifies buffer
    ensures Holding(buffer[..], g.Name(x))
  {
    ghost var before := buffer[..];
    Store(buffer, at, x);
    assert buffer[..][..at + |x|] == before[..at] + x && buffer[..][at + |x|..] == before[at + |x|..];
    HoldingName(before, buffer[..], g, x);
  }

  /** Append a name at the cursor and store the reference to it; an empty name is stored as a zero reference. */
  method StoreName(buffer: array<byte>, at: nat, base: nat, cursor: nat, name: Name, ghost g: Progress) returns (next: nat)
    requires Holding(buffer[..], g) && at == |g.done| && at + 8 <= g.base && base == g.base && cursor == |g.text|
    requires base + cursor + |name| <= g.size
    modifies buffer
    ensures Holding(buffer[..], g.Name(name).Row(RefBytes(RefTo(cursor, name)))) && next == cursor + |name|
  {
    hide Holding, Pair;
    if name == [] {
      assert g.Name(name) == g;
      PutRow(buffer, at, Pair(0, 0), g);
      return cursor;
    }
    PutName(buffer, base + cursor, name, g);
    PutRow(buffer, at, Pair(cursor, |name|), g.Name(name));
    next := cursor + |name|;
  }

  method StoreArtifact(buffer: array<byte>, at: nat, base: nat, cursor: nat, a: Artifact, ghost g: Progress) returns (next: nat)
    requires Holding(buffer[..], g) && at == |g.done| && at + 96 <= g.base && base == g.base && cursor == |g.text|
    requires |a.head.digest| == DIGEST_SIZE
    requires base + cursor + |a.namespace| + |a.init| + |a.quiesce| + |a.cleanup| <= g.size
    modifies buffer
    ensures next == cursor + |a.namespace| + |a.init| + |a.quiesce| + |a.cleanup|
    ensures Holding(
              buffer[..], g.Name(a.namespace).Name(a.init).Name(a.quiesce).Name(a.cleanup)
              .Row(ArtifactRow(a.head, RefsTo(a, cursor))))
  {
    hide Holding, RefBytes, RefTo, HeadBytes, Zeros;
    HeadLength(a.head);
    StoreHead(buffer, at, a.head, g);
    ghost var g1, r1 := g.Row(HeadBytes(a.head)), RefBytes(RefTo(cursor, a.namespace));
    next := StoreName(buffer, at + 56, base, cursor, a.namespace, g1);
    ghost var g2, r2 := g1.Name(a.namespace).Row(r1), RefBytes(RefTo(next, a.init));
    next := StoreName(buffer, at + 64, base, next, a.init, g2);
    ghost var g3, r3 := g2.Name(a.init).Row(r2), RefBytes(RefTo(next, a.quiesce));
    next := StoreName(buffer, at + 72, base, next, a.quiesce, g3);
    ghost var g4, r4 := g3.Name(a.quiesce).Row(r3), RefBytes(RefTo(next, a.cleanup));
    next := StoreName(buffer, at + 80, base, next, a.cleanup, g4);
    ghost var g5 := g4.Name(a.cleanup).Row(r4);
    Skip(buffer[..], g5, 8);
    Regroup(g.done, HeadBytes(a.head), r1, r2, r3, r4, Zeros(8));
  }

  lemma Regroup(d: seq<byte>, h: seq<byte>, a: seq<byte>, b: seq<byte>, c: seq<byte>, e: seq<byte>, z: seq<byte>)
    ensures d + h + a + b + c + e + z == d + (h + (a + b + c + e) + z)
  {
  }

  method StoreHead(buffer: array<byte>, at: nat, h: ArtifactHead, ghost g: Progress)
    requires Holding(buffer[..], g) && at == |g.done| && at + 56 <= g.base && |h.digest| == DIGEST_SIZE
    modifies buffer
    ensures Holding(buffer[..], g.Row(HeadBytes(h)))
  {
    hide Holding, Le, Zeros;
    PutRow(buffer, at, Pair(h.node, h.kind), g);
    ghost var r := Pair(h.node, h.kind);
    PutRow(buffer, at + 8, Le(h.flags, 4), g.Row(r));
    Longer(g.done, r, Le(h.flags, 4));
    r := r + Le(h.flags, 4);
    Skip(buffer[..], g.Row(r), 4);
    Longer(g.done, r, Zeros(4));
    r := r + Zeros(4);
    PutRow(buffer, at + 16, Le(h.size, 8), g.Row(r));
    Longer(g.done, r, Le(h.size, 8));
    r := r + Le(h.size, 8);
    PutRow(buffer, at + 24, h.digest, g.Row(r));
    Longer(g.done, r, h.digest);
  }

  method StoreResource(buffer: array<byte>, at: nat, x: Resource, ghost g: Progress)
    requires Holding(buffer[..], g) && at == |g.done| && at + 72 <= g.base && |x.schema| == DIGEST_SIZE
    modifies buffer
    ensures Holding(buffer[..], g.Row(ResourceRow(x)))
  {
    hide Holding, Le, Zeros, Pair;
    PutRow(buffer, at, Pair(x.slot, x.kind), g);
    ghost var r := Pair(x.slot, x.kind);
    PutRow(buffer, at + 8, Pair(x.minimum, x.maximum), g.Row(r));
    Longer(g.done, r, Pair(x.minimum, x.maximum));
    r := r + Pair(x.minimum, x.maximum);
    PutRow(buffer, at + 16, Le(x.requiredRights, 8), g.Row(r));
    Longer(g.done, r, Le(x.requiredRights, 8));
    r := r + Le(x.requiredRights, 8);
    PutRow(buffer, at + 24, Le(x.maximumRights, 8), g.Row(r));
    Longer(g.done, r, Le(x.maximumRights, 8));
    r := r + Le(x.maximumRights, 8);
    PutRow(buffer, at + 32, Le(x.flags, 4), g.Row(r));
    Longer(g.done, r, Le(x.flags, 4));
    r := r + Le(x.flags, 4);
    Skip(buffer[..], g.Row(r), 4);
    Longer(g.done, r, Zeros(4));
    r := r + Zeros(4);
    PutRow(buffer, at + 40, x.schema, g.Row(r));
    Longer(g.done, r, x.schema);
  }
}
