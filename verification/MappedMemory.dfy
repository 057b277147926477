/** Shared memory as pinned mappings of transport ranges onto native ranges.

    `host` is native memory. `Flat` is what the lanes see: one byte per transport address.
 */
module MappedMemory {
  import opened Bytes
  import opened Ranges
  import opened Channel
  import opened Chains

  datatype Mapping = Mapping(base: u64, length: u64, native: u64, rights: bv32)
  datatype Arena = Arena(queueId: u32, rights: bv32, base: u64, length: u64)

  // ---------------------------------------------------------- initialization

  predicate MappingFits(m: Mapping) {
    m.native != 0 && RangeValid(m.base, m.length) && RangeValid(m.native, m.length) && RightsKnown(m.rights)
  }

  predicate MappingsApart(m: Mapping, k: Mapping) {
    !Meets(m.base, m.length, k.base, k.length) && !Meets(m.native, m.length, k.native, k.length)
  }

  ghost predicate MappingsOk(ms: seq<Mapping>) {
    && (forall i :: 0 <= i < |ms| ==> MappingFits(ms[i]))
    && (forall i, j :: 0 <= j < i < |ms| ==> MappingsApart(ms[i], ms[j]))
  }

  predicate ArenaFits(a: Arena) {
    a.queueId != 0 && RangeValid(a.base, a.length) && RightsKnown(a.rights)
  }

  ghost predicate Registered(a: Arena, ms: seq<Mapping>) {
    exists j :: 0 <= j < |ms| && Inside(a.base, a.length, ms[j].base, ms[j].length)
  }

  ghost predicate ArenasOk(arenas: seq<Arena>, ms: seq<Mapping>) {
    && (forall i :: 0 <= i < |arenas| ==> ArenaFits(arenas[i]) && Registered(arenas[i], ms))
    && (forall i, j :: 0 <= j < i < |arenas| ==> !Meets(arenas[i].base, arenas[i].length, arenas[j].base, arenas[j].length))
  }

  ghost predicate InitOk(ms: seq<Mapping>, arenas: seq<Arena>) {
    |ms| > 0 && |arenas| > 0 && MappingsOk(ms) && ArenasOk(arenas, ms)
  }

  method CheckMappings(ms: seq<Mapping>) returns (ok: bool)
    ensures ok <==> MappingsOk(ms)
  {
    for i := 0 to |ms|
      invariant MappingsOk(ms[..i])
    {
      var m := ms[i];
      if !MappingFits(m) { return false; }
      for j := 0 to i
        invariant forall k :: 0 <= k < j ==> MappingsApart(ms[i], ms[k])
      {
        var k := ms[j];
        assert k == ms[..i][j];
        OverlapIsExact(m.base, m.length, k.base, k.length);
        OverlapIsExact(m.native, m.length, k.native, k.length);
        if Overlap64(m.base, m.length, k.base, k.length) || Overlap64(m.native, m.length, k.native, k.length) {
          assert !MappingsApart(ms[i], ms[j]);
          return false;
        }
      }
    }
    assert ms[..|ms|] == ms;
    return true;
  }

  method CheckRegistered(a: Arena, ms: seq<Mapping>) returns (registered: bool)
    requires ArenaFits(a) && MappingsOk(ms)
    ensures registered <==> Registered(a, ms)
  {
    registered := false;
    for j := 0 to |ms|
      invariant registered <==> Registered(a, ms[..j])
    {
      if a.base >= ms[j].base && Sum64(a.base, a.length) <= Sum64(ms[j].base, ms[j].length) {
        assert ms[..j + 1][j] == ms[j];
        registered := true;
      }
      if Registered(a, ms[..j]) {
        var k :| 0 <= k < j && Inside(a.base, a.length, ms[..j][k].base, ms[..j][k].length);
        assert ms[..j + 1][k] == ms[k];
      }
      if Registered(a, ms[..j + 1]) {
        var k :| 0 <= k < j + 1 && Inside(a.base, a.length, ms[..j + 1][k].base, ms[..j + 1][k].length);
        assert k < j ==> ms[..j][k] == ms[k];
      }
    }
    assert ms[..|ms|] == ms;
  }

  method CheckArenas(arenas: seq<Arena>, ms: seq<Mapping>) returns (ok: bool)
    requires MappingsOk(ms)
    ensures ok <==> ArenasOk(arenas, ms)
  {
    for i := 0 to |arenas|
      invariant ArenasOk(arenas[..i], ms)
    {
      var a := arenas[i];
      if !ArenaFits(a) { return false; }
      var registered := CheckRegistered(a, ms);
      if !registered { return false; }
      for j := 0 to i
        invariant forall k :: 0 <= k < j ==> !Meets(arenas[i].base, arenas[i].length, arenas[k].base, arenas[k].length)
      {
        assert arenas[j] == arenas[..i][j];
        OverlapIsExact(a.base, a.length, arenas[j].base, arenas[j].length);
        if Overlap64(a.base, a.length, arenas[j].base, arenas[j].length) { return false; }
      }
    }
    assert arenas[..|arenas|] == arenas;
    return true;
  }

  /** What acceptance says of one mapping and one arena, field by field: rights are read, write or both. */
  lemma InitAsks(ms: seq<Mapping>, arenas: seq<Arena>, i: nat, j: nat)
    requires InitOk(ms, arenas) && i < |ms| && j < |arenas|
    ensures ms[i].native > 0 && ms[i].length > 0 && ms[i].base + ms[i].length < U64 && ms[i].native + ms[i].length < U64
    ensures arenas[j].queueId > 0 && arenas[j].length > 0 && arenas[j].base + arenas[j].length < U64
    ensures ms[i].rights in {1, 2, 3} && arenas[j].rights in {1, 2, 3}
  {
    RightsMean(ms[i].rights);
    RightsMean(arenas[j].rights);
    hide RightsKnown;
    assert MappingFits(ms[i]) && ArenaFits(arenas[j]);
  }

  /** kb2_vq_mapped_memory_init accepts exactly the tables whose mappings and arenas do not collide. */
  method Init(ms: seq<Mapping>, arenas: seq<Arena>) returns (ok: bool)
    ensures ok <==> InitOk(ms, arenas)
  {
    if |ms| == 0 || |arenas| == 0 { return false; }
    ok := CheckMappings(ms);
    if ok { ok := CheckArenas(arenas, ms); }
  }

  // -------------------------------------------------------------- resolution

  predicate Resolves(m: Mapping, a: u64, n: nat, need: bv32) {
    Inside(a, n, m.base, m.length) && HasRights(m.rights, need)
  }

  ghost predicate Reaches(ms: seq<Mapping>, a: u64, n: nat, need: bv32) {
    exists i :: 0 <= i < |ms| && Resolves(ms[i], a, n, need)
  }

  /** A nonempty range lies in at most one mapping. */
  lemma ResolvesUniquely(ms: seq<Mapping>, a: u64, n: nat, i: nat, j: nat)
    requires MappingsOk(ms) && n > 0 && i < |ms| && j < |ms| && i != j
    ensures !(Inside(a, n, ms[i].base, ms[i].length) && Inside(a, n, ms[j].base, ms[j].length))
  {
    assert if i < j then MappingsApart(ms[j], ms[i]) else MappingsApart(ms[i], ms[j]);
  }

  ghost predicate Maps(ms: seq<Mapping>, i: nat, x: int) {
    i < |ms| && In(x, ms[i].base, ms[i].length)
  }

  ghost predicate Mapped(ms: seq<Mapping>, x: int) {
    exists i: nat :: Maps(ms, i, x)
  }

  ghost function Holder(ms: seq<Mapping>, x: int): (i: nat)
    requires Mapped(ms, x)
    ensures Maps(ms, i, x)
  {
    var i: nat :| Maps(ms, i, x);
    i
  }

  /** The native address behind a mapped transport address. */
  ghost function Native(ms: seq<Mapping>, x: int): int
    requires Mapped(ms, x)
  {
    ms[Holder(ms, x)].native + (x - ms[Holder(ms, x)].base)
  }

  lemma NativeIs(ms: seq<Mapping>, i: nat, x: int)
    requires MappingsOk(ms) && Maps(ms, i, x)
    ensures Mapped(ms, x) && Native(ms, x) == ms[i].native + (x - ms[i].base)
  {
    if i != Holder(ms, x) { ResolvesUniquely(ms, x, 1, i, Holder(ms, x)); }
  }

  /** Different transport addresses are different bytes. */
  lemma NativeInjective(ms: seq<Mapping>, x: int, y: int)
    requires MappingsOk(ms) && Mapped(ms, x) && Mapped(ms, y) && x != y
    ensures Native(ms, x) != Native(ms, y)
  {
    var i: nat :| Maps(ms, i, x);
    var j: nat :| Maps(ms, j, y);
    NativeIs(ms, i, x);
    NativeIs(ms, j, y);
    if i < j { assert MappingsApart(ms[j], ms[i]); }
    if j < i { assert MappingsApart(ms[i], ms[j]); }
  }

  /** The flat byte map over transport addresses that mapped memory stands for. */
  ghost function Flat(ms: seq<Mapping>, host: Memory): Memory {
    x => if Mapped(ms, x) then host(Native(ms, x)) else 0
  }

  /** Native memory behind a range inside one mapping is the flat range. */
  lemma FlatRead(ms: seq<Mapping>, host: Memory, i: nat, a: u64, n: nat)
    requires MappingsOk(ms) && i < |ms| && Inside(a, n, ms[i].base, ms[i].length)
    ensures ReadMem(host, ms[i].native + (a - ms[i].base), n) == ReadMem(Flat(ms, host), a, n)
  {
    forall k | 0 <= k < n
      ensures ReadMem(host, ms[i].native + (a - ms[i].base), n)[k] == ReadMem(Flat(ms, host), a, n)[k]
    {
      assert Maps(ms, i, a + k);
      NativeIs(ms, i, a + k);
    }
  }

  /** A native store behind one mapping is the flat store, at every mapped address. */
  lemma FlatWrite(ms: seq<Mapping>, host: Memory, i: nat, a: u64, bytes: seq<byte>)
    requires MappingsOk(ms) && i < |ms| && Inside(a, |bytes|, ms[i].base, ms[i].length)
    ensures var host' := WriteMem(host, ms[i].native + (a - ms[i].base), bytes);
            forall x :: Mapped(ms, x) ==> Flat(ms, host')(x) == WriteMem(Flat(ms, host), a, bytes)(x)
  {
    var at := ms[i].native + (a - ms[i].base);
    forall x | Mapped(ms, x) ensures In(Native(ms, x), at, |bytes|) <==> In(x, a, |bytes|)
      ensures In(x, a, |bytes|) ==> Native(ms, x) - at == x - a
    {
      var j: nat :| Maps(ms, j, x);
      NativeIs(ms, j, x);
      if j < i { assert MappingsApart(ms[i], ms[j]); }
      if i < j { assert MappingsApart(ms[j], ms[i]); }
    }
  }

  /** After a store at one transport range, any disjoint transport range reads as before, wherever the two are mapped, and
      the range itself reads as stored. */
  lemma DisjointKept(ms: seq<Mapping>, host: Memory, i: nat, a: u64, bytes: seq<byte>, j: nat, b: u64, n: nat)
    requires MappingsOk(ms) && i < |ms| && Inside(a, |bytes|, ms[i].base, ms[i].length)
    requires j < |ms| && Inside(b, n, ms[j].base, ms[j].length)
    ensures var host' := WriteMem(host, ms[i].native + (a - ms[i].base), bytes);
            var at := ms[j].native + (b - ms[j].base);
            && (!Meets(a, |bytes|, b, n) ==> ReadMem(host', at, n) == ReadMem(host, at, n))
            && (a == b && n == |bytes| ==> ReadMem(host', at, n) == bytes)
  {
    var host' := WriteMem(host, ms[i].native + (a - ms[i].base), bytes);
    FlatWrite(ms, host, i, a, bytes);
    FlatRead(ms, host', j, b, n);
    FlatRead(ms, host, j, b, n);
    hide Native, WriteMem, MappingsOk, Flat;
    StoredView(ms, j, Flat(ms, host), Flat(ms, host'), a, bytes, b, n);
  }

  lemma StoredView(ms: seq<Mapping>, j: nat, m: Memory, m': Memory, a: int, bytes: seq<byte>, b: u64, n: nat)
    requires j < |ms| && Inside(b, n, ms[j].base, ms[j].length)
    requires forall x :: Mapped(ms, x) ==> m'(x) == WriteMem(m, a, bytes)(x)
    ensures !Meets(a, |bytes|, b, n) ==> ReadMem(m', b, n) == ReadMem(m, b, n)
    ensures a == b && n == |bytes| ==> ReadMem(m', b, n) == bytes
  {
    var flat := WriteMem(m, a, bytes);
    forall x | b <= x < b + n ensures m'(x) == flat(x) { assert Maps(ms, j, x); }
    ReadSame(flat, m', b, n);
    if !Meets(a, |bytes|, b, n) { ReadSame(m, flat, b, n); }
    WriteHolds(m, a, bytes);
  }

  /** The two bytes of an index word are reached, at an even address on both sides. */
  ghost predicate WordReaches(ms: seq<Mapping>, a: u64, need: bv32) {
    Reaches(ms, a, 2, need) && a % 2 == 0 && Mapped(ms, a) && Native(ms, a) % 2 == 0
  }

  lemma Unreached(ms: seq<Mapping>, a: u64, need: bv32)
    requires !Reaches(ms, a, 2, need)
    ensures !WordReaches(ms, a, need)
  {
  }

  lemma WordAt(ms: seq<Mapping>, i: nat, a: u64, need: bv32)
    requires MappingsOk(ms) && i < |ms| && Resolves(ms[i], a, 2, need)
    ensures WordReaches(ms, a, need) <==> a % 2 == 0 && (ms[i].native + (a - ms[i].base)) % 2 == 0
  {
    hide HasRights;
    assert Maps(ms, i, a);
    NativeIs(ms, i, a);
  }

  class MappedMemory {
    const mappings: seq<Mapping>
    const arenas: seq<Arena>
    var host: Memory

    ghost predicate Valid() {
      InitOk(mappings, arenas)
    }

    ghost function View(): Memory
      reads this
    {
      Flat(mappings, host)
    }

    constructor (ms: seq<Mapping>, arenas: seq<Arena>, host: Memory)
      requires InitOk(ms, arenas)
      ensures Valid() && this.mappings == ms && this.arenas == arenas && this.host == host
    {
      this.mappings, this.arenas, this.host := ms, arenas, host;
    }

    /** The first mapping that holds the whole range with the rights asked for. */
    method Resolve(a: u64, n: nat, need: bv32) returns (found: bool, at: nat, ghost i: nat)
      requires Valid()
      ensures found <==> Reaches(mappings, a, n, need)
      ensures found ==> i < |mappings| && Resolves(mappings[i], a, n, need) && at == mappings[i].native + (a - mappings[i].base)
    {
      hide InitOk, HasRights;
      for k := 0 to |mappings|
        invariant forall j :: 0 <= j < k ==> !Resolves(mappings[j], a, n, need)
      {
        var m := mappings[k];
        if a >= m.base && HasRights(m.rights, need) {
          var offset := a - m.base;
          if offset <= m.length && n <= m.length - offset { return true, m.native + offset, k; }
        }
      }
      return false, 0, 0;
    }

    method Read(a: u64, n: nat) returns (ok: bool, bytes: seq<byte>)
      requires Valid()
      ensures ok <==> Reaches(mappings, a, n, RIGHT_READ)
      ensures ok ==> bytes == ReadMem(View(), a, n)
    {
      var found, at, i := Resolve(a, n, RIGHT_READ);
      if !found { return false, []; }
      FlatRead(mappings, host, i, a, n);
      return true, ReadMem(host, at, n);
    }

    method Write(a: u64, bytes: seq<byte>) returns (ok: bool)
      requires Valid()
      modifies this
      ensures Valid() && (ok <==> Reaches(mappings, a, |bytes|, RIGHT_WRITE))
      ensures ok ==> forall x :: Mapped(mappings, x) ==> View()(x) == WriteMem(old(View()), a, bytes)(x)
      ensures !ok ==> host == old(host)
    {
      var found, at, i := Resolve(a, |bytes|, RIGHT_WRITE);
      if !found { return false; }
      FlatWrite(mappings, host, i, a, bytes);
      host := WriteMem(host, at, bytes);
      return true;
    }

    /** Index words are 16-bit little-endian and naturally aligned, in transport and native addresses. */
    method LoadIndex(a: u64) returns (ok: bool, value: u16)
      requires Valid()
      ensures ok <==> WordReaches(mappings, a, RIGHT_READ)
      ensures ok ==> Le(value, 2) == ReadMem(View(), a, 2)
    {
      hide WordReaches, HasRights;
      var found, at, i := Resolve(a, 2, RIGHT_READ);
      if found { WordAt(mappings, i, a, RIGHT_READ); } else { Unreached(mappings, a, RIGHT_READ); }
      if !found || a % 2 != 0 || at % 2 != 0 { return false, 0; }
      FlatRead(mappings, host, i, a, 2);
      FieldCanonical(ReadMem(host, at, 2));
      return true, Value(ReadMem(host, at, 2));
    }

    method StoreIndex(a: u64, value: u16) returns (ok: bool)
      requires Valid()
      modifies this
      ensures Valid()
      ensures ok <==> WordReaches(mappings, a, RIGHT_WRITE)
      ensures ok ==> forall x :: Mapped(mappings, x) ==> View()(x) == WriteMem(old(View()), a, Le(value, 2))(x)
      ensures !ok ==> host == old(host)
    {
      hide WordReaches, HasRights;
      var found, at, i := Resolve(a, 2, RIGHT_WRITE);
      if found { WordAt(mappings, i, a, RIGHT_WRITE); } else { Unreached(mappings, a, RIGHT_WRITE); }
      if !found || a % 2 != 0 || at % 2 != 0 { return false; }
      FlatWrite(mappings, host, i, a, Le(value, 2));
      host := WriteMem(host, at, Le(value, 2));
      return true;
    }

    method PayloadAllowed(queueId: u32, a: u64, n: u64, need: bv32) returns (ok: bool)
      requires Valid()
      ensures ok <==> Allows(arenas, queueId, a, n, need)
    {
      if !RangeValid(a, n) { return false; }
      for i := 0 to |arenas|
        invariant forall j :: 0 <= j < i ==> !Grants(arenas[j], queueId, a, n, need)
      {
        var r := arenas[i];
        if r.queueId == queueId && HasRights(r.rights, need) && a >= r.base && Sum64(a, n) <= Sum64(r.base, r.length) {
          assert Grants(arenas[i], queueId, a, n, need);
          return true;
        }
      }
      return false;
    }
  }

  // ------------------------------------------------------------------ arenas

  predicate Grants(r: Arena, queueId: u32, a: u64, n: u64, need: bv32) {
    r.queueId == queueId && HasRights(r.rights, need) && Inside(a, n, r.base, r.length)
  }

  ghost predicate Allows(arenas: seq<Arena>, queueId: u32, a: u64, n: u64, need: bv32) {
    RangeValid(a, n) && exists i :: 0 <= i < |arenas| && Grants(arenas[i], queueId, a, n, need)
  }

  /** Ranges allowed to different queues share no byte; an allowed range lies in one mapping. */
  lemma ArenasIsolate(ms: seq<Mapping>, arenas: seq<Arena>, p: u32, a: u64, n: u64, need: bv32, q: u32, b: u64, m: u64, want: bv32)
    requires InitOk(ms, arenas) && Allows(arenas, p, a, n, need) && Allows(arenas, q, b, m, want) && p != q
    ensures !Meets(a, n, b, m)
  {
    var i :| 0 <= i < |arenas| && Grants(arenas[i], p, a, n, need);
    var j :| 0 <= j < |arenas| && Grants(arenas[j], q, b, m, want);
    assert i != j;
    assert !Meets(arenas[i].base, arenas[i].length, arenas[j].base, arenas[j].length);
  }

  lemma AllowedIsMapped(ms: seq<Mapping>, arenas: seq<Arena>, p: u32, a: u64, n: u64, need: bv32)
    requires InitOk(ms, arenas) && Allows(arenas, p, a, n, need)
    ensures exists i :: 0 <= i < |ms| && Inside(a, n, ms[i].base, ms[i].length)
  {
    var i :| 0 <= i < |arenas| && Grants(arenas[i], p, a, n, need);
    assert Registered(arenas[i], ms);
    var j :| 0 <= j < |ms| && Inside(arenas[i].base, arenas[i].length, ms[j].base, ms[j].length);
    assert Inside(a, n, ms[j].base, ms[j].length);
  }

  /** The lane's payload policy is the arena table. */
  ghost predicate Policed(l: Lane, arenas: seq<Arena>) {
    forall id, a, n, need :: l.policy(id, a, n, need) ==> Allows(arenas, id, a, n, need)
  }

  /** Chains of different lanes of one channel share no payload byte. */
  lemma LanesIsolated(ms: seq<Mapping>, arenas: seq<Arena>, l: Lane, k: Lane, v: Wire, w: Wire, i: nat, j: nat)
    requires InitOk(ms, arenas) && Policed(l, arenas) && Policed(k, arenas)
    requires l.Valid() && k.Valid() && l.Queue().id != k.Queue().id
    requires ValidWire(l, v) && ValidWire(k, w) && i < |v.segments| && j < |w.segments|
    ensures !Meets(v.segments[i].address, v.segments[i].length, w.segments[j].address, w.segments[j].length)
  {
    var s, t := v.segments[i], w.segments[j];
    assert SegmentOk(l, v, i) && SegmentOk(k, w, j);
    if s.length != 0 && t.length != 0 {
      ArenasIsolate(ms, arenas, l.Queue().id, s.address, s.length, Need(s), k.Queue().id, t.address, t.length, Need(t));
    }
  }
}
