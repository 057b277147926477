/** The records of a resource grant and their fixed little-endian layouts. */
module GrantRecords {
  import opened Bytes
  import opened Fields
  import opened Partitions

  const DIGEST_SIZE: nat := 32
  const HEADER_SIZE: nat := 128
  const SLOT_SIZE: nat := 64
  const OBJECT_SIZE: nat := 32
  const HANDLE_SIZE: nat := 16
  const MAX_SLOTS: nat := 16384
  const MAX_OBJECTS: nat := 65536
  const MAX_HANDLES: nat := 65536
  const CHANNEL_KIND: u32 := 4
  const ABSENT: u32 := 0
  const PRESENT: u32 := 1

  datatype Slot = Slot(id: u32, kind: u32, state: u32, schema: seq<byte>)
  datatype Object = Object(slot: u32, id: u64, rights: u64)
  datatype Handle = Handle(objectId: u64, role: u32, index: u32)

  // ------------------------------------------------------------------- records

  function SlotRecord(s: Slot, r: Range): seq<byte> {
    Le(s.id, 4) + Le(s.kind, 4) + Le(s.state, 4) + Le(r.start, 4) + Le(r.count, 4) + Zeros(12) + s.schema
  }

  function ObjectRecord(o: Object, r: Range): (s: seq<byte>)
    ensures |s| == OBJECT_SIZE
  {
    Le(o.slot, 4) + Zeros(4) + Le(o.id, 8) + Le(o.rights, 8) + Le(r.start, 4) + Le(r.count, 4)
  }

  function HandleRecord(h: Handle): (s: seq<byte>)
    ensures |s| == HANDLE_SIZE
  {
    Le(h.objectId, 8) + Le(h.role, 4) + Le(h.index, 4)
  }

  function SlotAt(b: seq<byte>, o: nat): Slot
    requires o + SLOT_SIZE <= |b|
  {
    Slot(U32At(b, o), U32At(b, o + 4), U32At(b, o + 8), b[o + 32..o + 64])
  }

  function SlotRange(b: seq<byte>, o: nat): Range
    requires o + SLOT_SIZE <= |b|
  {
    Range(U32At(b, o + 12), U32At(b, o + 16))
  }

  function ObjectAt(b: seq<byte>, o: nat): Object
    requires o + OBJECT_SIZE <= |b|
  {
    Object(U32At(b, o), U64At(b, o + 8), U64At(b, o + 16))
  }

  function ObjectRange(b: seq<byte>, o: nat): Range
    requires o + OBJECT_SIZE <= |b|
  {
    Range(U32At(b, o + 24), U32At(b, o + 28))
  }

  function HandleAt(b: seq<byte>, o: nat): Handle
    requires o + HANDLE_SIZE <= |b|
  {
    Handle(U64At(b, o), U32At(b, o + 8), U32At(b, o + 12))
  }

  predicate Small(r: Range) {
    r.start < U32 && r.count < U32
  }

  /** A slot record is what its fields say, with nothing in the reserved bytes. */
  lemma SlotCanonical(b: seq<byte>, o: nat, s: Slot, r: Range)
    requires o + SLOT_SIZE <= |b| && |s.schema| == DIGEST_SIZE && Small(r)
    ensures b[o..o + SLOT_SIZE] == SlotRecord(s, r) <==> SlotAt(b, o) == s && SlotRange(b, o) == r && Zero(b[o + 20..o + 32])
  {
    hide Le, Zeros, U32At;
    var c6 := Le(s.id, 4) + Le(s.kind, 4) + Le(s.state, 4) + Le(r.start, 4) + Le(r.count, 4) + Zeros(12);
    var c5 := Le(s.id, 4) + Le(s.kind, 4) + Le(s.state, 4) + Le(r.start, 4) + Le(r.count, 4);
    var c4 := Le(s.id, 4) + Le(s.kind, 4) + Le(s.state, 4) + Le(r.start, 4);
    var c3 := Le(s.id, 4) + Le(s.kind, 4) + Le(s.state, 4);
    PartsAt(b, o, 64, c6, s.schema);
    PartsAt(b, o, 32, c5, Zeros(12));
    PartsAt(b, o, 20, c4, Le(r.count, 4));
    PartsAt(b, o, 16, c3, Le(r.start, 4));
    PartsAt(b, o, 12, Le(s.id, 4) + Le(s.kind, 4), Le(s.state, 4));
    PartsAt(b, o, 8, Le(s.id, 4), Le(s.kind, 4));
    FieldIs(b, o, s.id);
    FieldIs(b, o + 4, s.kind);
    FieldIs(b, o + 8, s.state);
    FieldIs(b, o + 12, r.start);
    FieldIs(b, o + 16, r.count);
    ZeroIs(b[o + 20..o + 32]);
  }

  lemma ObjectCanonical(b: seq<byte>, o: nat, v: Object, r: Range)
    requires o + OBJECT_SIZE <= |b| && Small(r)
    ensures b[o..o + OBJECT_SIZE] == ObjectRecord(v, r) <==> ObjectAt(b, o) == v && ObjectRange(b, o) == r && Zero(b[o + 4..o + 8])
  {
    hide Le, Zeros, U32At, U64At;
    var c4 := Le(v.slot, 4) + Zeros(4) + Le(v.id, 8) + Le(v.rights, 8);
    var c3 := Le(v.slot, 4) + Zeros(4) + Le(v.id, 8);
    PartsAt(b, o, 32, c4 + Le(r.start, 4), Le(r.count, 4));
    PartsAt(b, o, 28, c4, Le(r.start, 4));
    PartsAt(b, o, 24, c3, Le(v.rights, 8));
    PartsAt(b, o, 16, Le(v.slot, 4) + Zeros(4), Le(v.id, 8));
    PartsAt(b, o, 8, Le(v.slot, 4), Zeros(4));
    FieldIs(b, o, v.slot);
    FieldIs(b, o + 8, v.id);
    FieldIs(b, o + 16, v.rights);
    FieldIs(b, o + 24, r.start);
    FieldIs(b, o + 28, r.count);
    ZeroIs(b[o + 4..o + 8]);
  }

  lemma HandleCanonical(b: seq<byte>, o: nat, h: Handle)
    requires o + HANDLE_SIZE <= |b|
    ensures b[o..o + HANDLE_SIZE] == HandleRecord(h) <==> HandleAt(b, o) == h
  {
    hide Le, U32At, U64At;
    PartsAt(b, o, 16, Le(h.objectId, 8) + Le(h.role, 4), Le(h.index, 4));
    PartsAt(b, o, 12, Le(h.objectId, 8), Le(h.role, 4));
    FieldIs(b, o, h.objectId);
    FieldIs(b, o + 8, h.role);
    FieldIs(b, o + 12, h.index);
  }
}
