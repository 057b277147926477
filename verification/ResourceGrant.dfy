/** Resource grants: which sources are valid, how they are encoded, and which byte strings decode. */
module ResourceGrant {
  import opened Bytes
  import opened Fields
  import opened Partitions
  import opened GrantRecords

  const IDENTITY: seq<byte> := [0x64, 0x65, 0x76, 0x00]
  const SCHEMA: seq<byte> := [
    0x37, 0x36, 0x59, 0xa5, 0x69, 0x0b, 0x62, 0x27, 0x97, 0x79, 0x93, 0x59, 0x3e, 0x81, 0x6c, 0x9c,
    0x8b, 0x3b, 0x9f, 0xca, 0xb5, 0x04, 0x29, 0xa3, 0x76, 0x5d, 0xff, 0xc6, 0xb2, 0xb5, 0xeb, 0xe2
  ]

  datatype Source = Source(
    generation: u64, manifest: seq<byte>, slots: seq<Slot>, objects: seq<Object>, handles: seq<Handle>)

  /** Digests have their fixed size. */
  ghost predicate Shaped(s: Source) {
    |s.manifest| == DIGEST_SIZE && forall i :: 0 <= i < |s.slots| ==> |s.slots[i].schema| == DIGEST_SIZE
  }

  function SlotIds(slots: seq<Slot>): (r: seq<nat>)
    ensures |r| == |slots| && forall i :: 0 <= i < |r| ==> r[i] == slots[i].id
  {
    if slots == [] then [] else SlotIds(slots[..|slots| - 1]) + [slots[|slots| - 1].id]
  }

  function ObjectSlots(os: seq<Object>): (r: seq<nat>)
    ensures |r| == |os| && forall i :: 0 <= i < |r| ==> r[i] == os[i].slot
  {
    if os == [] then [] else ObjectSlots(os[..|os| - 1]) + [os[|os| - 1].slot]
  }

  function ObjectIds(os: seq<Object>): (r: seq<nat>)
    ensures |r| == |os| && forall i :: 0 <= i < |r| ==> r[i] == os[i].id
  {
    if os == [] then [] else ObjectIds(os[..|os| - 1]) + [os[|os| - 1].id]
  }

  function HandleObjects(hs: seq<Handle>): (r: seq<nat>)
    ensures |r| == |hs| && forall i :: 0 <= i < |r| ==> r[i] == hs[i].objectId
  {
    if hs == [] then [] else HandleObjects(hs[..|hs| - 1]) + [hs[|hs| - 1].objectId]
  }

  // ------------------------------------------------------------ valid sources

  /** The rights of a resource type are its low bits. */
  function RightsMask(kind: u32): nat {
    match kind
    case 0 => 15
    case 1 => 7
    case 2 => 15
    case 3 => 3
    case 4 => 3
    case _ => 0
  }

  predicate SlotOk(s: Slot) {
    s.id != 0 && s.kind <= CHANNEL_KIND && s.state <= PRESENT && !Zero(s.schema)
  }

  predicate Grants(s: Slot, o: Object) {
    s.id == o.slot && s.state == PRESENT && 0 < o.rights <= RightsMask(s.kind)
  }

  ghost predicate ObjectOk(slots: seq<Slot>, o: Object) {
    o.id != 0 && exists k :: 0 <= k < |slots| && Grants(slots[k], o)
  }

  predicate HandleBefore(a: Handle, b: Handle) {
    a.objectId < b.objectId || (a.objectId == b.objectId && a.role < b.role)
  }

  ghost predicate SlotsValid(slots: seq<Slot>) {
    Increasing(SlotIds(slots)) && forall i :: 0 <= i < |slots| ==> SlotOk(slots[i])
  }

  ghost predicate ObjectsValid(slots: seq<Slot>, os: seq<Object>) {
    && Increasing(ObjectIds(os)) && NonDecreasing(ObjectSlots(os))
    && (forall i :: 0 <= i < |os| ==> ObjectOk(slots, os[i]))
    && (forall i :: 0 <= i < |slots| && slots[i].state == PRESENT ==> slots[i].id as nat in ObjectSlots(os))
  }

  ghost predicate HandlesValid(os: seq<Object>, hs: seq<Handle>) {
    && (forall i :: 0 <= i < |hs| ==> hs[i].index == i && hs[i].objectId as nat in ObjectIds(os))
    && (forall i, j :: 0 <= i < j < |hs| ==> HandleBefore(hs[i], hs[j]))
  }

  ghost predicate Valid(s: Source) {
    && s.generation != 0 && !Zero(s.manifest)
    && |s.slots| <= MAX_SLOTS && |s.objects| <= MAX_OBJECTS && |s.handles| <= MAX_HANDLES
    && SlotsValid(s.slots) && ObjectsValid(s.slots, s.objects) && HandlesValid(s.objects, s.handles)
  }

  // ---------------------------------------------------------------- encodings

  function SlotOffset(i: nat): nat {
    HEADER_SIZE + i * SLOT_SIZE
  }

  function ObjectOffset(slots: nat, i: nat): nat {
    SlotOffset(slots) + i * OBJECT_SIZE
  }

  function HandleOffset(slots: nat, objects: nat, i: nat): nat {
    ObjectOffset(slots, objects) + i * HANDLE_SIZE
  }

  function Header(s: Source): seq<byte> {
    Le(HandleOffset(|s.slots|, |s.objects|, |s.handles|), 4) + IDENTITY + SCHEMA + Le(s.generation, 8) + s.manifest
    + Le(|s.slots|, 4) + Le(|s.objects|, 4) + Le(|s.handles|, 4)
    + Le(SlotOffset(0), 4) + Le(ObjectOffset(|s.slots|, 0), 4) + Le(HandleOffset(|s.slots|, |s.objects|, 0), 4) + Zeros(24)
  }

  /** The range of objects of a slot, and of handles of an object. */
  function SlotObjects(s: Source, i: nat): Range
    requires i < |s.slots|
  {
    RangeOf(ObjectSlots(s.objects), s.slots[i].id)
  }

  function ObjectHandles(s: Source, i: nat): Range
    requires i < |s.objects|
  {
    RangeOf(HandleObjects(s.handles), s.objects[i].id)
  }

  /** `b` is the encoding of `s`: the header, then the three tables record by record. */
  ghost predicate Encodes(s: Source, b: seq<byte>) {
    && |b| == HandleOffset(|s.slots|, |s.objects|, |s.handles|) && b[..HEADER_SIZE] == Header(s)
    && (forall i: nat :: i < |s.slots| ==> SlotEncoded(s, b, i))
    && (forall i: nat :: i < |s.objects| ==> ObjectEncoded(s, b, i))
    && (forall i: nat :: i < |s.handles| ==> HandleEncoded(s, b, i))
  }

  ghost predicate SlotEncoded(s: Source, b: seq<byte>, i: nat)
    requires i < |s.slots|
  {
    SlotOffset(i) + SLOT_SIZE <= |b| && b[SlotOffset(i)..SlotOffset(i) + SLOT_SIZE] == SlotRecord(s.slots[i], SlotObjects(s, i))
  }

  ghost predicate ObjectEncoded(s: Source, b: seq<byte>, i: nat)
    requires i < |s.objects|
  {
    var o := ObjectOffset(|s.slots|, i);
    o + OBJECT_SIZE <= |b| && b[o..o + OBJECT_SIZE] == ObjectRecord(s.objects[i], ObjectHandles(s, i))
  }

  ghost predicate HandleEncoded(s: Source, b: seq<byte>, i: nat)
    requires i < |s.handles|
  {
    var o := HandleOffset(|s.slots|, |s.objects|, i);
    o + HANDLE_SIZE <= |b| && b[o..o + HANDLE_SIZE] == HandleRecord(s.handles[i])
  }

  // ----------------------------------------------------------------- decoding

  predicate HeaderFits(b: seq<byte>) {
    |b| >= HEADER_SIZE && |b| == HandleOffset(U32At(b, 80), U32At(b, 84), U32At(b, 88))
  }

  predicate HeaderOk(b: seq<byte>) {
    && HeaderFits(b) && |b| < U32 && b[4..8] == IDENTITY && b[8..40] == SCHEMA
    && U32At(b, 0) == |b| && Zero(b[104..128])
    && U32At(b, 80) <= MAX_SLOTS && U32At(b, 84) <= MAX_OBJECTS && U32At(b, 88) <= MAX_HANDLES
    && U32At(b, 92) == SlotOffset(0) && U32At(b, 96) == ObjectOffset(U32At(b, 80), 0)
    && U32At(b, 100) == HandleOffset(U32At(b, 80), U32At(b, 84), 0)
    && U64At(b, 40) != 0 && !Zero(b[48..80])
  }

  function SlotsAt(b: seq<byte>, n: nat): (r: seq<Slot>)
    requires SlotOffset(n) <= |b|
    ensures |r| == n && forall i :: 0 <= i < n ==> r[i] == SlotAt(b, SlotOffset(i))
  {
    if n == 0 then [] else SlotsAt(b, n - 1) + [SlotAt(b, SlotOffset(n - 1))]
  }

  function SlotRanges(b: seq<byte>, n: nat): (r: seq<Range>)
    requires SlotOffset(n) <= |b|
    ensures |r| == n && forall i :: 0 <= i < n ==> r[i] == SlotRange(b, SlotOffset(i))
  {
    if n == 0 then [] else SlotRanges(b, n - 1) + [SlotRange(b, SlotOffset(n - 1))]
  }

  function ObjectsAt(b: seq<byte>, slots: nat, n: nat): (r: seq<Object>)
    requires ObjectOffset(slots, n) <= |b|
    ensures |r| == n && forall i :: 0 <= i < n ==> r[i] == ObjectAt(b, ObjectOffset(slots, i))
  {
    if n == 0 then [] else ObjectsAt(b, slots, n - 1) + [ObjectAt(b, ObjectOffset(slots, n - 1))]
  }

  function ObjectRanges(b: seq<byte>, slots: nat, n: nat): (r: seq<Range>)
    requires ObjectOffset(slots, n) <= |b|
    ensures |r| == n && forall i :: 0 <= i < n ==> r[i] == ObjectRange(b, ObjectOffset(slots, i))
  {
    if n == 0 then [] else ObjectRanges(b, slots, n - 1) + [ObjectRange(b, ObjectOffset(slots, n - 1))]
  }

  function HandlesAt(b: seq<byte>, slots: nat, os: nat, n: nat): (r: seq<Handle>)
    requires HandleOffset(slots, os, n) <= |b|
    ensures |r| == n && forall i :: 0 <= i < n ==> r[i] == HandleAt(b, HandleOffset(slots, os, i))
  {
    if n == 0 then [] else HandlesAt(b, slots, os, n - 1) + [HandleAt(b, HandleOffset(slots, os, n - 1))]
  }

  /** The source that the accessors read. */
  function SourceAt(b: seq<byte>): Source
    requires HeaderFits(b)
  {
    var n, m, k := U32At(b, 80), U32At(b, 84), U32At(b, 88);
    Source(U64At(b, 40), b[48..80], SlotsAt(b, n), ObjectsAt(b, n, m), HandlesAt(b, n, m, k))
  }

  /** An absent slot has no objects and a present one has some. */
  predicate StateFits(s: Slot, r: Range) {
    (s.state == ABSENT ==> r.count == 0) && (s.state == PRESENT ==> r.count != 0)
  }

  ghost predicate SlotsDecode(b: seq<byte>)
    requires HeaderFits(b)
  {
    var s, ranges := SourceAt(b), SlotRanges(b, U32At(b, 80));
    && SlotsValid(s.slots)
    && (forall i :: 0 <= i < |s.slots| ==> Zero(b[SlotOffset(i) + 20..SlotOffset(i) + 32]) && StateFits(s.slots[i], ranges[i]))
    && Partition(SlotIds(s.slots), ranges, ObjectSlots(s.objects))
  }

  /** The reserved bytes of object `i` are zero. */
  predicate ObjectReserved(b: seq<byte>, slots: nat, i: nat) {
    ObjectOffset(slots, i) + OBJECT_SIZE <= |b| && Zero(b[ObjectOffset(slots, i) + 4..ObjectOffset(slots, i) + 8])
  }

  ghost predicate ObjectsDecode(b: seq<byte>)
    requires HeaderFits(b)
  {
    var s, ranges := SourceAt(b), ObjectRanges(b, U32At(b, 80), U32At(b, 84));
    && Increasing(ObjectIds(s.objects))
    && (forall i :: 0 <= i < |s.objects| ==>
          ObjectOk(s.slots, s.objects[i]) && ObjectReserved(b, |s.slots|, i))
    && Partition(ObjectIds(s.objects), ranges, HandleObjects(s.handles))
  }

  ghost predicate DecodeOk(b: seq<byte>) {
    HeaderOk(b) && SlotsDecode(b) && ObjectsDecode(b) && HandlesValid(SourceAt(b).objects, SourceAt(b).handles)
  }

  // -------------------------------------------------------- decode and encode agree

  lemma HeaderParts(b: seq<byte>, s: Source)
    requires |b| >= HEADER_SIZE && |s.manifest| == DIGEST_SIZE
    ensures b[..HEADER_SIZE] == Header(s) <==>
            && b[0..4] == Le(HandleOffset(|s.slots|, |s.objects|, |s.handles|), 4) && b[4..8] == IDENTITY && b[8..40] == SCHEMA
            && b[40..48] == Le(s.generation, 8) && b[48..80] == s.manifest
            && b[80..84] == Le(|s.slots|, 4) && b[84..88] == Le(|s.objects|, 4) && b[88..92] == Le(|s.handles|, 4)
            && b[92..96] == Le(SlotOffset(0), 4) && b[96..100] == Le(ObjectOffset(|s.slots|, 0), 4)
            && b[100..104] == Le(HandleOffset(|s.slots|, |s.objects|, 0), 4) && b[104..128] == Zeros(24)
  {
    hide Le, Zeros;
    var c3 := Le(HandleOffset(|s.slots|, |s.objects|, |s.handles|), 4) + IDENTITY + SCHEMA;
    var c4 := c3 + Le(s.generation, 8);
    var c5 := c4 + s.manifest;
    var c6 := c5 + Le(|s.slots|, 4);
    var c7 := c6 + Le(|s.objects|, 4);
    var c8 := c7 + Le(|s.handles|, 4);
    var c9 := c8 + Le(SlotOffset(0), 4);
    var c10 := c9 + Le(ObjectOffset(|s.slots|, 0), 4);
    var c11 := c10 + Le(HandleOffset(|s.slots|, |s.objects|, 0), 4);
    assert b[..128] == b[0..128];
    PartsAt(b, 0, 128, c11, Zeros(24));
    PartsAt(b, 0, 104, c10, Le(HandleOffset(|s.slots|, |s.objects|, 0), 4));
    PartsAt(b, 0, 100, c9, Le(ObjectOffset(|s.slots|, 0), 4));
    PartsAt(b, 0, 96, c8, Le(SlotOffset(0), 4));
    PartsAt(b, 0, 92, c7, Le(|s.handles|, 4));
    PartsAt(b, 0, 88, c6, Le(|s.objects|, 4));
    PartsAt(b, 0, 84, c5, Le(|s.slots|, 4));
    PartsAt(b, 0, 80, c4, s.manifest);
    PartsAt(b, 0, 48, c3, Le(s.generation, 8));
    PartsAt(b, 0, 40, Le(HandleOffset(|s.slots|, |s.objects|, |s.handles|), 4) + IDENTITY, SCHEMA);
    PartsAt(b, 0, 8, Le(HandleOffset(|s.slots|, |s.objects|, |s.handles|), 4), IDENTITY);
  }

  /** Counts within their limits keep every size and offset a 32-bit number. */
  lemma SizesSmall(slots: nat, os: nat, hs: nat)
    requires slots <= MAX_SLOTS && os <= MAX_OBJECTS && hs <= MAX_HANDLES
    ensures SlotOffset(0) < U32 && ObjectOffset(slots, 0) < U32 && HandleOffset(slots, os, 0) < U32 && HandleOffset(slots, os, hs) < U32
  {
  }

  lemma HeaderCanonical(b: seq<byte>, s: Source)
    requires |b| >= HEADER_SIZE && |s.manifest| == DIGEST_SIZE
    requires |s.slots| <= MAX_SLOTS && |s.objects| <= MAX_OBJECTS && |s.handles| <= MAX_HANDLES
    ensures b[..HEADER_SIZE] == Header(s) <==>
            && U32At(b, 0) == HandleOffset(|s.slots|, |s.objects|, |s.handles|) && b[4..8] == IDENTITY && b[8..40] == SCHEMA
            && U64At(b, 40) == s.generation && b[48..80] == s.manifest
            && U32At(b, 80) == |s.slots| && U32At(b, 84) == |s.objects| && U32At(b, 88) == |s.handles|
            && U32At(b, 92) == SlotOffset(0) && U32At(b, 96) == ObjectOffset(|s.slots|, 0)
            && U32At(b, 100) == HandleOffset(|s.slots|, |s.objects|, 0) && Zero(b[104..128])
  {
    hide Le, Zeros, U32At, U64At, Header;
    HeaderParts(b, s);
    SizesSmall(|s.slots|, |s.objects|, |s.handles|);
    FieldIs(b, 0, HandleOffset(|s.slots|, |s.objects|, |s.handles|));
    FieldIs(b, 40, s.generation);
    FieldIs(b, 80, |s.slots|);
    FieldIs(b, 84, |s.objects|);
    FieldIs(b, 88, |s.handles|);
    FieldIs(b, 92, SlotOffset(0));
    FieldIs(b, 96, ObjectOffset(|s.slots|, 0));
    FieldIs(b, 100, HandleOffset(|s.slots|, |s.objects|, 0));
    ZeroIs(b[104..128]);
  }

  // ---------------------------------------------- what decodes is an encoding

  /** Objects cut into ranges that fit the states of their slots are valid. */
  lemma RangesMakeValid(slots: seq<Slot>, os: seq<Object>, ranges: seq<Range>)
    requires SlotsValid(slots) && Increasing(ObjectIds(os)) && forall i :: 0 <= i < |os| ==> ObjectOk(slots, os[i])
    requires Partition(SlotIds(slots), ranges, ObjectSlots(os))
    requires forall i :: 0 <= i < |slots| ==> StateFits(slots[i], ranges[i])
    ensures ObjectsValid(slots, os)
  {
    hide ObjectOk, SlotOk, Increasing, NonDecreasing;
    var ids, keys := SlotIds(slots), ObjectSlots(os);
    PartitionSorted(ids, ranges, keys);
    forall i: nat | i < |slots| && slots[i].state == PRESENT ensures slots[i].id as nat in keys {
      assert RangeFits(ids, ranges, keys, i) && StateFits(slots[i], ranges[i]);
      assert keys[ranges[i].start] == ids[i];
    }
  }

  lemma SoundObjects(b: seq<byte>)
    requires HeaderFits(b) && SlotsDecode(b) && ObjectsDecode(b)
    ensures ObjectsValid(SourceAt(b).slots, SourceAt(b).objects)
  {
    hide SourceAt, ObjectRanges, U32At, Partition, SlotsValid, StateFits, ObjectOk, Increasing, ObjectsValid, Zero, HeaderFits;
    SourceCounts(b);
    RangesMakeValid(SourceAt(b).slots, SourceAt(b).objects, SlotRanges(b, U32At(b, 80)));
  }

  lemma SourceCounts(b: seq<byte>)
    requires HeaderFits(b)
    ensures |SourceAt(b).slots| == U32At(b, 80) && SlotOffset(U32At(b, 80)) <= |b|
  {
    hide U32At, U64At;
  }

  lemma SoundSlotRecord(b: seq<byte>, i: nat)
    requires HeaderFits(b) && SlotsDecode(b) && i < |SourceAt(b).slots|
    ensures SlotEncoded(SourceAt(b), b, i)
  {
    hide SlotRecord, Increasing, Partition, U32At, RangeOf, SlotIds, ObjectSlots, SlotOk;
    var s, ranges := SourceAt(b), SlotRanges(b, U32At(b, 80));
    PartitionRanges(SlotIds(s.slots), ranges, ObjectSlots(s.objects), i);
    SlotCanonical(b, SlotOffset(i), s.slots[i], ranges[i]);
  }

  lemma SoundObjectRecord(b: seq<byte>, i: nat)
    requires HeaderFits(b) && ObjectsDecode(b) && i < |SourceAt(b).objects|
    ensures ObjectEncoded(SourceAt(b), b, i)
  {
    hide ObjectRecord, Increasing, Partition, U32At, U64At, RangeOf, ObjectIds, HandleObjects, ObjectOk;
    var s, ranges := SourceAt(b), ObjectRanges(b, U32At(b, 80), U32At(b, 84));
    PartitionRanges(ObjectIds(s.objects), ranges, HandleObjects(s.handles), i);
    ObjectCanonical(b, ObjectOffset(|s.slots|, i), s.objects[i], ranges[i]);
  }

  lemma SoundHandleRecord(b: seq<byte>, i: nat)
    requires HeaderFits(b) && i < |SourceAt(b).handles|
    ensures HandleEncoded(SourceAt(b), b, i)
  {
    var s := SourceAt(b);
    HandleCanonical(b, HandleOffset(|s.slots|, |s.objects|, i), s.handles[i]);
    hide HandleRecord;
  }

  lemma SoundHeader(b: seq<byte>)
    requires HeaderOk(b)
    ensures var s := SourceAt(b);
            Shaped(s) && |b| == HandleOffset(|s.slots|, |s.objects|, |s.handles|) && b[..HEADER_SIZE] == Header(s)
  {
    hide Header;
    HeaderCanonical(b, SourceAt(b));
  }

  /** Every byte string that decodes is the encoding of a valid source: the one the accessors return. */
  lemma DecodeSound(b: seq<byte>)
    requires DecodeOk(b)
    ensures var s := SourceAt(b); Shaped(s) && Valid(s) && Encodes(s, b)
  {
    var s := SourceAt(b);
    SoundHeader(b);
    SoundObjects(b);
    hide SlotEncoded, ObjectEncoded, HandleEncoded, Header, ObjectsValid, HandlesValid, SlotsValid;
    forall i: nat | i < |s.slots| ensures SlotEncoded(s, b, i) { SoundSlotRecord(b, i); }
    forall i: nat | i < |s.objects| ensures ObjectEncoded(s, b, i) { SoundObjectRecord(b, i); }
    forall i: nat | i < |s.handles| ensures HandleEncoded(s, b, i) { SoundHandleRecord(b, i); }
  }

  // -------------------------------------------------- every encoding decodes

  lemma RangeSmall(keys: seq<nat>, id: nat)
    requires |keys| <= MAX_OBJECTS
    ensures Small(RangeOf(keys, id))
  {
    hide Lower;
  }

  lemma CompleteSlot(s: Source, b: seq<byte>, i: nat)
    requires Shaped(s) && Encodes(s, b) && i < |s.slots| && |s.objects| <= MAX_OBJECTS
    ensures SlotOffset(i) + SLOT_SIZE <= |b| && SlotAt(b, SlotOffset(i)) == s.slots[i]
    ensures SlotRange(b, SlotOffset(i)) == SlotObjects(s, i) && Zero(b[SlotOffset(i) + 20..SlotOffset(i) + 32])
  {
    assert SlotEncoded(s, b, i);
    RangeSmall(ObjectSlots(s.objects), s.slots[i].id);
    hide SlotRecord, Header, RangeOf;
    SlotCanonical(b, SlotOffset(i), s.slots[i], SlotObjects(s, i));
  }

  lemma CompleteObject(s: Source, b: seq<byte>, i: nat)
    requires Encodes(s, b) && i < |s.objects| && |s.handles| <= MAX_HANDLES
    ensures var o := ObjectOffset(|s.slots|, i);
            o + OBJECT_SIZE <= |b| && ObjectAt(b, o) == s.objects[i] && ObjectRange(b, o) == ObjectHandles(s, i) && Zero(b[o + 4..o + 8])
  {
    assert ObjectEncoded(s, b, i);
    RangeSmall(HandleObjects(s.handles), s.objects[i].id);
    hide ObjectRecord, Header, RangeOf;
    ObjectCanonical(b, ObjectOffset(|s.slots|, i), s.objects[i], ObjectHandles(s, i));
  }

  lemma CompleteHandle(s: Source, b: seq<byte>, i: nat)
    requires Encodes(s, b) && i < |s.handles|
    ensures var o := HandleOffset(|s.slots|, |s.objects|, i); o + HANDLE_SIZE <= |b| && HandleAt(b, o) == s.handles[i]
  {
    assert HandleEncoded(s, b, i);
    hide HandleRecord, Header;
    HandleCanonical(b, HandleOffset(|s.slots|, |s.objects|, i), s.handles[i]);
  }

  lemma CompleteHeader(s: Source, b: seq<byte>)
    requires Shaped(s) && Valid(s) && Encodes(s, b)
    ensures HeaderOk(b) && U32At(b, 80) == |s.slots| && U32At(b, 84) == |s.objects| && U32At(b, 88) == |s.handles|
    ensures U64At(b, 40) == s.generation && b[48..80] == s.manifest
  {
    hide Header, SlotsValid, ObjectsValid, HandlesValid, SlotEncoded, ObjectEncoded, HandleEncoded;
    HeaderCanonical(b, s);
    SizesSmall(|s.slots|, |s.objects|, |s.handles|);
  }

  lemma CompleteSlots(s: Source, b: seq<byte>)
    requires Shaped(s) && Encodes(s, b) && |s.objects| <= MAX_OBJECTS
    ensures SlotOffset(|s.slots|) <= |b| && SlotsAt(b, |s.slots|) == s.slots
    ensures SlotRanges(b, |s.slots|) == Ranges(SlotIds(s.slots), ObjectSlots(s.objects))
  {
    hide Header, SlotEncoded, ObjectEncoded, HandleEncoded, RangeOf, SlotAt, SlotRange, SlotsAt, SlotRanges, Ranges;
    forall i: nat | i < |s.slots|
      ensures SlotsAt(b, |s.slots|)[i] == s.slots[i]
      ensures SlotRanges(b, |s.slots|)[i] == Ranges(SlotIds(s.slots), ObjectSlots(s.objects))[i]
    {
      CompleteSlot(s, b, i);
    }
  }

  lemma CompleteObjects(s: Source, b: seq<byte>)
    requires Encodes(s, b) && |s.handles| <= MAX_HANDLES
    ensures ObjectOffset(|s.slots|, |s.objects|) <= |b| && ObjectsAt(b, |s.slots|, |s.objects|) == s.objects
    ensures ObjectRanges(b, |s.slots|, |s.objects|) == Ranges(ObjectIds(s.objects), HandleObjects(s.handles))
  {
    hide Header, SlotEncoded, ObjectEncoded, HandleEncoded, RangeOf, ObjectAt, ObjectRange, Shaped, ObjectsAt, ObjectRanges, Ranges;
    forall i: nat | i < |s.objects|
      ensures ObjectsAt(b, |s.slots|, |s.objects|)[i] == s.objects[i]
      ensures ObjectRanges(b, |s.slots|, |s.objects|)[i] == Ranges(ObjectIds(s.objects), HandleObjects(s.handles))[i]
    {
      CompleteObject(s, b, i);
    }
  }

  lemma CompleteHandles(s: Source, b: seq<byte>)
    requires Encodes(s, b)
    ensures HandlesAt(b, |s.slots|, |s.objects|, |s.handles|) == s.handles
  {
    hide Header, SlotEncoded, ObjectEncoded, HandleEncoded, HandleAt, HandlesAt;
    forall i: nat | i < |s.handles| ensures HandlesAt(b, |s.slots|, |s.objects|, |s.handles|)[i] == s.handles[i] {
      CompleteHandle(s, b, i);
    }
  }

  /** The accessors return the source that was encoded. */
  lemma CompleteSource(s: Source, b: seq<byte>)
    requires Shaped(s) && Valid(s) && Encodes(s, b)
    ensures HeaderOk(b) && SourceAt(b) == s
    ensures SlotRanges(b, |s.slots|) == Ranges(SlotIds(s.slots), ObjectSlots(s.objects))
    ensures ObjectRanges(b, |s.slots|, |s.objects|) == Ranges(ObjectIds(s.objects), HandleObjects(s.handles))
  {
    hide Encodes, SlotsValid, ObjectsValid, HandlesValid, SlotsAt, ObjectsAt, HandlesAt, SlotRanges, ObjectRanges, Ranges;
    CompleteHeader(s, b);
    CompleteSlots(s, b);
    CompleteObjects(s, b);
    CompleteHandles(s, b);
  }

  lemma CompleteStates(slots: seq<Slot>, os: seq<Object>, i: nat)
    requires SlotsValid(slots) && ObjectsValid(slots, os) && i < |slots|
    ensures StateFits(slots[i], RangeOf(ObjectSlots(os), slots[i].id))
  {
    hide RangeOf;
    var keys, id := ObjectSlots(os), slots[i].id as nat;
    var r := RangeOf(keys, id);
    RangeHolds(keys, id);
    if slots[i].state == PRESENT { PresentHasRange(keys, id); }
    if r.count > 0 {
      assert keys[r.start] == id;
      OwnerPresent(slots, os, r.start, i);
    }
  }

  lemma OwnerPresent(slots: seq<Slot>, os: seq<Object>, j: nat, i: nat)
    requires SlotsValid(slots) && j < |os| && ObjectOk(slots, os[j]) && i < |slots| && os[j].slot == slots[i].id
    ensures slots[i].state == PRESENT
  {
    var k :| 0 <= k < |slots| && Grants(slots[k], os[j]);
    assert SlotIds(slots)[k] == SlotIds(slots)[i];
  }

  lemma PresentHasRange(keys: seq<nat>, id: nat)
    requires NonDecreasing(keys) && id in keys
    ensures RangeOf(keys, id).count > 0
  {
    var j :| 0 <= j < |keys| && keys[j] == id;
    LowerCuts(keys, id, j);
    LowerCuts(keys, id + 1, j);
  }

  lemma ObjectSlotsKnown(slots: seq<Slot>, os: seq<Object>)
    requires forall j :: 0 <= j < |os| ==> ObjectOk(slots, os[j])
    ensures forall j :: 0 <= j < |os| ==> ObjectSlots(os)[j] in SlotIds(slots)
  {
    forall j | 0 <= j < |os| ensures ObjectSlots(os)[j] in SlotIds(slots) {
      assert ObjectOk(slots, os[j]);
      var k :| 0 <= k < |slots| && Grants(slots[k], os[j]);
      assert SlotIds(slots)[k] == os[j].slot;
    }
  }

  lemma HandlesSorted(os: seq<Object>, hs: seq<Handle>)
    requires HandlesValid(os, hs)
    ensures NonDecreasing(HandleObjects(hs))
  {
    forall i, j | 0 <= i < j < |hs| ensures HandleObjects(hs)[i] <= HandleObjects(hs)[j] {
      assert HandleBefore(hs[i], hs[j]);
    }
  }

  lemma CompleteSlotsDecode(s: Source, b: seq<byte>)
    requires Shaped(s) && Valid(s) && Encodes(s, b) && HeaderFits(b) && SourceAt(b) == s && U32At(b, 80) == |s.slots|
    requires SlotRanges(b, |s.slots|) == Ranges(SlotIds(s.slots), ObjectSlots(s.objects))
    ensures SlotsDecode(b)
  {
    hide Encodes, HeaderFits, SourceAt, Partition, SlotsValid, HandlesValid, RangeOf, ObjectsValid;
    CompleteRecords(s, b);
    SlotsPartition(s);
  }

  lemma SlotsPartition(s: Source)
    requires Valid(s)
    ensures Partition(SlotIds(s.slots), Ranges(SlotIds(s.slots), ObjectSlots(s.objects)), ObjectSlots(s.objects))
  {
    hide Partition, HandlesValid;
    ObjectSlotsKnown(s.slots, s.objects);
    SortedPartitions(SlotIds(s.slots), ObjectSlots(s.objects));
  }

  lemma ObjectsPartition(s: Source)
    requires Valid(s)
    ensures Partition(ObjectIds(s.objects), Ranges(ObjectIds(s.objects), HandleObjects(s.handles)), HandleObjects(s.handles))
  {
    hide Partition, SlotsValid;
    HandlesSorted(s.objects, s.handles);
    SortedPartitions(ObjectIds(s.objects), HandleObjects(s.handles));
  }

  lemma CompleteObjectsDecode(s: Source, b: seq<byte>)
    requires Shaped(s) && Valid(s) && Encodes(s, b) && HeaderFits(b) && SourceAt(b) == s
    requires U32At(b, 80) == |s.slots| && U32At(b, 84) == |s.objects|
    requires ObjectRanges(b, |s.slots|, |s.objects|) == Ranges(ObjectIds(s.objects), HandleObjects(s.handles))
    ensures ObjectsDecode(b)
  {
    hide Encodes, HeaderFits, SourceAt, Partition, SlotsValid, HandlesValid, RangeOf, ObjectOk, ObjectReserved;
    CompleteRecords(s, b);
    ObjectsPartition(s);
  }

  /** Every encoding of a valid source decodes, to that source. */
  lemma DecodeComplete(s: Source, b: seq<byte>)
    requires Shaped(s) && Valid(s) && Encodes(s, b)
    ensures DecodeOk(b) && SourceAt(b) == s
  {
    hide Encodes, SlotsDecode, ObjectsDecode, SlotsValid, ObjectsValid, HandlesValid, SourceAt, Shaped;
    CompleteSource(s, b);
    CompleteHeader(s, b);
    CompleteSlotsDecode(s, b);
    CompleteObjectsDecode(s, b);
  }

  lemma CompleteRecords(s: Source, b: seq<byte>)
    requires Shaped(s) && Valid(s) && Encodes(s, b) && HeaderFits(b)
    ensures forall i: nat :: i < |s.slots| ==> SlotOffset(i) + SLOT_SIZE <= |b| && Zero(b[SlotOffset(i) + 20..SlotOffset(i) + 32])
    ensures forall i: nat :: i < |s.slots| ==> StateFits(s.slots[i], SlotObjects(s, i))
    ensures forall i: nat :: i < |s.objects| ==> ObjectReserved(b, |s.slots|, i)
  {
    hide Encodes, SlotsValid, ObjectsValid, HandlesValid, HeaderFits, SlotAt, SlotRange, ObjectAt, ObjectRange, RangeOf;
    forall i: nat | i < |s.slots|
      ensures SlotOffset(i) + SLOT_SIZE <= |b| && Zero(b[SlotOffset(i) + 20..SlotOffset(i) + 32]) && StateFits(s.slots[i], SlotObjects(s, i))
    {
      CompleteSlot(s, b, i);
      CompleteStates(s.slots, s.objects, i);
    }
    forall i: nat | i < |s.objects| ensures ObjectReserved(b, |s.slots|, i) { CompleteObject(s, b, i); }
  }

  /** A byte string decodes exactly when it is the encoding of a valid source. */
  lemma DecodesExactlyEncodings(b: seq<byte>)
    ensures DecodeOk(b) <==> exists s :: Shaped(s) && Valid(s) && Encodes(s, b)
  {
    hide DecodeOk, Valid, Encodes, Shaped;
    if DecodeOk(b) { DecodeSound(b); }
    if exists s :: Shaped(s) && Valid(s) && Encodes(s, b) {
      var s :| Shaped(s) && Valid(s) && Encodes(s, b);
      DecodeComplete(s, b);
    }
  }

  // ------------------------------------------------------------- one encoding each

  lemma SliceAgrees(b: seq<byte>, c: seq<byte>, o: nat, n: nat, x: nat)
    requires o + n <= |b| && o + n <= |c| && b[o..o + n] == c[o..o + n] && o <= x < o + n
    ensures b[x] == c[x]
  {
    assert b[x] == b[o..o + n][x - o] && c[x] == c[o..o + n][x - o];
  }

  lemma ByteAgrees(s: Source, b: seq<byte>, c: seq<byte>, x: nat)
    requires Encodes(s, b) && Encodes(s, c) && x < |b|
    ensures x < |c| && b[x] == c[x]
  {
    hide Header, SlotRecord, ObjectRecord, HandleRecord;
    if x < HEADER_SIZE {
      assert b[x] == b[..HEADER_SIZE][x] && c[x] == c[..HEADER_SIZE][x];
    } else if x < SlotOffset(|s.slots|) {
      var i := (x - HEADER_SIZE) / SLOT_SIZE;
      assert SlotEncoded(s, b, i) && SlotEncoded(s, c, i);
      SliceAgrees(b, c, SlotOffset(i), SLOT_SIZE, x);
    } else if x < ObjectOffset(|s.slots|, |s.objects|) {
      var i := (x - SlotOffset(|s.slots|)) / OBJECT_SIZE;
      assert ObjectEncoded(s, b, i) && ObjectEncoded(s, c, i);
      SliceAgrees(b, c, ObjectOffset(|s.slots|, i), OBJECT_SIZE, x);
    } else {
      var i := (x - ObjectOffset(|s.slots|, |s.objects|)) / HANDLE_SIZE;
      assert HandleEncoded(s, b, i) && HandleEncoded(s, c, i);
      SliceAgrees(b, c, HandleOffset(|s.slots|, |s.objects|, i), HANDLE_SIZE, x);
    }
  }

  /** A source has one encoding. */
  lemma EncodingUnique(s: Source, b: seq<byte>, c: seq<byte>)
    requires Encodes(s, b) && Encodes(s, c)
    ensures b == c
  {
    forall x: nat | x < |b| ensures x < |c| && b[x] == c[x] { ByteAgrees(s, b, c, x); }
  }

  /** Every object lies in exactly one slot's range, that of the slot it names, and every handle in exactly one object's
      range, that of the object it names. */
  lemma DecodedRangesTile(b: seq<byte>)
    requires DecodeOk(b)
    ensures var s := SourceAt(b);
            && (forall j: nat :: j < |s.objects| ==>
                    InOneRange(SlotIds(s.slots), SlotRanges(b, |s.slots|), ObjectSlots(s.objects), j))
            && (forall j: nat :: j < |s.handles| ==>
                    InOneRange(ObjectIds(s.objects), ObjectRanges(b, |s.slots|, |s.objects|), HandleObjects(s.handles), j))
  {
    hide Partition, Increasing, InOneRange, SlotOk, StateFits, ObjectOk, HandlesValid;
    var s := SourceAt(b);
    forall j: nat | j < |s.objects|
      ensures InOneRange(SlotIds(s.slots), SlotRanges(b, |s.slots|), ObjectSlots(s.objects), j)
    {
      PartitionAssigns(SlotIds(s.slots), SlotRanges(b, |s.slots|), ObjectSlots(s.objects), j);
    }
    forall j: nat | j < |s.handles|
      ensures InOneRange(ObjectIds(s.objects), ObjectRanges(b, |s.slots|, |s.objects|), HandleObjects(s.handles), j)
    {
      PartitionAssigns(ObjectIds(s.objects), ObjectRanges(b, |s.slots|, |s.objects|), HandleObjects(s.handles), j);
    }
  }
}
