/** Writing a resource grant into the caller's buffer. */
module GrantBuffer {
  import opened Bytes
  import opened Fields
  import opened Partitions
  import opened GrantRecords
  import opened ResourceGrant
  import opened GrantEncoder

  // ---------------------------------------------------- the encoding as one string

  function SlotBytes(s: Source, n: nat): seq<byte>
    requires n <= |s.slots|
  {
    if n == 0 then [] else SlotBytes(s, n - 1) + SlotRecord(s.slots[n - 1], SlotObjects(s, n - 1))
  }

  function ObjectBytes(s: Source, n: nat): seq<byte>
    requires n <= |s.objects|
  {
    if n == 0 then [] else ObjectBytes(s, n - 1) + ObjectRecord(s.objects[n - 1], ObjectHandles(s, n - 1))
  }

  function HandleBytes(s: Source, n: nat): seq<byte>
    requires n <= |s.handles|
  {
    if n == 0 then [] else HandleBytes(s, n - 1) + HandleRecord(s.handles[n - 1])
  }

  function Encoded(s: Source): seq<byte> {
    Header(s) + SlotBytes(s, |s.slots|) + ObjectBytes(s, |s.objects|) + HandleBytes(s, |s.handles|)
  }

  lemma HeaderSize(s: Source)
    requires |s.manifest| == DIGEST_SIZE
    ensures |Header(s)| == HEADER_SIZE
  {
    hide Le, Zeros;
  }

  lemma {:induction false} SlotBytesAt(s: Source, n: nat, i: nat)
    requires Shaped(s) && i < n <= |s.slots|
    ensures |SlotBytes(s, n)| == n * SLOT_SIZE
    ensures SlotBytes(s, n)[i * SLOT_SIZE..(i + 1) * SLOT_SIZE] == SlotRecord(s.slots[i], SlotObjects(s, i))
    decreases n
  {
    hide SlotObjects, SlotRecord;
    SlotBytesSize(s, n);
    SlotBytesSize(s, n - 1);
    SlotRecordSize(s.slots[n - 1], SlotObjects(s, n - 1));
    var front, record := SlotBytes(s, n - 1), SlotRecord(s.slots[n - 1], SlotObjects(s, n - 1));
    if i < n - 1 {
      SlotBytesAt(s, n - 1, i);
      assert (front + record)[i * SLOT_SIZE..(i + 1) * SLOT_SIZE] == front[i * SLOT_SIZE..(i + 1) * SLOT_SIZE];
    } else {
      assert (front + record)[|front|..|front| + |record|] == record;
    }
  }

  lemma {:induction false} SlotBytesSize(s: Source, n: nat)
    requires Shaped(s) && n <= |s.slots|
    ensures |SlotBytes(s, n)| == n * SLOT_SIZE
  {
    hide SlotObjects, SlotRecord;
    if n > 0 {
      SlotBytesSize(s, n - 1);
      SlotRecordSize(s.slots[n - 1], SlotObjects(s, n - 1));
    }
  }

  lemma SlotRecordSize(slot: Slot, r: Range)
    requires |slot.schema| == DIGEST_SIZE
    ensures |SlotRecord(slot, r)| == SLOT_SIZE
  {
    hide Le, Zeros;
  }

  lemma {:induction false} ObjectBytesAt(s: Source, n: nat, i: nat)
    requires i < n <= |s.objects|
    ensures |ObjectBytes(s, n)| == n * OBJECT_SIZE
    ensures ObjectBytes(s, n)[i * OBJECT_SIZE..(i + 1) * OBJECT_SIZE] == ObjectRecord(s.objects[i], ObjectHandles(s, i))
    decreases n
  {
    hide ObjectHandles, ObjectRecord;
    ObjectBytesSize(s, n);
    ObjectBytesSize(s, n - 1);
    var front, record := ObjectBytes(s, n - 1), ObjectRecord(s.objects[n - 1], ObjectHandles(s, n - 1));
    if i < n - 1 {
      ObjectBytesAt(s, n - 1, i);
      assert (front + record)[i * OBJECT_SIZE..(i + 1) * OBJECT_SIZE] == front[i * OBJECT_SIZE..(i + 1) * OBJECT_SIZE];
    } else {
      assert (front + record)[|front|..|front| + |record|] == record;
    }
  }

  lemma {:induction false} ObjectBytesSize(s: Source, n: nat)
    requires n <= |s.objects|
    ensures |ObjectBytes(s, n)| == n * OBJECT_SIZE
  {
    hide ObjectHandles, ObjectRecord;
    if n > 0 { ObjectBytesSize(s, n - 1); }
  }

  lemma {:induction false} HandleBytesAt(s: Source, n: nat, i: nat)
    requires i < n <= |s.handles|
    ensures |HandleBytes(s, n)| == n * HANDLE_SIZE
    ensures HandleBytes(s, n)[i * HANDLE_SIZE..(i + 1) * HANDLE_SIZE] == HandleRecord(s.handles[i])
    decreases n
  {
    hide HandleRecord;
    HandleBytesSize(s, n);
    HandleBytesSize(s, n - 1);
    var front, record := HandleBytes(s, n - 1), HandleRecord(s.handles[n - 1]);
    if i < n - 1 {
      HandleBytesAt(s, n - 1, i);
      assert (front + record)[i * HANDLE_SIZE..(i + 1) * HANDLE_SIZE] == front[i * HANDLE_SIZE..(i + 1) * HANDLE_SIZE];
    } else {
      assert (front + record)[|front|..|front| + |record|] == record;
    }
  }

  lemma {:induction false} HandleBytesSize(s: Source, n: nat)
    requires n <= |s.handles|
    ensures |HandleBytes(s, n)| == n * HANDLE_SIZE
  {
    hide HandleRecord;
    if n > 0 { HandleBytesSize(s, n - 1); }
  }

  lemma EncodedSize(s: Source)
    requires Shaped(s)
    ensures |Encoded(s)| == HandleOffset(|s.slots|, |s.objects|, |s.handles|)
    ensures |Header(s)| == HEADER_SIZE && |SlotBytes(s, |s.slots|)| == |s.slots| * SLOT_SIZE
    ensures |ObjectBytes(s, |s.objects|)| == |s.objects| * OBJECT_SIZE && |HandleBytes(s, |s.handles|)| == |s.handles| * HANDLE_SIZE
  {
    hide Header, SlotBytes, ObjectBytes, HandleBytes;
    HeaderSize(s);
    SlotBytesSize(s, |s.slots|);
    ObjectBytesSize(s, |s.objects|);
    HandleBytesSize(s, |s.handles|);
  }

  lemma Regrouped(h: seq<byte>, a: seq<byte>, o: seq<byte>, d: seq<byte>)
    ensures h + a + o + d == h + a + (o + d) && h + a + o + d == (h + a + o) + d + []
    ensures (h + a + o + d)[..|h|] == h
  {
  }

  lemma EncodedSlot(s: Source, i: nat)
    requires Shaped(s) && i < |s.slots|
    ensures SlotEncoded(s, Encoded(s), i)
  {
    hide Header, SlotBytes, ObjectBytes, HandleBytes, SlotRecord, SlotObjects;
    EncodedSize(s);
    var h, a, o, d := Header(s), SlotBytes(s, |s.slots|), ObjectBytes(s, |s.objects|), HandleBytes(s, |s.handles|);
    Regrouped(h, a, o, d);
    SlotBytesAt(s, |s.slots|, i);
    MiddleSlice(h, a, o + d, i * SLOT_SIZE, (i + 1) * SLOT_SIZE);
  }

  lemma EncodedObject(s: Source, i: nat)
    requires Shaped(s) && i < |s.objects|
    ensures ObjectEncoded(s, Encoded(s), i)
  {
    hide Header, SlotBytes, ObjectBytes, HandleBytes, ObjectRecord, ObjectHandles;
    EncodedSize(s);
    var h, a, o, d := Header(s), SlotBytes(s, |s.slots|), ObjectBytes(s, |s.objects|), HandleBytes(s, |s.handles|);
    ObjectBytesAt(s, |s.objects|, i);
    MiddleSlice(h + a, o, d, i * OBJECT_SIZE, (i + 1) * OBJECT_SIZE);
  }

  lemma EncodedHandle(s: Source, i: nat)
    requires Shaped(s) && i < |s.handles|
    ensures HandleEncoded(s, Encoded(s), i)
  {
    hide Header, SlotBytes, ObjectBytes, HandleBytes, HandleRecord;
    EncodedSize(s);
    var h, a, o, d := Header(s), SlotBytes(s, |s.slots|), ObjectBytes(s, |s.objects|), HandleBytes(s, |s.handles|);
    Regrouped(h, a, o, d);
    HandleBytesAt(s, |s.handles|, i);
    MiddleSlice(h + a + o, d, [], i * HANDLE_SIZE, (i + 1) * HANDLE_SIZE);
  }

  /** The string is an encoding; with uniqueness, it is the encoding. */
  lemma EncodedEncodes(s: Source)
    requires Shaped(s)
    ensures Encodes(s, Encoded(s))
  {
    hide Header, SlotBytes, ObjectBytes, HandleBytes, SlotEncoded, ObjectEncoded, HandleEncoded;
    EncodedSize(s);
    Regrouped(Header(s), SlotBytes(s, |s.slots|), ObjectBytes(s, |s.objects|), HandleBytes(s, |s.handles|));
    forall i: nat | i < |s.slots| ensures SlotEncoded(s, Encoded(s), i) { EncodedSlot(s, i); }
    forall i: nat | i < |s.objects| ensures ObjectEncoded(s, Encoded(s), i) { EncodedObject(s, i); }
    forall i: nat | i < |s.handles| ensures HandleEncoded(s, Encoded(s), i) { EncodedHandle(s, i); }
  }

  /** Encoding a valid source and decoding the result gives the source back. */
  lemma EncodeDecodes(s: Source)
    requires Shaped(s) && Valid(s)
    ensures DecodeOk(Encoded(s)) && SourceAt(Encoded(s)) == s
  {
    hide Valid, Encoded, Encodes, DecodeOk, Shaped;
    EncodedEncodes(s);
    DecodeComplete(s, Encoded(s));
  }

  // ------------------------------------------------------------------ the buffer

  /** The buffer starts with `done`, and is clear from there to `size`. */
  ghost predicate Holding(buffer: seq<byte>, done: seq<byte>, size: nat) {
    |done| <= size <= |buffer| && buffer[..|done|] == done && Zero(buffer[|done|..size])
  }

  /** A field store extends what is done. */
  method Put(buffer: array<byte>, at: nat, x: seq<byte>, ghost done: seq<byte>, ghost size: nat)
    requires Holding(buffer[..], done, size) && at == |done| && at + |x| <= size
    modifies buffer
    ensures Holding(buffer[..], done + x, size) && buffer[size..] == old(buffer[size..])
  {
    ghost var before := buffer[..];
    Store(buffer, at, x);
    assert buffer[..][at + |x|..] == before[at + |x|..];
    assert buffer[..][|done + x|..size] == before[|done + x|..size];
    assert buffer[size..] == before[size..];
  }

  /** Bytes left clear are part of the record. */
  lemma Skip(buffer: seq<byte>, done: seq<byte>, size: nat, n: nat)
    requires Holding(buffer, done, size) && |done| + n <= size
    ensures Holding(buffer, done + Zeros(n), size)
  {
    var at := |done|;
    var gap, rest := buffer[at..at + n], buffer[at + n..size];
    forall i | 0 <= i < n ensures gap[i] == 0 { assert gap[i] == buffer[at..size][i]; }
    forall i | 0 <= i < |rest| ensures rest[i] == 0 { assert rest[i] == buffer[at..size][n + i]; }
    ZeroIs(gap);
    assert buffer[..at + n] == buffer[..at] + gap;
  }

  method StoreSlot(buffer: array<byte>, at: nat, slot: Slot, range: Range, ghost done: seq<byte>, ghost size: nat)
    requires Holding(buffer[..], done, size) && at == |done| && at + SLOT_SIZE <= size && |slot.schema| == DIGEST_SIZE
    modifies buffer
    ensures Holding(buffer[..], done + SlotRecord(slot, range), size) && buffer[size..] == old(buffer[size..])
  {
    hide Holding, Le, Zeros;
    ghost var r := Le(slot.id, 4);
    Put(buffer, at, Le(slot.id, 4), done, size);
    Put(buffer, at + 4, Le(slot.kind, 4), done + r, size);
    Longer(done, r, Le(slot.kind, 4));
    r := r + Le(slot.kind, 4);
    Put(buffer, at + 8, Le(slot.state, 4), done + r, size);
    Longer(done, r, Le(slot.state, 4));
    r := r + Le(slot.state, 4);
    Put(buffer, at + 12, Le(range.start, 4), done + r, size);
    Longer(done, r, Le(range.start, 4));
    r := r + Le(range.start, 4);
    Put(buffer, at + 16, Le(range.count, 4), done + r, size);
    Longer(done, r, Le(range.count, 4));
    r := r + Le(range.count, 4);
    Skip(buffer[..], done + r, size, 12);
    Longer(done, r, Zeros(12));
    r := r + Zeros(12);
    Put(buffer, at + 32, slot.schema, done + r, size);
    Longer(done, r, slot.schema);
  }

  method StoreObject(buffer: array<byte>, at: nat, entry: Object, range: Range, ghost done: seq<byte>, ghost size: nat)
    requires Holding(buffer[..], done, size) && at == |done| && at + OBJECT_SIZE <= size
    modifies buffer
    ensures Holding(buffer[..], done + ObjectRecord(entry, range), size) && buffer[size..] == old(buffer[size..])
  {
    hide Holding, Le, Zeros;
    ghost var r := Le(entry.slot, 4);
    Put(buffer, at, Le(entry.slot, 4), done, size);
    Skip(buffer[..], done + r, size, 4);
    Longer(done, r, Zeros(4));
    r := r + Zeros(4);
    Put(buffer, at + 8, Le(entry.id, 8), done + r, size);
    Longer(done, r, Le(entry.id, 8));
    r := r + Le(entry.id, 8);
    Put(buffer, at + 16, Le(entry.rights, 8), done + r, size);
    Longer(done, r, Le(entry.rights, 8));
    r := r + Le(entry.rights, 8);
    Put(buffer, at + 24, Le(range.start, 4), done + r, size);
    Longer(done, r, Le(range.start, 4));
    r := r + Le(range.start, 4);
    Put(buffer, at + 28, Le(range.count, 4), done + r, size);
    Longer(done, r, Le(range.count, 4));
  }

  method StoreHandle(buffer: array<byte>, at: nat, handle: Handle, ghost done: seq<byte>, ghost size: nat)
    requires Holding(buffer[..], done, size) && at == |done| && at + HANDLE_SIZE <= size
    modifies buffer
    ensures Holding(buffer[..], done + HandleRecord(handle), size) && buffer[size..] == old(buffer[size..])
  {
    hide Holding, Le;
    ghost var r := Le(handle.objectId, 8);
    Put(buffer, at, Le(handle.objectId, 8), done, size);
    Put(buffer, at + 8, Le(handle.role, 4), done + r, size);
    Longer(done, r, Le(handle.role, 4));
    r := r + Le(handle.role, 4);
    Put(buffer, at + 12, Le(handle.index, 4), done + r, size);
    Longer(done, r, Le(handle.index, 4));
  }

  method StoreHeader(buffer: array<byte>, s: Source, ghost size: nat)
    requires Holding(buffer[..], [], size) && HEADER_SIZE <= size && |s.manifest| == DIGEST_SIZE
    modifies buffer
    ensures Holding(buffer[..], Header(s), size) && buffer[size..] == old(buffer[size..])
  {
    hide Holding, Le, Zeros;
    var n, m, k := |s.slots|, |s.objects|, |s.handles|;
    ghost var done := Le(HandleOffset(n, m, k), 4);
    Put(buffer, 0, Le(HandleOffset(n, m, k), 4), [], size);
    assert [] + done == done;
    Put(buffer, 4, IDENTITY, done, size);
    done := done + IDENTITY;
    Put(buffer, 8, SCHEMA, done, size);
    done := done + SCHEMA;
    Put(buffer, 40, Le(s.generation, 8), done, size);
    done := done + Le(s.generation, 8);
    Put(buffer, 48, s.manifest, done, size);
    done := done + s.manifest;
    Put(buffer, 80, Le(n, 4), done, size);
    done := done + Le(n, 4);
    Put(buffer, 84, Le(m, 4), done, size);
    done := done + Le(m, 4);
    Put(buffer, 88, Le(k, 4), done, size);
    done := done + Le(k, 4);
    Put(buffer, 92, Le(SlotOffset(0), 4), done, size);
    done := done + Le(SlotOffset(0), 4);
    Put(buffer, 96, Le(ObjectOffset(n, 0), 4), done, size);
    done := done + Le(ObjectOffset(n, 0), 4);
    Put(buffer, 100, Le(HandleOffset(n, m, 0), 4), done, size);
    done := done + Le(HandleOffset(n, m, 0), 4);
    Skip(buffer[..], done, size, 24);
  }

  // ------------------------------------------------------------------ the encoder

  /** What the three loops have put after the header. */
  function BytesUpTo(s: Source, n: nat, m: nat, k: nat): seq<byte>
    requires n <= |s.slots| && m <= |s.objects| && k <= |s.handles|
  {
    Header(s) + SlotBytes(s, n) + ObjectBytes(s, m) + HandleBytes(s, k)
  }

  lemma UpToSize(s: Source, n: nat, m: nat, k: nat)
    requires Shaped(s) && n <= |s.slots| && m <= |s.objects| && k <= |s.handles|
    ensures |BytesUpTo(s, n, m, k)| == HEADER_SIZE + n * SLOT_SIZE + m * OBJECT_SIZE + k * HANDLE_SIZE
    ensures BytesUpTo(s, 0, 0, 0) == Header(s)
  {
    hide Header, SlotRecord, ObjectRecord, HandleRecord, SlotObjects, ObjectHandles;
    HeaderSize(s);
    SlotBytesSize(s, n);
    ObjectBytesSize(s, m);
    HandleBytesSize(s, k);
  }

  lemma OneMoreSlot(s: Source, n: nat)
    requires n < |s.slots|
    ensures BytesUpTo(s, n + 1, 0, 0) == BytesUpTo(s, n, 0, 0) + SlotRecord(s.slots[n], SlotObjects(s, n))
  {
    hide Header, SlotRecord, SlotObjects;
    Longer(Header(s), SlotBytes(s, n), SlotRecord(s.slots[n], SlotObjects(s, n)));
  }

  lemma OneMoreObject(s: Source, m: nat)
    requires m < |s.objects|
    ensures BytesUpTo(s, |s.slots|, m + 1, 0) == BytesUpTo(s, |s.slots|, m, 0) + ObjectRecord(s.objects[m], ObjectHandles(s, m))
  {
    hide Header, ObjectRecord, ObjectHandles, SlotBytes;
    Longer(Header(s) + SlotBytes(s, |s.slots|), ObjectBytes(s, m), ObjectRecord(s.objects[m], ObjectHandles(s, m)));
  }

  lemma OneMoreHandle(s: Source, k: nat)
    requires k < |s.handles|
    ensures BytesUpTo(s, |s.slots|, |s.objects|, k + 1) == BytesUpTo(s, |s.slots|, |s.objects|, k) + HandleRecord(s.handles[k])
  {
    hide Header, HandleRecord, SlotBytes, ObjectBytes;
    Longer(Header(s) + SlotBytes(s, |s.slots|) + ObjectBytes(s, |s.objects|), HandleBytes(s, k), HandleRecord(s.handles[k]));
  }

  method StoreNextSlot(buffer: array<byte>, s: Source, index: nat, cursor: nat, ghost size: nat) returns (cursor': nat)
    requires Shaped(s) && Valid(s) && size == HandleOffset(|s.slots|, |s.objects|, |s.handles|) <= buffer.Length
    requires index < |s.slots| && cursor == SlotObjects(s, index).start
    requires Holding(buffer[..], BytesUpTo(s, index, 0, 0), size)
    modifies buffer
    ensures Holding(buffer[..], BytesUpTo(s, index + 1, 0, 0), size) && buffer[size..] == old(buffer[size..])
    ensures cursor' == End(SlotObjects(s, index))
  {
    hide Holding, BytesUpTo, SlotRecord, Valid, RangeOf, SlotsValid, ObjectsSorted, NonDecreasing, Shaped;
    SortedSource(s);
    ShapedSlot(s, index);
    UpToSize(s, index, 0, 0);
    OneMoreSlot(s, index);
    cursor' := PassObjects(s.objects, cursor, s.slots[index].id);
    StoreSlot(buffer, SlotOffset(index), s.slots[index], Range(cursor, cursor' - cursor), BytesUpTo(s, index, 0, 0), size);
  }

  lemma SlotStarts(s: Source, i: nat)
    requires Valid(s) && i < |s.slots|
    ensures SlotObjects(s, i).start == if i == 0 then 0 else End(SlotObjects(s, i - 1))
  {
    hide Valid, RangeOf;
    SortedSource(s);
    SlotStart(s.slots, s.objects, i);
  }

  method StoreSlots(buffer: array<byte>, s: Source, ghost size: nat)
    requires Shaped(s) && Valid(s) && size == HandleOffset(|s.slots|, |s.objects|, |s.handles|) <= buffer.Length
    requires Holding(buffer[..], BytesUpTo(s, 0, 0, 0), size)
    modifies buffer
    ensures Holding(buffer[..], BytesUpTo(s, |s.slots|, 0, 0), size) && buffer[size..] == old(buffer[size..])
  {
    hide Holding, BytesUpTo, Valid, SlotObjects, Shaped, HandleOffset;
    ghost var tail := buffer[size..];
    var cursor := 0;
    for index := 0 to |s.slots|
      invariant Holding(buffer[..], BytesUpTo(s, index, 0, 0), size) && buffer[size..] == tail
      invariant cursor == if index == 0 then 0 else End(SlotObjects(s, index - 1))
    {
      SlotStarts(s, index);
      cursor := StoreNextSlot(buffer, s, index, cursor, size);
    }
  }

  lemma ShapedSlot(s: Source, i: nat)
    requires Shaped(s) && i < |s.slots|
    ensures |s.slots[i].schema| == DIGEST_SIZE
  {
  }

  lemma SortedSource(s: Source)
    requires Valid(s)
    ensures SlotsValid(s.slots) && ObjectsSorted(s.slots, s.objects) && NonDecreasing(ObjectSlots(s.objects))
  {
    hide SlotsValid, HandlesValid, NonDecreasing;
  }

  lemma HandleStart(s: Source, i: nat)
    requires Valid(s) && i < |s.objects|
    ensures NonDecreasing(HandleObjects(s.handles))
    ensures ObjectHandles(s, i).start == if i == 0 then 0 else End(ObjectHandles(s, i - 1))
  {
    hide SlotsValid, ObjectOk, Lower;
    HandlesSorted(s.objects, s.handles);
    Adjacent(ObjectIds(s.objects), HandleObjects(s.handles), i);
  }

  lemma ObjectFits(s: Source, i: nat)
    requires Shaped(s) && i < |s.objects|
    ensures |BytesUpTo(s, |s.slots|, i, 0)| == ObjectOffset(|s.slots|, i)
    ensures ObjectOffset(|s.slots|, i) + OBJECT_SIZE <= HandleOffset(|s.slots|, |s.objects|, |s.handles|)
  {
    hide BytesUpTo;
    UpToSize(s, |s.slots|, i, 0);
  }

  method StoreNextObject(buffer: array<byte>, s: Source, index: nat, cursor: nat, ghost size: nat) returns (cursor': nat)
    requires Shaped(s) && Valid(s) && size == HandleOffset(|s.slots|, |s.objects|, |s.handles|) <= buffer.Length
    requires index < |s.objects| && cursor == ObjectHandles(s, index).start
    requires Holding(buffer[..], BytesUpTo(s, |s.slots|, index, 0), size)
    modifies buffer
    ensures Holding(buffer[..], BytesUpTo(s, |s.slots|, index + 1, 0), size) && buffer[size..] == old(buffer[size..])
    ensures cursor' == End(ObjectHandles(s, index))
  {
    hide Holding, BytesUpTo, ObjectRecord, Valid, RangeOf, NonDecreasing, Shaped, ObjectOffset, HandleOffset;
    HandleStart(s, index);
    ObjectFits(s, index);
    OneMoreObject(s, index);
    cursor' := PassHandles(s.handles, cursor, s.objects[index].id);
    StoreObject(buffer, ObjectOffset(|s.slots|, index), s.objects[index], Range(cursor, cursor' - cursor),
                BytesUpTo(s, |s.slots|, index, 0), size);
  }

  method StoreObjects(buffer: array<byte>, s: Source, ghost size: nat)
    requires Shaped(s) && Valid(s) && size == HandleOffset(|s.slots|, |s.objects|, |s.handles|) <= buffer.Length
    requires Holding(buffer[..], BytesUpTo(s, |s.slots|, 0, 0), size)
    modifies buffer
    ensures Holding(buffer[..], BytesUpTo(s, |s.slots|, |s.objects|, 0), size) && buffer[size..] == old(buffer[size..])
  {
    hide Holding, BytesUpTo, Valid, ObjectHandles, Shaped, HandleOffset;
    ghost var tail := buffer[size..];
    var cursor := 0;
    for index := 0 to |s.objects|
      invariant Holding(buffer[..], BytesUpTo(s, |s.slots|, index, 0), size) && buffer[size..] == tail
      invariant cursor == if index == 0 then 0 else End(ObjectHandles(s, index - 1))
    {
      HandleStart(s, index);
      cursor := StoreNextObject(buffer, s, index, cursor, size);
    }
  }

  method StoreHandles(buffer: array<byte>, s: Source, ghost size: nat)
    requires Shaped(s) && size == HandleOffset(|s.slots|, |s.objects|, |s.handles|)
    requires size <= buffer.Length
    requires Holding(buffer[..], BytesUpTo(s, |s.slots|, |s.objects|, 0), size)
    modifies buffer
    ensures Holding(buffer[..], Encoded(s), size) && buffer[size..] == old(buffer[size..])
  {
    assert BytesUpTo(s, |s.slots|, |s.objects|, |s.handles|) == Encoded(s);
    hide Holding, BytesUpTo, HandleRecord, Shaped, Encoded;
    for index := 0 to |s.handles|
      invariant Holding(buffer[..], BytesUpTo(s, |s.slots|, |s.objects|, index), size) && buffer[size..] == old(buffer[size..])
    {
      UpToSize(s, |s.slots|, |s.objects|, index);
      StoreHandle(buffer, HandleOffset(|s.slots|, |s.objects|, index), s.handles[index], BytesUpTo(s, |s.slots|, |s.objects|, index), size);
      OneMoreHandle(s, index);
    }
  }

  lemma HoldsAll(buffer: seq<byte>, s: Source, size: nat)
    requires Shaped(s) && size == HandleOffset(|s.slots|, |s.objects|, |s.handles|) && Holding(buffer, Encoded(s), size)
    ensures size <= |buffer| && buffer[..size] == Encoded(s) && Encodes(s, buffer[..size])
  {
    hide Encodes, Encoded;
    EncodedSize(s);
    EncodedEncodes(s);
  }

  lemma ClearHolds(buffer: seq<byte>, size: nat)
    requires size <= |buffer| && buffer[..size] == Zeros(size)
    ensures Holding(buffer, [], size)
  {
    assert buffer[0..size] == buffer[..size];
  }

  /** kb2_resource_grant_encode. */
  method Encode(buffer: array<byte>, s: Source) returns (status: Status, size: nat)
    requires Shaped(s)
    modifies buffer
    ensures status.Malformed? <==> !Valid(s)
    ensures status.BufferTooSmall? <==> Valid(s) && buffer.Length < HandleOffset(|s.slots|, |s.objects|, |s.handles|)
    ensures status.Okay? <==> Valid(s) && HandleOffset(|s.slots|, |s.objects|, |s.handles|) <= buffer.Length
    ensures status.Okay? ==> size <= buffer.Length && Encodes(s, buffer[..size]) && buffer[size..] == old(buffer[size..])
    ensures !status.Okay? ==> buffer[..] == old(buffer[..])
  {
    hide Valid, Holding, Encodes, Encoded;
    size := 0;
    var ok := SourceValid(s);
    if !ok { return Malformed, size; }
    size := HandleOffset(|s.slots|, |s.objects|, |s.handles|);
    if buffer.Length < size { return BufferTooSmall, size; }
    Clear(buffer, size);
    assert buffer[..][..size] == buffer[..size];
    ClearHolds(buffer[..], size);
    StoreHeader(buffer, s, size);
    UpToSize(s, 0, 0, 0);
    StoreSlots(buffer, s, size);
    StoreObjects(buffer, s, size);
    StoreHandles(buffer, s, size);
    HoldsAll(buffer[..], s, size);
    assert buffer[..][..size] == buffer[..size];
    return Okay, size;
  }
}
