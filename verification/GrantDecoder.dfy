/** The decoder of resource grants: one pass per table, with cursors and prior identifiers. */
module GrantDecoder {
  import opened Bytes
  import opened Fields
  import opened Partitions
  import opened GrantRecords
  import opened ResourceGrant

  /** Everything the accessors read from the three tables. */
  datatype Tables = Tables(
    slots: seq<Slot>, slotRanges: seq<Range>, slotClear: seq<bool>,
    objects: seq<Object>, objectRanges: seq<Range>, objectClear: seq<bool>,
    handles: seq<Handle>)

  ghost predicate Even(t: Tables) {
    |t.slotRanges| == |t.slots| == |t.slotClear| && |t.objectRanges| == |t.objects| == |t.objectClear|
  }

  function SlotClear(b: seq<byte>, n: nat): (r: seq<bool>)
    requires SlotOffset(n) <= |b|
    ensures |r| == n && forall i :: 0 <= i < n ==> r[i] == Zero(b[SlotOffset(i) + 20..SlotOffset(i) + 32])
  {
    if n == 0 then [] else SlotClear(b, n - 1) + [Zero(b[SlotOffset(n - 1) + 20..SlotOffset(n - 1) + 32])]
  }

  function ObjectClear(b: seq<byte>, slots: nat, n: nat): (r: seq<bool>)
    ensures |r| == n && forall i :: 0 <= i < n ==> r[i] == ObjectReserved(b, slots, i)
  {
    if n == 0 then [] else ObjectClear(b, slots, n - 1) + [ObjectReserved(b, slots, n - 1)]
  }

  ghost function TablesAt(b: seq<byte>): (t: Tables)
    requires HeaderFits(b)
    ensures Even(t) && |t.slots| == U32At(b, 80) && |t.objects| == U32At(b, 84) && |t.handles| == U32At(b, 88)
  {
    var s, n, m := SourceAt(b), U32At(b, 80), U32At(b, 84);
    Tables(s.slots, SlotRanges(b, n), SlotClear(b, n), s.objects, ObjectRanges(b, n, m), ObjectClear(b, n, m), s.handles)
  }

  // ------------------------------------------------------------------ accessors

  method ReadSlot(b: seq<byte>, index: nat) returns (slot: Slot, range: Range, clear: bool)
    requires HeaderFits(b) && index < |TablesAt(b).slots|
    ensures slot == TablesAt(b).slots[index] && range == TablesAt(b).slotRanges[index] && clear == TablesAt(b).slotClear[index]
  {
    hide U32At, U64At, Zero;
    var o := SlotOffset(index);
    return SlotAt(b, o), SlotRange(b, o), Zero(b[o + 20..o + 32]);
  }

  method ReadObject(b: seq<byte>, index: nat) returns (entry: Object, range: Range, clear: bool)
    requires HeaderFits(b) && index < |TablesAt(b).objects|
    ensures entry == TablesAt(b).objects[index] && range == TablesAt(b).objectRanges[index] && clear == TablesAt(b).objectClear[index]
  {
    hide U32At, U64At, Zero;
    var o := ObjectOffset(U32At(b, 80), index);
    return ObjectAt(b, o), ObjectRange(b, o), Zero(b[o + 4..o + 8]);
  }

  method ReadHandle(b: seq<byte>, index: nat) returns (handle: Handle)
    requires HeaderFits(b) && index < |TablesAt(b).handles|
    ensures handle == TablesAt(b).handles[index]
  {
    hide U32At, U64At;
    return HandleAt(b, HandleOffset(U32At(b, 80), U32At(b, 84), index));
  }

  // ----------------------------------------------------------- what the passes check

  ghost predicate SlotPass(t: Tables)
    requires Even(t)
  {
    && SlotsValid(t.slots)
    && (forall i :: 0 <= i < |t.slots| ==> t.slotClear[i] && StateFits(t.slots[i], t.slotRanges[i]))
    && Partition(SlotIds(t.slots), t.slotRanges, ObjectSlots(t.objects))
  }

  ghost predicate ObjectPass(t: Tables)
    requires Even(t)
  {
    && Increasing(ObjectIds(t.objects))
    && (forall i :: 0 <= i < |t.objects| ==> ObjectOk(t.slots, t.objects[i]) && t.objectClear[i])
    && Partition(ObjectIds(t.objects), t.objectRanges, HandleObjects(t.handles))
  }

  lemma TablesSource(b: seq<byte>)
    requires HeaderFits(b)
    ensures var t, s := TablesAt(b), SourceAt(b);
            && t.slots == s.slots && t.objects == s.objects && t.handles == s.handles
            && t.slotRanges == SlotRanges(b, U32At(b, 80)) && t.objectRanges == ObjectRanges(b, U32At(b, 80), U32At(b, 84))
            && |s.slots| == U32At(b, 80) && |s.objects| == U32At(b, 84)
            && t.slotClear == SlotClear(b, |s.slots|) && t.objectClear == ObjectClear(b, |s.slots|, |s.objects|)
  {
    hide U32At, Zero;
  }

  lemma SlotPassDecodes(b: seq<byte>)
    requires HeaderFits(b)
    ensures SlotsDecode(b) <==> SlotPass(TablesAt(b))
  {
    TablesSource(b);
    hide U32At, Zero, Partition, SlotsValid, StateFits, TablesAt, SourceAt, SlotRanges, HeaderFits;
  }

  lemma ObjectPassDecodes(b: seq<byte>)
    requires HeaderFits(b)
    ensures ObjectsDecode(b) <==> ObjectPass(TablesAt(b))
  {
    TablesSource(b);
    hide U32At, ObjectReserved, Partition, ObjectOk, Increasing, TablesAt, SourceAt, ObjectRanges, HeaderFits;
  }

  // ------------------------------------------------------------------ the slot pass

  /** What the slot pass checks at entry `i`, given the entry before it. */
  ghost predicate SlotStep(t: Tables, i: nat)
    requires Even(t) && i < |t.slots|
  {
    && SlotOk(t.slots[i]) && t.slotClear[i] && StateFits(t.slots[i], t.slotRanges[i]) && StepUp(SlotIds(t.slots), i)
    && RangeFits(SlotIds(t.slots), t.slotRanges, ObjectSlots(t.objects), i)
  }

  lemma SlotStepsPass(t: Tables)
    requires Even(t)
    ensures SlotPass(t) <==> (forall i: nat :: i < |t.slots| ==> SlotStep(t, i)) && LastEnd(t.slotRanges) == |t.objects|
  {
    hide SlotOk, StateFits, RangeFits, LastEnd;
    if (forall i: nat :: i < |t.slots| ==> SlotStep(t, i)) && LastEnd(t.slotRanges) == |t.objects| {
      forall k: nat ensures StepUp(SlotIds(t.slots), k) {
        if k < |t.slots| { assert SlotStep(t, k); }
      }
      StepsIncrease(SlotIds(t.slots));
      forall i: nat | i < |t.slots| ensures RangeFits(SlotIds(t.slots), t.slotRanges, ObjectSlots(t.objects), i) { assert SlotStep(t, i); }
      forall i: nat | i < |t.slots| ensures SlotOk(t.slots[i]) && t.slotClear[i] && StateFits(t.slots[i], t.slotRanges[i]) {
        assert SlotStep(t, i);
      }
    }
    if SlotPass(t) {
      forall i: nat | i < |t.slots| ensures SlotStep(t, i) {
        assert RangeFits(SlotIds(t.slots), t.slotRanges, ObjectSlots(t.objects), i);
      }
    }
  }

  /** Whether all objects of a range name the slot. */
  method ObjectsName(b: seq<byte>, range: Range, id: u32) returns (ok: bool)
    requires HeaderFits(b) && End(range) <= |TablesAt(b).objects|
    ensures ok <==> Partitions.Holds(ObjectSlots(TablesAt(b).objects), range, id)
  {
    hide HeaderFits, TablesAt;
    for k := 0 to range.count
      invariant forall j :: range.start <= j < range.start + k ==> ObjectSlots(TablesAt(b).objects)[j] == id
    {
      var entry, handles, clear := ReadObject(b, range.start + k);
      if entry.slot != id {
        assert ObjectSlots(TablesAt(b).objects)[range.start + k] != id;
        return false;
      }
    }
    return true;
  }

  lemma HoldsFits(keys: seq<nat>, r: Range, id: nat)
    ensures Partitions.Holds(keys, r, id) ==> End(r) <= |keys|
  {
  }

  /** The cursor and the prior identifier stand after the first `i` slots. */
  ghost predicate SlotCursor(t: Tables, i: nat, cursor: nat, prior: nat)
    requires Even(t) && i <= |t.slots|
  {
    && cursor == (if i == 0 then 0 else End(t.slotRanges[i - 1])) && cursor <= |t.objects|
    && prior == if i == 0 then 0 else t.slots[i - 1].id
  }

  method CheckSlot(b: seq<byte>, index: nat, cursor: nat, prior: nat) returns (ok: bool, cursor': nat, prior': nat)
    requires HeaderFits(b) && index < |TablesAt(b).slots| && SlotCursor(TablesAt(b), index, cursor, prior)
    ensures ok <==> SlotStep(TablesAt(b), index)
    ensures ok ==> SlotCursor(TablesAt(b), index + 1, cursor', prior')
  {
    hide HeaderFits, TablesAt, Partitions.Holds, SlotOk;
    ghost var t := TablesAt(b);
    var slot, range, clear := ReadSlot(b, index);
    var total := CountObjects(b);
    HoldsFits(ObjectSlots(t.objects), range, slot.id);
    cursor', prior' := End(range), slot.id;
    SlotIdPositive(slot);
    if !SlotOk(slot) || !clear || slot.id <= prior || range.start != cursor || range.count > total - cursor
       || (slot.state == ABSENT && range.count != 0) || (slot.state == PRESENT && range.count == 0) {
      return false, cursor', prior';
    }
    ok := ObjectsName(b, range, slot.id);
  }

  lemma SlotIdPositive(slot: Slot)
    ensures SlotOk(slot) ==> slot.id > 0
  {
  }

  method CountObjects(b: seq<byte>) returns (n: nat)
    requires HeaderFits(b)
    ensures n == |TablesAt(b).objects|
  {
    return U32At(b, 84);
  }

  method CountSlots(b: seq<byte>) returns (n: nat)
    requires HeaderFits(b)
    ensures n == |TablesAt(b).slots|
  {
    return U32At(b, 80);
  }

  method CountHandles(b: seq<byte>) returns (n: nat)
    requires HeaderFits(b)
    ensures n == |TablesAt(b).handles|
  {
    return U32At(b, 88);
  }

  method CheckSlots(b: seq<byte>) returns (ok: bool)
    requires HeaderFits(b)
    ensures ok <==> SlotPass(TablesAt(b))
  {
    hide HeaderFits, TablesAt, SlotStep, SlotPass;
    ghost var t := TablesAt(b);
    SlotStepsPass(t);
    var n := CountSlots(b);
    var cursor, prior := 0, 0;
    for index := 0 to n
      invariant (forall i: nat :: i < index ==> SlotStep(t, i)) && SlotCursor(t, index, cursor, prior)
    {
      ok, cursor, prior := CheckSlot(b, index, cursor, prior);
      if !ok { return; }
    }
    var total := CountObjects(b);
    ok := cursor == total;
  }

  // ---------------------------------------------------------------- the object pass

  /** Binary search for a slot. */
  method FindSlot(b: seq<byte>, id: u32) returns (found: bool, slot: Slot)
    requires HeaderFits(b) && SlotsValid(TablesAt(b).slots)
    ensures found ==> slot in TablesAt(b).slots && slot.id == id
    ensures !found ==> forall s :: s in TablesAt(b).slots ==> s.id != id
  {
    hide HeaderFits, TablesAt, SlotOk;
    ghost var ids := SlotIds(TablesAt(b).slots);
    var left, right := 0, 0;
    right := CountSlots(b);
    while left < right
      invariant 0 <= left <= right <= |ids|
      invariant forall i :: 0 <= i < left ==> ids[i] < id
      invariant forall i :: right <= i < |ids| ==> ids[i] > id
    {
      var middle := left + (right - left) / 2;
      var range, clear;
      slot, range, clear := ReadSlot(b, middle);
      assert ids[middle] == slot.id;
      if slot.id == id { return true, slot; }
      if slot.id < id { left := middle + 1; } else { right := middle; }
    }
    forall s | s in TablesAt(b).slots ensures s.id != id {
      var i :| 0 <= i < |ids| && TablesAt(b).slots[i] == s;
      assert ids[i] == s.id;
    }
    return false, Slot(0, 0, 0, []);
  }

  lemma ObjectOkBySlot(slots: seq<Slot>, o: Object, slot: Slot)
    requires SlotsValid(slots) && slot in slots && slot.id == o.slot
    ensures ObjectOk(slots, o) <==> o.id != 0 && Grants(slot, o)
  {
    var j :| 0 <= j < |slots| && slots[j] == slot;
    if ObjectOk(slots, o) {
      var k :| 0 <= k < |slots| && Grants(slots[k], o);
      assert SlotIds(slots)[k] == SlotIds(slots)[j];
    }
  }

  lemma ObjectNeedsSlot(slots: seq<Slot>, o: Object)
    requires forall s :: s in slots ==> s.id != o.slot
    ensures !ObjectOk(slots, o)
  {
    forall k | 0 <= k < |slots| ensures !Grants(slots[k], o) { assert slots[k] in slots; }
  }

  /** Whether all handles of a range name the object. */
  method HandlesName(b: seq<byte>, range: Range, id: u64) returns (ok: bool)
    requires HeaderFits(b) && End(range) <= |TablesAt(b).handles|
    ensures ok <==> Partitions.Holds(HandleObjects(TablesAt(b).handles), range, id)
  {
    hide HeaderFits, TablesAt;
    for k := 0 to range.count
      invariant forall j :: range.start <= j < range.start + k ==> HandleObjects(TablesAt(b).handles)[j] == id
    {
      var handle := ReadHandle(b, range.start + k);
      if handle.objectId != id {
        assert HandleObjects(TablesAt(b).handles)[range.start + k] != id;
        return false;
      }
    }
    return true;
  }

  ghost predicate ObjectStep(t: Tables, i: nat)
    requires Even(t) && i < |t.objects|
  {
    && ObjectOk(t.slots, t.objects[i]) && t.objectClear[i] && StepUp(ObjectIds(t.objects), i)
    && RangeFits(ObjectIds(t.objects), t.objectRanges, HandleObjects(t.handles), i)
  }

  lemma ObjectStepsPass(t: Tables)
    requires Even(t)
    ensures ObjectPass(t) <==> (forall i: nat :: i < |t.objects| ==> ObjectStep(t, i)) && LastEnd(t.objectRanges) == |t.handles|
  {
    hide ObjectOk, RangeFits, LastEnd;
    if (forall i: nat :: i < |t.objects| ==> ObjectStep(t, i)) && LastEnd(t.objectRanges) == |t.handles| {
      forall k: nat ensures StepUp(ObjectIds(t.objects), k) {
        if k < |t.objects| { assert ObjectStep(t, k); }
      }
      StepsIncrease(ObjectIds(t.objects));
      forall i: nat | i < |t.objects| ensures RangeFits(ObjectIds(t.objects), t.objectRanges, HandleObjects(t.handles), i) {
        assert ObjectStep(t, i);
      }
      forall i: nat | i < |t.objects| ensures ObjectOk(t.slots, t.objects[i]) && t.objectClear[i] { assert ObjectStep(t, i); }
    }
    if ObjectPass(t) {
      forall i: nat | i < |t.objects| ensures ObjectStep(t, i) {
        assert RangeFits(ObjectIds(t.objects), t.objectRanges, HandleObjects(t.handles), i);
      }
    }
  }

  ghost predicate ObjectCursor(t: Tables, i: nat, cursor: nat, prior: nat, priorSlot: nat)
    requires Even(t) && i <= |t.objects|
  {
    && cursor == (if i == 0 then 0 else End(t.objectRanges[i - 1])) && cursor <= |t.handles|
    && prior == (if i == 0 then 0 else t.objects[i - 1].id) && priorSlot == if i == 0 then 0 else t.objects[i - 1].slot
  }

  lemma ObjectFacts(slots: seq<Slot>, o: Object)
    ensures ObjectOk(slots, o) ==> o.id > 0
  {
  }

  method CheckObject(b: seq<byte>, index: nat, cursor: nat, prior: nat, priorSlot: nat)
    returns (ok: bool, cursor': nat, prior': nat, priorSlot': nat)
    requires HeaderFits(b) && SlotPass(TablesAt(b)) && index < |TablesAt(b).objects|
    requires ObjectCursor(TablesAt(b), index, cursor, prior, priorSlot) && NonDecreasing(ObjectSlots(TablesAt(b).objects))
    ensures ok <==> ObjectStep(TablesAt(b), index)
    ensures ok ==> ObjectCursor(TablesAt(b), index + 1, cursor', prior', priorSlot')
  {
    hide HeaderFits, TablesAt, Partitions.Holds, ObjectOk, Partition, Grants;
    ghost var t := TablesAt(b);
    var entry, range, clear := ReadObject(b, index);
    var total := CountHandles(b);
    HoldsFits(HandleObjects(t.handles), range, entry.id);
    ObjectFacts(t.slots, entry);
    cursor', prior', priorSlot' := End(range), entry.id, entry.slot;
    assert index > 0 ==> ObjectSlots(t.objects)[index - 1] <= ObjectSlots(t.objects)[index];
    if entry.id == 0 || !clear || entry.slot < priorSlot || entry.id <= prior || range.start != cursor || range.count > total - cursor {
      return false, cursor', prior', priorSlot';
    }
    var found, slot := FindSlot(b, entry.slot);
    if !found {
      ObjectNeedsSlot(t.slots, entry);
      return false, cursor', prior', priorSlot';
    }
    ObjectOkBySlot(t.slots, entry, slot);
    if !Grants(slot, entry) { return false, cursor', prior', priorSlot'; }
    ok := HandlesName(b, range, entry.id);
  }

  method CheckObjects(b: seq<byte>) returns (ok: bool)
    requires HeaderFits(b) && SlotPass(TablesAt(b))
    ensures ok <==> ObjectPass(TablesAt(b))
  {
    hide HeaderFits, TablesAt, ObjectStep, ObjectPass, Partition;
    ghost var t := TablesAt(b);
    ObjectStepsPass(t);
    PartitionSorted(SlotIds(t.slots), t.slotRanges, ObjectSlots(t.objects));
    var n := CountObjects(b);
    var cursor, prior, priorSlot := 0, 0, 0;
    for index := 0 to n
      invariant (forall i: nat :: i < index ==> ObjectStep(t, i)) && ObjectCursor(t, index, cursor, prior, priorSlot)
    {
      ok, cursor, prior, priorSlot := CheckObject(b, index, cursor, prior, priorSlot);
      if !ok { return; }
    }
    var total := CountHandles(b);
    ok := cursor == total;
  }

  // ---------------------------------------------------------------- the handle pass

  /** Binary search for an object. */
  method FindObject(b: seq<byte>, id: u64) returns (found: bool)
    requires HeaderFits(b) && Increasing(ObjectIds(TablesAt(b).objects))
    ensures found <==> id as nat in ObjectIds(TablesAt(b).objects)
  {
    hide HeaderFits, TablesAt;
    ghost var ids := ObjectIds(TablesAt(b).objects);
    var left, right := 0, 0;
    right := CountObjects(b);
    while left < right
      invariant 0 <= left <= right <= |ids|
      invariant forall i :: 0 <= i < left ==> ids[i] < id
      invariant forall i :: right <= i < |ids| ==> ids[i] > id
    {
      var middle := left + (right - left) / 2;
      var entry, range, clear := ReadObject(b, middle);
      assert ids[middle] == entry.id;
      if entry.id == id { return true; }
      if entry.id < id { left := middle + 1; } else { right := middle; }
    }
    return false;
  }

  ghost predicate HandleStep(os: seq<Object>, hs: seq<Handle>, i: nat)
    requires i < |hs|
  {
    && hs[i].index == i && hs[i].objectId as nat in ObjectIds(os)
    && (i > 0 ==> HandleBefore(hs[i - 1], hs[i]))
  }

  lemma {:induction false} HandlesAscend(os: seq<Object>, hs: seq<Handle>, i: nat, j: nat)
    requires (forall k: nat :: k < |hs| ==> HandleStep(os, hs, k)) && i < j < |hs|
    ensures HandleBefore(hs[i], hs[j])
    decreases j
  {
    assert HandleStep(os, hs, j);
    if i < j - 1 { HandlesAscend(os, hs, i, j - 1); }
  }

  lemma HandleStepsValid(os: seq<Object>, hs: seq<Handle>)
    ensures HandlesValid(os, hs) <==> forall i: nat :: i < |hs| ==> HandleStep(os, hs, i)
  {
    if forall i: nat :: i < |hs| ==> HandleStep(os, hs, i) {
      forall i: nat | i < |hs| ensures hs[i].index == i && hs[i].objectId as nat in ObjectIds(os) { assert HandleStep(os, hs, i); }
      forall i, j | 0 <= i < j < |hs| ensures HandleBefore(hs[i], hs[j]) { HandlesAscend(os, hs, i, j); }
    }
  }

  lemma IdsPositive(t: Tables)
    requires Even(t) && ObjectPass(t)
    ensures 0 !in ObjectIds(t.objects) && Increasing(ObjectIds(t.objects))
  {
    hide Partition;
    forall i | 0 <= i < |t.objects| ensures ObjectIds(t.objects)[i] > 0 { assert ObjectOk(t.slots, t.objects[i]); }
  }

  method CheckHandles(b: seq<byte>) returns (ok: bool)
    requires HeaderFits(b) && ObjectPass(TablesAt(b))
    ensures ok <==> HandlesValid(TablesAt(b).objects, TablesAt(b).handles)
  {
    hide HeaderFits, TablesAt, ObjectPass, HandlesValid;
    ghost var t := TablesAt(b);
    IdsPositive(t);
    HandleStepsValid(t.objects, t.handles);
    var n := CountHandles(b);
    var prior, role := 0, 0;
    for index := 0 to n
      invariant forall i: nat :: i < index ==> HandleStep(t.objects, t.handles, i)
      invariant prior == if index == 0 then 0 else t.handles[index - 1].objectId
      invariant role == if index == 0 then 0 else t.handles[index - 1].role
    {
      var handle := ReadHandle(b, index);
      var found := FindObject(b, handle.objectId);
      if !found || handle.index != index || handle.objectId < prior
         || (handle.objectId == prior && (index == 0 || handle.role <= role)) {
        assert !HandleStep(t.objects, t.handles, index);
        return false;
      }
      prior, role := handle.objectId, handle.role;
    }
    return true;
  }

  // --------------------------------------------------------------------- the decoder

  method CheckHeader(b: seq<byte>) returns (status: Status)
    ensures status.Okay? <==> HeaderOk(b)
    ensures status.BufferTooSmall? <==> |b| < HEADER_SIZE
    ensures status.Overflow? <==> |b| >= U32
    ensures status.SchemaMismatch? <==> HEADER_SIZE <= |b| < U32 && (b[4..8] != IDENTITY || b[8..40] != SCHEMA)
  {
    hide Zero;
    if |b| < HEADER_SIZE { return BufferTooSmall; }
    if |b| > U32 - 1 { return Overflow; }
    if b[4..8] != IDENTITY || b[8..40] != SCHEMA { return SchemaMismatch; }
    if U32At(b, 0) != |b| || !Zero(b[104..128]) { return Malformed; }
    var n, m, k := U32At(b, 80), U32At(b, 84), U32At(b, 88);
    if n > MAX_SLOTS || U32At(b, 92) != HEADER_SIZE || SlotOffset(n) > |b| { return Malformed; }
    if m > MAX_OBJECTS || U32At(b, 96) != SlotOffset(n) || ObjectOffset(n, m) > |b| { return Malformed; }
    if k > MAX_HANDLES || U32At(b, 100) != ObjectOffset(n, m) || HandleOffset(n, m, k) > |b| { return Malformed; }
    if HandleOffset(n, m, k) != |b| || U64At(b, 40) == 0 || Zero(b[48..80]) { return Malformed; }
    return Okay;
  }

  /** kb2_resource_grant_decode. */
  method Decode(b: seq<byte>) returns (status: Status)
    ensures status.Okay? <==> DecodeOk(b)
    ensures status.BufferTooSmall? <==> |b| < HEADER_SIZE
    ensures status.Overflow? <==> |b| >= U32
    ensures status.SchemaMismatch? <==> HEADER_SIZE <= |b| < U32 && (b[4..8] != IDENTITY || b[8..40] != SCHEMA)
  {
    status := CheckHeader(b);
    if !status.Okay? { return; }
    HeaderFitsToo(b);
    SlotPassDecodes(b);
    ObjectPassDecodes(b);
    TablesSource(b);
    hide HeaderOk, HeaderFits, TablesAt, SlotsDecode, ObjectsDecode, SlotPass, ObjectPass, HandlesValid, SourceAt;
    var ok := CheckSlots(b);
    if !ok { return Malformed; }
    ok := CheckObjects(b);
    if !ok { return Malformed; }
    ok := CheckHandles(b);
    status := if ok then Okay else Malformed;
  }

  lemma HeaderFitsToo(b: seq<byte>)
    ensures HeaderOk(b) ==> HeaderFits(b)
  {
  }
}
