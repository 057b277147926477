/** The validator and the encoder of resource grants. */
module GrantEncoder {
  import opened Bytes
  import opened Fields
  import opened Partitions
  import opened GrantRecords
  import opened ResourceGrant
  import D = GrantDecoder

  // ---------------------------------------------------------------- source_valid

  method CheckSlots(slots: seq<Slot>) returns (ok: bool)
    ensures ok <==> SlotsValid(slots)
  {
    hide SlotOk;
    ghost var ids := SlotIds(slots);
    var prior := 0;
    for index := 0 to |slots|
      invariant forall i :: 0 <= i < index ==> SlotOk(slots[i])
      invariant forall k: nat :: k < index ==> StepUp(ids, k)
      invariant prior == if index == 0 then 0 else slots[index - 1].id
    {
      D.SlotIdPositive(slots[index]);
      if slots[index].id <= prior || !SlotOk(slots[index]) {
        assert index > 0 && SlotOk(slots[index]) ==> ids[index - 1] >= ids[index];
        return false;
      }
      prior := slots[index].id;
    }
    StepsIncrease(ids);
    return true;
  }

  method FindSlot(slots: seq<Slot>, id: u32) returns (found: bool, index: nat)
    requires SlotsValid(slots)
    ensures found ==> index < |slots| && slots[index].id == id
    ensures !found ==> forall s :: s in slots ==> s.id != id
  {
    hide SlotOk;
    ghost var ids := SlotIds(slots);
    var left, right := 0, |slots|;
    while left < right
      invariant 0 <= left <= right <= |slots|
      invariant forall i :: 0 <= i < left ==> ids[i] < id
      invariant forall i :: right <= i < |slots| ==> ids[i] > id
    {
      var middle := left + (right - left) / 2;
      assert ids[middle] == slots[middle].id;
      if slots[middle].id == id { return true, middle; }
      if slots[middle].id < id { left := middle + 1; } else { right := middle; }
    }
    forall s | s in slots ensures s.id != id {
      var i :| 0 <= i < |slots| && slots[i] == s;
      assert ids[i] == s.id;
    }
    return false, 0;
  }

  /** What the object loop has checked at entry `i`. */
  ghost predicate ObjectStep(slots: seq<Slot>, os: seq<Object>, i: nat)
    requires i < |os|
  {
    ObjectOk(slots, os[i]) && (i > 0 ==> os[i - 1].id < os[i].id && os[i - 1].slot <= os[i].slot)
  }

  lemma {:induction false} ObjectsAscend(slots: seq<Slot>, os: seq<Object>, i: nat, j: nat)
    requires (forall k: nat :: k < |os| ==> ObjectStep(slots, os, k)) && i < j < |os|
    ensures os[i].id < os[j].id && os[i].slot <= os[j].slot
    decreases j
  {
    assert ObjectStep(slots, os, j);
    if i < j - 1 { ObjectsAscend(slots, os, i, j - 1); }
  }

  /** Sorted objects, each granted by a present slot. */
  ghost predicate ObjectsSorted(slots: seq<Slot>, os: seq<Object>) {
    && Increasing(ObjectIds(os)) && NonDecreasing(ObjectSlots(os))
    && (forall i :: 0 <= i < |os| ==> ObjectOk(slots, os[i]))
  }

  lemma ObjectSteps(slots: seq<Slot>, os: seq<Object>)
    ensures ObjectsSorted(slots, os) <==> forall i: nat :: i < |os| ==> ObjectStep(slots, os, i)
  {
    hide ObjectOk;
    if forall i: nat :: i < |os| ==> ObjectStep(slots, os, i) {
      forall i: nat | i < |os| ensures ObjectOk(slots, os[i]) { assert ObjectStep(slots, os, i); }
      forall i, j | 0 <= i < j < |os| ensures ObjectIds(os)[i] < ObjectIds(os)[j] && ObjectSlots(os)[i] <= ObjectSlots(os)[j] {
        ObjectsAscend(slots, os, i, j);
      }
    }
    if ObjectsSorted(slots, os) {
      forall i: nat | i < |os| ensures ObjectStep(slots, os, i) {
        if i > 0 { assert ObjectIds(os)[i - 1] < ObjectIds(os)[i] && ObjectSlots(os)[i - 1] <= ObjectSlots(os)[i]; }
      }
    }
  }

  method CheckObjects(slots: seq<Slot>, os: seq<Object>) returns (ok: bool)
    requires SlotsValid(slots)
    ensures ok <==> ObjectsSorted(slots, os)
  {
    ObjectSteps(slots, os);
    hide ObjectsSorted, ObjectOk, SlotsValid, Grants;
    var prior, priorSlot := 0, 0;
    for index := 0 to |os|
      invariant forall i: nat :: i < index ==> ObjectStep(slots, os, i)
      invariant prior == (if index == 0 then 0 else os[index - 1].id) && priorSlot == if index == 0 then 0 else os[index - 1].slot
    {
      var entry := os[index];
      var found, k := FindSlot(slots, entry.slot);
      D.ObjectFacts(slots, entry);
      if !found {
        D.ObjectNeedsSlot(slots, entry);
        assert !ObjectStep(slots, os, index);
        return false;
      }
      D.ObjectOkBySlot(slots, entry, slots[k]);
      if entry.slot < priorSlot || entry.id <= prior || !Grants(slots[k], entry) {
        assert !ObjectStep(slots, os, index);
        return false;
      }
      prior, priorSlot := entry.id, entry.slot;
    }
    return true;
  }

  /** Step the cursor over the objects of one slot. */
  method PassObjects(os: seq<Object>, cursor: nat, id: u32) returns (cursor': nat)
    requires NonDecreasing(ObjectSlots(os)) && cursor == RangeOf(ObjectSlots(os), id).start
    ensures cursor' == End(RangeOf(ObjectSlots(os), id)) <= |os|
  {
    ghost var keys := ObjectSlots(os);
    LowerGrows(keys, id, id + 1);
    hide Lower;
    cursor' := cursor;
    while cursor' < |os| && os[cursor'].slot == id
      invariant cursor <= cursor' <= Lower(keys, id + 1)
    {
      LowerCuts(keys, id + 1, cursor');
      cursor' := cursor' + 1;
    }
    if cursor' < |os| {
      LowerCuts(keys, id, cursor');
      LowerCuts(keys, id + 1, cursor');
    }
  }

  /** Step the cursor over the handles of one object. */
  method PassHandles(hs: seq<Handle>, cursor: nat, id: u64) returns (cursor': nat)
    requires NonDecreasing(HandleObjects(hs)) && cursor == RangeOf(HandleObjects(hs), id).start
    ensures cursor' == End(RangeOf(HandleObjects(hs), id)) <= |hs|
  {
    ghost var keys := HandleObjects(hs);
    LowerGrows(keys, id, id + 1);
    hide Lower;
    cursor' := cursor;
    while cursor' < |hs| && hs[cursor'].objectId == id
      invariant cursor <= cursor' <= Lower(keys, id + 1)
    {
      LowerCuts(keys, id + 1, cursor');
      cursor' := cursor' + 1;
    }
    if cursor' < |hs| {
      LowerCuts(keys, id, cursor');
      LowerCuts(keys, id + 1, cursor');
    }
  }

  lemma SlotsIncrease(slots: seq<Slot>)
    requires SlotsValid(slots)
    ensures Increasing(SlotIds(slots))
  {
    hide SlotOk, Increasing;
  }

  /** The range of slot `i` starts where that of the slot before it ends. */
  lemma SlotStart(slots: seq<Slot>, os: seq<Object>, i: nat)
    requires SlotsValid(slots) && ObjectsSorted(slots, os) && i < |slots|
    ensures RangeOf(ObjectSlots(os), slots[i].id).start == if i == 0 then 0 else End(RangeOf(ObjectSlots(os), slots[i - 1].id))
  {
    hide ObjectOk, SlotsValid, Lower, Increasing, NonDecreasing, SlotIds, ObjectSlots;
    ObjectSlotsKnown(slots, os);
    SlotsIncrease(slots);
    assert forall j :: 0 <= j < |os| ==> ObjectSlots(os)[j] in SlotIds(slots);
    Adjacent(SlotIds(slots), ObjectSlots(os), i);
  }

  /** A slot is absent and empty, or present and not. */
  lemma StateMeans(slots: seq<Slot>, os: seq<Object>, i: nat)
    requires SlotsValid(slots) && ObjectsSorted(slots, os) && i < |slots|
    ensures StateFits(slots[i], RangeOf(ObjectSlots(os), slots[i].id)) <==>
            (slots[i].state == PRESENT ==> slots[i].id as nat in ObjectSlots(os))
  {
    hide RangeOf, ObjectOk, SlotOk;
    var keys, id := ObjectSlots(os), slots[i].id as nat;
    var r := RangeOf(keys, id);
    RangeHolds(keys, id);
    if r.count > 0 {
      assert keys[r.start] == id;
      OwnerPresent(slots, os, r.start, i);
    }
    if id in keys { PresentHasRange(keys, id); }
  }

  lemma LastSlotEnds(slots: seq<Slot>, os: seq<Object>)
    requires SlotsValid(slots) && ObjectsSorted(slots, os)
    ensures |os| == if |slots| == 0 then 0 else End(RangeOf(ObjectSlots(os), slots[|slots| - 1].id))
  {
    hide ObjectOk, SlotOk, RangeOf, NonDecreasing;
    ObjectSlotsKnown(slots, os);
    assert NonDecreasing(ObjectSlots(os));
    SortedPartitions(SlotIds(slots), ObjectSlots(os));
  }

  /** Every slot has the objects its state promises. */
  method CheckStates(slots: seq<Slot>, os: seq<Object>) returns (ok: bool)
    requires SlotsValid(slots) && ObjectsSorted(slots, os)
    ensures ok <==> ObjectsValid(slots, os)
  {
    hide ObjectOk, SlotOk, RangeOf, SlotsValid;
    ghost var keys := ObjectSlots(os);
    var cursor := 0;
    for index := 0 to |slots|
      invariant cursor == if index == 0 then 0 else End(RangeOf(keys, slots[index - 1].id))
      invariant forall i :: 0 <= i < index && slots[i].state == PRESENT ==> slots[i].id as nat in keys
    {
      SlotStart(slots, os, index);
      StateMeans(slots, os, index);
      var start := cursor;
      cursor := PassObjects(os, cursor, slots[index].id);
      if (slots[index].state == ABSENT && cursor != start) || (slots[index].state == PRESENT && cursor == start) { return false; }
    }
    LastSlotEnds(slots, os);
    ok := cursor == |os|;
  }

  method FindObject(os: seq<Object>, id: u64) returns (found: bool)
    requires Increasing(ObjectIds(os))
    ensures found <==> id as nat in ObjectIds(os)
  {
    ghost var ids := ObjectIds(os);
    var left, right := 0, |os|;
    while left < right
      invariant 0 <= left <= right <= |os|
      invariant forall i :: 0 <= i < left ==> ids[i] < id
      invariant forall i :: right <= i < |os| ==> ids[i] > id
    {
      var middle := left + (right - left) / 2;
      assert ids[middle] == os[middle].id;
      if os[middle].id == id { return true; }
      if os[middle].id < id { left := middle + 1; } else { right := middle; }
    }
    return false;
  }

  method CheckHandles(os: seq<Object>, hs: seq<Handle>) returns (ok: bool)
    requires Increasing(ObjectIds(os)) && 0 !in ObjectIds(os)
    ensures ok <==> HandlesValid(os, hs)
  {
    hide HandlesValid;
    D.HandleStepsValid(os, hs);
    var prior, role := 0, 0;
    for index := 0 to |hs|
      invariant forall i: nat :: i < index ==> D.HandleStep(os, hs, i)
      invariant prior == (if index == 0 then 0 else hs[index - 1].objectId) && role == if index == 0 then 0 else hs[index - 1].role
    {
      var handle := hs[index];
      var found := FindObject(os, handle.objectId);
      if !found || handle.index != index || handle.objectId < prior
         || (handle.objectId == prior && (index == 0 || handle.role <= role)) {
        assert !D.HandleStep(os, hs, index);
        return false;
      }
      prior, role := handle.objectId, handle.role;
    }
    return true;
  }

  lemma IdsPositive(slots: seq<Slot>, os: seq<Object>)
    requires ObjectsValid(slots, os)
    ensures 0 !in ObjectIds(os) && Increasing(ObjectIds(os))
  {
    forall i | 0 <= i < |os| ensures ObjectIds(os)[i] > 0 { assert ObjectOk(slots, os[i]); }
  }

  method SourceValid(s: Source) returns (ok: bool)
    ensures ok <==> Valid(s)
  {
    hide SlotsValid, ObjectsValid, HandlesValid, Zero;
    if s.generation == 0 || Zero(s.manifest) || |s.slots| > MAX_SLOTS || |s.objects| > MAX_OBJECTS || |s.handles| > MAX_HANDLES {
      return false;
    }
    ok := CheckSlots(s.slots);
    if !ok { return; }
    ok := CheckObjects(s.slots, s.objects);
    if !ok {
      NotSorted(s.slots, s.objects);
      return;
    }
    ok := CheckStates(s.slots, s.objects);
    if !ok { return; }
    IdsPositive(s.slots, s.objects);
    ok := CheckHandles(s.objects, s.handles);
  }

  lemma NotSorted(slots: seq<Slot>, os: seq<Object>)
    ensures ObjectsValid(slots, os) ==> ObjectsSorted(slots, os)
  {
  }
}
