/** The channel model: memory regions, queues and the validator that admits them
    before any endpoint is bound.
 */
module Channel {
  import opened Bytes
  import opened Ranges

  const RIGHT_READ: bv32 := 1
  const RIGHT_WRITE: bv32 := 2
  const RING_RIGHTS: bv32 := 3
  const QUEUE_SIZE_MIN: u32 := 1
  const QUEUE_SIZE_MAX: u32 := 32768
  const MIN_QUEUES: nat := 1
  const MAX_QUEUES: nat := 1024
  const MAX_REGIONS: nat := 1024
  const ROLE_EVENT: u32 := 1
  const ROLE_REQUEST: u32 := 2
  const EVENT_QUEUES_MAX: nat := 1
  const REQUEST_QUEUES_MIN: nat := 1
  const FEATURES_REQUIRED: u64 := 805306368
  const FLAG_MANAGEMENT: u32 := 1
  const FLAG_DATA: u32 := 2

  datatype Region = Region(id: u32, rights: bv32, base: u64, length: u64)

  datatype Queue = Queue(
    id: u32, role: u32, size: u32, flags: u32,
    descriptors: u64, available: u64, used: u64,
    availableNotification: u32, usedNotification: u32,
    maxChain: u32, maxIndirect: u32, maxOutstanding: u32)

  datatype Identity = Identity(features: u64, channelId: u64, generation: u64, protocolId: u32, flags: u32)

  datatype Ring = Descriptors | Available | Used

  function RingBase(q: Queue, r: Ring): u64 {
    match r
    case Descriptors => q.descriptors
    case Available => q.available
    case Used => q.used
  }

  function RingLength(q: Queue, r: Ring): u64 {
    match r
    case Descriptors => Length64(0, q.size, 16)
    case Available => Length64(6, q.size, 2)
    case Used => Length64(6, q.size, 8)
  }

  /** base + count * width; the widened product cannot wrap. */
  function Length64(base: nat, count: u32, width: nat): u64
    requires base <= 6 && width <= 16
  {
    assert count * width <= 0x1_0000_0000 * 16;
    base + count * width
  }

  predicate HasRights(have: bv32, need: bv32) {
    have & need == need
  }

  /** The lowest bit is the right to read, the next one the right to write. */
  lemma RightsMean(have: bv32)
    ensures HasRights(have, RIGHT_READ) <==> have & 1 != 0
    ensures HasRights(have, RIGHT_WRITE) <==> have & 2 != 0
    ensures HasRights(have, RING_RIGHTS) <==> have & 1 != 0 && have & 2 != 0
    ensures RightsKnown(have) <==> have == 1 || have == 2 || have == 3
  {
  }

  predicate RightsKnown(rights: bv32) {
    rights != 0 && rights & !RING_RIGHTS == 0
  }

  // ------------------------------------------------------------ regions

  predicate RegionOk(r: Region) {
    r.id != 0 && RightsKnown(r.rights) && RangeValid(r.base, r.length)
  }

  predicate RegionsDistinct(a: Region, b: Region) {
    a.id != b.id && !Meets(a.base, a.length, b.base, b.length)
  }

  /** Region `i` is well formed and distinct from every earlier one. */
  ghost predicate RegionFits(rs: seq<Region>, i: nat)
    requires i < |rs|
  {
    RegionOk(rs[i]) && forall j :: 0 <= j < i ==> RegionsDistinct(rs[i], rs[j])
  }

  ghost predicate RegionsValid(rs: seq<Region>) {
    forall i :: 0 <= i < |rs| ==> RegionFits(rs, i)
  }

  method ValidateRegions(rs: seq<Region>) returns (ok: bool)
    ensures ok <==> RegionsValid(rs)
  {
    for left := 0 to |rs|
      invariant forall i :: 0 <= i < left ==> RegionFits(rs, i)
    {
      var region := rs[left];
      if region.id == 0 || !RightsKnown(region.rights) || !RangeValid(region.base, region.length) {
        assert !RegionFits(rs, left);
        return false;
      }
      for right := 0 to left
        invariant forall j :: 0 <= j < right ==> RegionsDistinct(region, rs[j])
      {
        assert RegionFits(rs, right);
        OverlapIsExact(region.base, region.length, rs[right].base, rs[right].length);
        if region.id == rs[right].id
           || Overlap64(region.base, region.length, rs[right].base, rs[right].length) {
          assert !RegionsDistinct(rs[left], rs[right]);
          assert !RegionFits(rs, left);
          return false;
        }
      }
    }
    return true;
  }

  /** Some region covers the range and grants the rights. */
  ghost predicate Covered(a: u64, n: u64, need: bv32, rs: seq<Region>) {
    RangeValid(a, n) && exists i :: 0 <= i < |rs| && Covers(rs[i], a, n, need)
  }

  predicate Covers(r: Region, a: u64, n: u64, need: bv32) {
    HasRights(r.rights, need) && Inside(a, n, r.base, r.length)
  }

  method RangeHasRights(a: u64, n: u64, need: bv32, rs: seq<Region>) returns (ok: bool)
    requires RegionsValid(rs)
    ensures ok <==> Covered(a, n, need, rs)
  {
    if !RangeValid(a, n) { return false; }
    for i := 0 to |rs|
      invariant forall j :: 0 <= j < i ==> !Covers(rs[j], a, n, need)
    {
      var r := rs[i];
      assert RegionFits(rs, i);
      if HasRights(r.rights, need) && a >= r.base && Sum64(a, n) <= Sum64(r.base, r.length) {
        assert Covers(rs[i], a, n, need);
        return true;
      }
    }
    return false;
  }

  // ------------------------------------------------------------- queues

  predicate PowerOfTwo(n: nat) {
    n == 1 || (n > 1 && n % 2 == 0 && PowerOfTwo(n / 2))
  }

  predicate QueueFieldsOk(q: Queue) {
    && q.id != 0 && q.flags == 0
    && (q.role == ROLE_EVENT || q.role == ROLE_REQUEST)
    && QUEUE_SIZE_MIN <= q.size <= QUEUE_SIZE_MAX && PowerOfTwo(q.size)
    && q.availableNotification != 0 && q.usedNotification != 0
    && 0 < q.maxChain <= q.size
    && 0 < q.maxIndirect <= QUEUE_SIZE_MAX
    && 0 < q.maxOutstanding <= q.size
  }

  predicate IdentitiesDistinct(a: Queue, b: Queue) {
    && a.id != b.id
    && a.availableNotification != b.availableNotification
    && a.availableNotification != b.usedNotification
    && a.usedNotification != b.availableNotification
    && a.usedNotification != b.usedNotification
  }

  predicate RingsAligned(q: Queue) {
    q.descriptors % 16 == 0 && q.available % 2 == 0 && q.used % 4 == 0
  }

  ghost predicate RingsCovered(q: Queue, rs: seq<Region>) {
    && Covered(q.descriptors, RingLength(q, Descriptors), RING_RIGHTS, rs)
    && Covered(q.available, RingLength(q, Available), RING_RIGHTS, rs)
    && Covered(q.used, RingLength(q, Used), RING_RIGHTS, rs)
  }

  ghost predicate RingsApart(q: Queue, r: Ring, p: Queue, s: Ring) {
    !Meets(RingBase(q, r), RingLength(q, r), RingBase(p, s), RingLength(p, s))
  }

  /** Queue `i` is well formed, placed in read-write memory, and shares no identity
      and no ring byte with itself or an earlier queue. */
  ghost predicate QueueFits(qs: seq<Queue>, rs: seq<Region>, i: nat)
    requires i < |qs|
  {
    && QueueFieldsOk(qs[i])
    && qs[i].availableNotification != qs[i].usedNotification
    && RingsAligned(qs[i]) && RingsCovered(qs[i], rs)
    && (forall j :: 0 <= j < i ==> IdentitiesDistinct(qs[i], qs[j]))
    && RingsUnique(qs, i)
  }

  function CountRole(qs: seq<Queue>, role: u32): (n: nat)
  {
    if qs == [] then 0 else CountRole(qs[..|qs| - 1], role) + (if qs[|qs| - 1].role == role then 1 else 0)
  }

  ghost predicate QueuesValid(qs: seq<Queue>, rs: seq<Region>) {
    && (forall i :: 0 <= i < |qs| ==> QueueFits(qs, rs, i))
    && CountRole(qs, ROLE_EVENT) <= EVENT_QUEUES_MAX
    && CountRole(qs, ROLE_REQUEST) >= REQUEST_QUEUES_MIN
  }

  method QueueIdentityUnique(qs: seq<Queue>, index: nat) returns (ok: bool)
    requires index < |qs|
    ensures ok <==> (qs[index].availableNotification != qs[index].usedNotification
                     && forall j :: 0 <= j < index ==> IdentitiesDistinct(qs[index], qs[j]))
  {
    for previous := 0 to index
      invariant forall j :: 0 <= j < previous ==> IdentitiesDistinct(qs[index], qs[j])
    {
      if !IdentitiesDistinct(qs[index], qs[previous]) { return false; }
    }
    return qs[index].availableNotification != qs[index].usedNotification;
  }

  const RINGS: seq<Ring> := [Descriptors, Available, Used]

  /** Ring `r` of queue `index` is apart from the first `limit` rings of queue `j`. */
  ghost predicate ApartFrom(qs: seq<Queue>, index: nat, r: Ring, j: nat, limit: nat)
    requires index < |qs| && j < |qs| && limit <= 3
  {
    forall k :: 0 <= k < limit ==> RingsApart(qs[index], r, qs[j], RINGS[k])
  }

  /** Rings of queue `j` that ring `k` of queue `index` is compared with. */
  function Limit(index: nat, k: nat, j: nat): nat {
    if j == index then k else 3
  }

  /** Ring `k` of queue `index` is apart from every earlier ring. */
  ghost predicate RingFits(qs: seq<Queue>, index: nat, k: nat)
    requires index < |qs| && k < 3
  {
    forall j :: 0 <= j <= index ==> ApartFrom(qs, index, RINGS[k], j, Limit(index, k, j))
  }

  /** On ring areas inside regions the wrapping overlap test is exact. */
  lemma RingOverlap(q: Queue, r: Ring, p: Queue, s: Ring, rs: seq<Region>)
    requires RingsCovered(q, rs) && RingsCovered(p, rs)
    ensures Overlap64(RingBase(q, r), RingLength(q, r), RingBase(p, s), RingLength(p, s)) <==> !RingsApart(q, r, p, s)
  {
    OverlapIsExact(RingBase(q, r), RingLength(q, r), RingBase(p, s), RingLength(p, s));
  }

  method QueueRangesUnique(qs: seq<Queue>, rs: seq<Region>, index: nat) returns (ok: bool)
    requires index < |qs|
    requires forall j :: 0 <= j <= index ==> RingsCovered(qs[j], rs)
    ensures ok <==> forall k :: 0 <= k < 3 ==> RingFits(qs, index, k)
  {
    hide RingsCovered, RingsApart, RingBase, RingLength, Overlap64;
    for current := 0 to 3
      invariant forall k :: 0 <= k < current ==> RingFits(qs, index, k)
    {
      var r := RINGS[current];
      for previous := 0 to index + 1
        invariant forall j :: 0 <= j < previous ==> ApartFrom(qs, index, r, j, Limit(index, current, j))
      {
        var limit := Limit(index, current, previous);
        for other := 0 to limit
          invariant ApartFrom(qs, index, r, previous, other)
        {
          var s := RINGS[other];
          RingOverlap(qs[index], r, qs[previous], s, rs);
          if Overlap64(RingBase(qs[index], r), RingLength(qs[index], r),
                       RingBase(qs[previous], s), RingLength(qs[previous], s)) {
            assert !RingsApart(qs[index], r, qs[previous], RINGS[other]);
            assert !ApartFrom(qs, index, r, previous, limit);
            assert !RingFits(qs, index, current);
            return false;
          }
        }
      }
    }
    return true;
  }

  function Position(r: Ring): (k: nat)
    ensures k < 3 && RINGS[k] == r
  {
    match r case Descriptors => 0 case Available => 1 case Used => 2
  }

  ghost predicate RingsUnique(qs: seq<Queue>, i: nat)
    requires i < |qs|
  {
    && (forall r, s :: r != s ==> RingsApart(qs[i], r, qs[i], s))
    && (forall j, r, s :: 0 <= j < i ==> RingsApart(qs[i], r, qs[j], s))
  }

  lemma RingFitsMeans(qs: seq<Queue>, i: nat)
    requires i < |qs|
    ensures (forall k :: 0 <= k < 3 ==> RingFits(qs, i, k)) <==> RingsUnique(qs, i)
  {
    if forall k :: 0 <= k < 3 ==> RingFits(qs, i, k) {
      forall r: Ring, s: Ring | r != s ensures RingsApart(qs[i], r, qs[i], s) {
        var k, l := Position(r), Position(s);
        assert RingFits(qs, i, k) && RingFits(qs, i, l);
        assert ApartFrom(qs, i, RINGS[k], i, Limit(i, k, i));
        assert ApartFrom(qs, i, RINGS[l], i, Limit(i, l, i));
        if l < k { assert RingsApart(qs[i], r, qs[i], RINGS[l]); }
        else { assert RingsApart(qs[i], s, qs[i], RINGS[k]); }
      }
      forall j, r: Ring, s: Ring | 0 <= j < i ensures RingsApart(qs[i], r, qs[j], s) {
        assert RingFits(qs, i, Position(r));
        assert ApartFrom(qs, i, RINGS[Position(r)], j, Limit(i, Position(r), j));
        assert RingsApart(qs[i], r, qs[j], RINGS[Position(s)]);
      }
    }
    if RingsUnique(qs, i) {
      forall k | 0 <= k < 3 ensures RingFits(qs, i, k) {
        forall j | 0 <= j <= i ensures ApartFrom(qs, i, RINGS[k], j, Limit(i, k, j)) {
          forall l | 0 <= l < Limit(i, k, j) ensures RingsApart(qs[i], RINGS[k], qs[j], RINGS[l]) {
            assert j == i ==> RINGS[k] != RINGS[l];
          }
        }
      }
    }
  }

  method ValidateQueues(qs: seq<Queue>, rs: seq<Region>) returns (ok: bool)
    requires RegionsValid(rs)
    ensures ok <==> QueuesValid(qs, rs)
  {
    hide Covered, IdentitiesDistinct, RingFits, RingsUnique, RingsAligned, RingLength;
    var events, requests := 0, 0;
    for i := 0 to |qs|
      invariant forall j :: 0 <= j < i ==> QueueFits(qs, rs, j)
      invariant events == CountRole(qs[..i], ROLE_EVENT)
      invariant requests == CountRole(qs[..i], ROLE_REQUEST)
    {
      var q := qs[i];
      var unique := QueueIdentityUnique(qs, i);
      if !QueueFieldsOk(q) || !unique {
        assert !QueueFits(qs, rs, i);
        return false;
      }
      assert qs[..i + 1][..i] == qs[..i];
      if q.role == ROLE_EVENT { events := events + 1; } else { requests := requests + 1; }
      var d := RangeHasRights(q.descriptors, RingLength(q, Descriptors), RING_RIGHTS, rs);
      var a := RangeHasRights(q.available, RingLength(q, Available), RING_RIGHTS, rs);
      var u := RangeHasRights(q.used, RingLength(q, Used), RING_RIGHTS, rs);
      if !RingsAligned(q) || !d || !a || !u {
        assert !QueueFits(qs, rs, i);
        return false;
      }
      forall j | 0 <= j <= i ensures RingsCovered(qs[j], rs) {
        if j < i { assert QueueFits(qs, rs, j); }
      }
      var apart := QueueRangesUnique(qs, rs, i);
      RingFitsMeans(qs, i);
      if !apart {
        assert !QueueFits(qs, rs, i);
        return false;
      }
      assert QueueFits(qs, rs, i);
    }
    assert qs[..|qs|] == qs;
    return events <= EVENT_QUEUES_MAX && requests >= REQUEST_QUEUES_MIN;
  }

  // ------------------------------------------------------------ channel

  predicate IdentityOk(c: Identity) {
    && c.features == FEATURES_REQUIRED && c.channelId != 0 && c.generation != 0 && c.protocolId != 0
    && (c.flags == FLAG_MANAGEMENT || c.flags == FLAG_DATA)
  }

  ghost predicate ChannelValid(c: Identity, qs: seq<Queue>, rs: seq<Region>) {
    && IdentityOk(c)
    && MIN_QUEUES <= |qs| <= MAX_QUEUES && 0 < |rs| <= MAX_REGIONS
    && RegionsValid(rs) && QueuesValid(qs, rs)
  }

  method ValidateChannel(c: Identity, qs: seq<Queue>, rs: seq<Region>) returns (ok: bool)
    ensures ok <==> ChannelValid(c, qs, rs)
  {
    if |qs| < MIN_QUEUES || |qs| > MAX_QUEUES || |rs| == 0 || |rs| > MAX_REGIONS || !IdentityOk(c) {
      return false;
    }
    ok := ValidateRegions(rs);
    if ok { ok := ValidateQueues(qs, rs); }
  }

  /** The rings of an admitted channel: two different ones share no address, across lanes too. */
  lemma RingAreasDisjoint(c: Identity, qs: seq<Queue>, rs: seq<Region>, i: nat, r: Ring, j: nat, s: Ring)
    requires ChannelValid(c, qs, rs) && i < |qs| && j < |qs| && (i != j || r != s)
    ensures !exists x :: In(x, RingBase(qs[i], r), RingLength(qs[i], r))
                         && In(x, RingBase(qs[j], s), RingLength(qs[j], s))
  {
    assert QueueFits(qs, rs, i) && QueueFits(qs, rs, j);
    assert if i >= j then RingsApart(qs[i], r, qs[j], s) else RingsApart(qs[j], s, qs[i], r);
    MeetsMeansCommonAddress(RingBase(qs[i], r), RingLength(qs[i], r), RingBase(qs[j], s), RingLength(qs[j], s));
  }

  /** Each ring lies in one region that is readable and writable, and in no other region. */
  lemma RingInOneRegion(c: Identity, qs: seq<Queue>, rs: seq<Region>, i: nat, r: Ring) returns (k: nat)
    requires ChannelValid(c, qs, rs) && i < |qs|
    ensures k < |rs| && Inside(RingBase(qs[i], r), RingLength(qs[i], r), rs[k].base, rs[k].length)
    ensures rs[k].rights & 1 != 0 && rs[k].rights & 2 != 0
    ensures forall l :: 0 <= l < |rs| && l != k ==>
        !Meets(RingBase(qs[i], r), RingLength(qs[i], r), rs[l].base, rs[l].length)
  {
    assert QueueFits(qs, rs, i);
    assert Covered(RingBase(qs[i], r), RingLength(qs[i], r), RING_RIGHTS, rs);
    k :| 0 <= k < |rs| && Covers(rs[k], RingBase(qs[i], r), RingLength(qs[i], r), RING_RIGHTS);
    RightsMean(rs[k].rights);
    hide HasRights;
    forall l | 0 <= l < |rs| && l != k
      ensures !Meets(RingBase(qs[i], r), RingLength(qs[i], r), rs[l].base, rs[l].length)
    {
      assert RegionFits(rs, k) && RegionFits(rs, l);
      assert if k < l then RegionsDistinct(rs[l], rs[k]) else RegionsDistinct(rs[k], rs[l]);
    }
  }
}
