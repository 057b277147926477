/** GPU commands of the generic catalogs: spans, attachments and the arguments that name them. */
module GpuCommand {
  import opened Bytes
  import opened Ranges
  import opened Counting

  const MAX_REGIONS: nat := 1024
  const READ: nat := 1
  const WRITE: nat := 2
  const INPUT: nat := 1
  const OUTPUT: nat := 2

  datatype Kind = U64Kind | I64Kind | BoolKind | EnumKind | BitsetKind | ObjectKind | InlineKind | SpanKind | AttachmentKind
  datatype Region = Region(id: u32, rights: u32, length: u64)
  datatype Span = Span(id: u32, region: u32, offset: u64, length: u64, rights: u32, flags: u32, elements: u32, record: u32)
  datatype Attachment = Attachment(
    id: u32, class_: u32, exchange: u64, generation: u64, rights: u64, role: u32, ownership: u32, flags: u32)
  datatype Argument = Argument(id: u32, kind: Kind, flags: u32, record: u32, value: u64, count: u32)
  datatype Command = Command(
    id: u32, generation: u64, inlineLength: nat, arguments: seq<Argument>, spans: seq<Span>, attachments: seq<Attachment>)

  /** One row per command, and the spans and attachments a command may carry. */
  datatype Request = Request(command: u32, inlineRecord: u32, inlineSize: u32, spanCapacity: u32, attachmentCapacity: u32)
  datatype SpanContract = SpanContract(
    command: u32, argument: u32, direction: u32, minimum: u32, maximum: u32, record: u32, size: u32)
  datatype AttachmentContract = AttachmentContract(
    command: u32, argument: u32, role: u32, ownership: u32, optional: bool, class_: u32)
  datatype Catalog = Catalog(requests: seq<Request>, spans: seq<SpanContract>, attachments: seq<AttachmentContract>)

  // --------------------------------------------------------- two-bit masks

  predicate KnownMask(m: u32) {
    0 < m <= 3
  }

  predicate Low(m: u32) {
    m % 2 == 1
  }

  predicate High(m: u32) {
    m / 2 % 2 == 1
  }

  predicate HasBit(m: u32, bit: nat)
    requires bit > 0
  {
    m / bit % 2 == 1
  }

  /** Every bit of `need` is in `have`. */
  predicate Includes(have: u32, need: u32) {
    (Low(need) ==> Low(have)) && (High(need) ==> High(have))
  }

  // ------------------------------------------------------------------- spans

  predicate RegionOk(r: Region) {
    r.id != 0 && r.length != 0 && KnownMask(r.rights)
  }

  ghost predicate RegionsOk(rs: seq<Region>) {
    && |rs| <= MAX_REGIONS && (forall i :: 0 <= i < |rs| ==> RegionOk(rs[i]))
    && (forall i, j :: 0 <= j < i < |rs| ==> rs[i].id != rs[j].id)
  }

  method RegionsValid(rs: seq<Region>) returns (ok: bool)
    ensures ok <==> RegionsOk(rs)
  {
    if |rs| > MAX_REGIONS { return false; }
    for index := 0 to |rs|
      invariant RegionsOk(rs[..index])
    {
      if !RegionOk(rs[index]) { return false; }
      for previous := 0 to index
        invariant forall j :: 0 <= j < previous ==> rs[index].id != rs[j].id
      {
        if rs[index].id == rs[previous].id { return false; }
      }
    }
    assert rs[..|rs|] == rs;
    return true;
  }

  method FindRegion(rs: seq<Region>, id: u32) returns (found: bool, index: nat)
    ensures found ==> index < |rs| && rs[index].id == id
    ensures !found ==> forall i :: 0 <= i < |rs| ==> rs[i].id != id
  {
    for i := 0 to |rs|
      invariant forall j :: 0 <= j < i ==> rs[j].id != id
    {
      if rs[i].id == id { return true, i; }
    }
    return false, 0;
  }

  /** The span lies in the region and asks for no right the region lacks. */
  predicate FitsRegion(s: Span, r: Region) {
    r.id == s.region && s.offset + s.length <= r.length && Includes(r.rights, s.rights)
  }

  predicate SpanFields(s: Span) {
    && s.id != 0 && RangeValid(s.offset, s.length) && KnownMask(s.rights) && s.elements != 0 && KnownMask(s.flags)
    && Includes(s.rights, s.flags)
  }

  predicate Writable(s: Span) {
    High(s.rights)
  }

  /** Two spans may share bytes only if neither can be written. */
  predicate SpansApart(s: Span, t: Span) {
    s.region == t.region && (Writable(s) || Writable(t)) ==> !Meets(s.offset, s.length, t.offset, t.length)
  }

  ghost predicate SpanOk(ss: seq<Span>, rs: seq<Region>, i: nat)
    requires i < |ss|
  {
    && SpanFields(ss[i]) && (i > 0 ==> ss[i - 1].id < ss[i].id)
    && (exists k :: 0 <= k < |rs| && FitsRegion(ss[i], rs[k]))
    && (forall j :: 0 <= j < i ==> SpansApart(ss[i], ss[j]))
  }

  ghost predicate SpansOk(ss: seq<Span>, rs: seq<Region>) {
    forall i: nat :: i < |ss| ==> SpanOk(ss, rs, i)
  }

  lemma RegionUnique(rs: seq<Region>, s: Span, k: nat)
    requires RegionsOk(rs) && k < |rs| && rs[k].id == s.region
    ensures (exists j :: 0 <= j < |rs| && FitsRegion(s, rs[j])) <==> FitsRegion(s, rs[k])
  {
    if exists j :: 0 <= j < |rs| && FitsRegion(s, rs[j]) {
      var j :| 0 <= j < |rs| && FitsRegion(s, rs[j]);
      assert rs[j].id == rs[k].id;
    }
  }

  method CheckSpan(ss: seq<Span>, rs: seq<Region>, index: nat) returns (ok: bool)
    requires RegionsOk(rs) && index < |ss| && forall j: nat :: j < index ==> SpanOk(ss, rs, j)
    ensures ok <==> SpanOk(ss, rs, index)
  {
    hide RegionsOk, Includes;
    var s := ss[index];
    var found, k := FindRegion(rs, s.region);
    if !found { return false; }
    RegionUnique(rs, s, k);
    if s.id == 0 || (index != 0 && s.id <= ss[index - 1].id) || !RangeValid(s.offset, s.length) || !KnownMask(s.rights)
       || s.elements == 0 || !KnownMask(s.flags) || s.offset > rs[k].length || s.length > rs[k].length - s.offset {
      return false;
    }
    if !Includes(s.rights, s.flags) || !Includes(rs[k].rights, s.rights) { return false; }
    for previous := 0 to index
      invariant forall j :: 0 <= j < previous ==> SpansApart(ss[index], ss[j])
    {
      var t := ss[previous];
      assert SpanOk(ss, rs, previous);
      OverlapIsExact(s.offset, s.length, t.offset, t.length);
      if s.region == t.region && Overlap64(s.offset, s.length, t.offset, t.length) && (Writable(s) || Writable(t)) {
        assert !SpansApart(ss[index], ss[previous]);
        return false;
      }
    }
    return true;
  }

  method SpansValid(ss: seq<Span>, rs: seq<Region>) returns (ok: bool)
    requires RegionsOk(rs)
    ensures ok <==> SpansOk(ss, rs)
  {
    hide SpanOk, RegionsOk;
    for index := 0 to |ss|
      invariant forall j: nat :: j < index ==> SpanOk(ss, rs, j)
    {
      ok := CheckSpan(ss, rs, index);
      if !ok { return; }
    }
    return true;
  }

  /** Accepted spans lie in their regions, and overlap only where nothing can be written. */
  lemma SpansSeparated(ss: seq<Span>, rs: seq<Region>, i: nat, j: nat) returns (k: nat)
    requires SpansOk(ss, rs) && i < |ss| && j < |ss| && i != j
    ensures k < |rs| && rs[k].id == ss[i].region && ss[i].offset + ss[i].length <= rs[k].length
    ensures HasBit(ss[i].flags, INPUT) ==> HasBit(ss[i].rights, READ)
    ensures HasBit(ss[i].flags, OUTPUT) ==> HasBit(ss[i].rights, WRITE)
    ensures HasBit(ss[i].rights, READ) ==> HasBit(rs[k].rights, READ)
    ensures HasBit(ss[i].rights, WRITE) ==> HasBit(rs[k].rights, WRITE)
    ensures ss[i].region == ss[j].region && (HasBit(ss[i].rights, WRITE) || HasBit(ss[j].rights, WRITE)) ==>
              ss[i].offset + ss[i].length <= ss[j].offset || ss[j].offset + ss[j].length <= ss[i].offset
  {
    assert SpanOk(ss, rs, i) && SpanOk(ss, rs, j);
    k :| 0 <= k < |rs| && FitsRegion(ss[i], rs[k]);
    assert if j < i then SpansApart(ss[i], ss[j]) else SpansApart(ss[j], ss[i]);
  }

  // ------------------------------------------------------------- attachments

  predicate AttachmentFields(a: Attachment, generation: u64) {
    && a.id != 0 && 1 <= a.class_ <= 6 && a.exchange != 0 && a.generation == generation && a.rights != 0
    && 1 <= a.ownership <= 3 && a.flags == INPUT
  }

  ghost predicate AttachmentOk(xs: seq<Attachment>, generation: u64, i: nat)
    requires i < |xs|
  {
    && AttachmentFields(xs[i], generation) && (i > 0 ==> xs[i - 1].id < xs[i].id)
    && (forall j :: 0 <= j < i ==> xs[i].exchange != xs[j].exchange)
  }

  ghost predicate AttachmentsOk(xs: seq<Attachment>, generation: u64) {
    forall i: nat :: i < |xs| ==> AttachmentOk(xs, generation, i)
  }

  method AttachmentsValid(xs: seq<Attachment>, generation: u64) returns (ok: bool)
    ensures ok <==> AttachmentsOk(xs, generation)
  {
    for index := 0 to |xs|
      invariant forall i: nat :: i < index ==> AttachmentOk(xs, generation, i)
    {
      if !AttachmentFields(xs[index], generation) || (index != 0 && xs[index].id <= xs[index - 1].id) {
        assert !AttachmentOk(xs, generation, index);
        return false;
      }
      for previous := 0 to index
        invariant forall j :: 0 <= j < previous ==> xs[index].exchange != xs[j].exchange
      {
        if xs[index].exchange == xs[previous].exchange {
          assert !AttachmentOk(xs, generation, index);
          return false;
        }
      }
    }
    return true;
  }

  // --------------------------------------------------------------- arguments

  /** The span an argument names. */
  ghost predicate NamesSpan(ss: seq<Span>, a: Argument, k: nat) {
    k < |ss| && ss[k].id == a.value && a.count == ss[k].elements && a.record == ss[k].record
  }

  ghost predicate ReferenceOk(c: Command, a: Argument) {
    match a.kind
    case SpanKind => exists k: nat :: NamesSpan(c.spans, a, k)
    case AttachmentKind => a.record == 0 && a.count == 1 && exists k: nat :: k < |c.attachments| && c.attachments[k].id == a.value
    case InlineKind => a.count != 0 && a.value + a.count <= c.inlineLength
    case ObjectKind => a.record != 0 && a.count == 1
    case BoolKind => a.record == 0 && a.count == 1 && a.value <= 1
    case _ => a.record == 0 && a.count == 1
  }

  ghost predicate ArgumentOk(c: Command, i: nat)
    requires i < |c.arguments|
  {
    var a := c.arguments[i];
    a.id != 0 && (i > 0 ==> c.arguments[i - 1].id < a.id) && KnownMask(a.flags) && ReferenceOk(c, a)
  }

  /** Some argument of this kind has the value. */
  ghost predicate Named(arguments: seq<Argument>, kind: Kind, value: nat) {
    exists i :: 0 <= i < |arguments| && arguments[i].kind == kind && arguments[i].value == value
  }

  ghost predicate ArgumentsOk(c: Command) {
    && (forall i: nat :: i < |c.arguments| ==> ArgumentOk(c, i))
    && (forall k :: 0 <= k < |c.spans| ==> Named(c.arguments, SpanKind, c.spans[k].id))
    && (forall k :: 0 <= k < |c.attachments| ==> Named(c.arguments, AttachmentKind, c.attachments[k].id))
  }

  method FindSpan(ss: seq<Span>, id: u32) returns (found: bool, index: nat)
    ensures found ==> index < |ss| && ss[index].id == id
    ensures !found ==> forall i :: 0 <= i < |ss| ==> ss[i].id != id
  {
    for i := 0 to |ss|
      invariant forall j :: 0 <= j < i ==> ss[j].id != id
    {
      if ss[i].id == id { return true, i; }
    }
    return false, 0;
  }

  method FindAttachment(xs: seq<Attachment>, id: u32) returns (found: bool, index: nat)
    ensures found ==> index < |xs| && xs[index].id == id
    ensures !found ==> forall i :: 0 <= i < |xs| ==> xs[i].id != id
  {
    for i := 0 to |xs|
      invariant forall j :: 0 <= j < i ==> xs[j].id != id
    {
      if xs[i].id == id { return true, i; }
    }
    return false, 0;
  }

  lemma {:induction false} SpanIdsAscend(ss: seq<Span>, rs: seq<Region>, i: nat, j: nat)
    requires SpansOk(ss, rs) && i < j < |ss|
    ensures ss[i].id < ss[j].id
    decreases j
  {
    assert SpanOk(ss, rs, j);
    if i < j - 1 { SpanIdsAscend(ss, rs, i, j - 1); }
  }

  lemma {:induction false} AttachmentIdsAscend(xs: seq<Attachment>, generation: u64, i: nat, j: nat)
    requires AttachmentsOk(xs, generation) && i < j < |xs|
    ensures xs[i].id < xs[j].id
    decreases j
  {
    assert AttachmentOk(xs, generation, j);
    if i < j - 1 { AttachmentIdsAscend(xs, generation, i, j - 1); }
  }

  lemma SpanNamedOnce(ss: seq<Span>, rs: seq<Region>, a: Argument, k: nat)
    requires SpansOk(ss, rs) && k < |ss| && ss[k].id == a.value
    ensures (exists j: nat :: NamesSpan(ss, a, j)) <==> NamesSpan(ss, a, k)
  {
    if exists j: nat :: NamesSpan(ss, a, j) {
      var j: nat :| NamesSpan(ss, a, j);
      if j < k { SpanIdsAscend(ss, rs, j, k); }
      if k < j { SpanIdsAscend(ss, rs, k, j); }
    }
  }

  method ReferenceValid(c: Command, a: Argument, ghost rs: seq<Region>) returns (ok: bool)
    requires SpansOk(c.spans, rs)
    ensures ok <==> ReferenceOk(c, a)
  {
    hide SpansOk;
    match a.kind {
      case SpanKind =>
        if a.value > U32 - 1 { return false; }
        var found, k := FindSpan(c.spans, a.value);
        if !found { return false; }
        SpanNamedOnce(c.spans, rs, a, k);
        return a.count == c.spans[k].elements && a.record == c.spans[k].record;
      case AttachmentKind =>
        if a.record != 0 || a.count != 1 || a.value > U32 - 1 { return false; }
        var found, k := FindAttachment(c.attachments, a.value);
        return found;
      case InlineKind => return a.count != 0 && a.value <= c.inlineLength && a.count <= c.inlineLength - a.value;
      case ObjectKind => return a.record != 0 && a.count == 1;
      case BoolKind => return a.record == 0 && a.count == 1 && a.value <= 1;
      case _ => return a.record == 0 && a.count == 1;
    }
  }

  method IsNamed(arguments: seq<Argument>, kind: Kind, value: nat) returns (named: bool)
    ensures named <==> Named(arguments, kind, value)
  {
    for i := 0 to |arguments|
      invariant forall j :: 0 <= j < i ==> !(arguments[j].kind == kind && arguments[j].value == value)
    {
      if arguments[i].kind == kind && arguments[i].value == value { return true; }
    }
    return false;
  }

  method ArgumentsValid(c: Command, ghost rs: seq<Region>) returns (ok: bool)
    requires SpansOk(c.spans, rs)
    ensures ok <==> ArgumentsOk(c)
  {
    hide SpansOk, ReferenceOk, Named;
    for index := 0 to |c.arguments|
      invariant forall i: nat :: i < index ==> ArgumentOk(c, i)
    {
      var a := c.arguments[index];
      var refers := ReferenceValid(c, a, rs);
      if a.id == 0 || (index != 0 && a.id <= c.arguments[index - 1].id) || !KnownMask(a.flags) || !refers {
        assert !ArgumentOk(c, index);
        return false;
      }
    }
    for index := 0 to |c.spans|
      invariant forall k :: 0 <= k < index ==> Named(c.arguments, SpanKind, c.spans[k].id)
    {
      var named := IsNamed(c.arguments, SpanKind, c.spans[index].id);
      if !named { return false; }
    }
    for index := 0 to |c.attachments|
      invariant forall k :: 0 <= k < index ==> Named(c.arguments, AttachmentKind, c.attachments[k].id)
    {
      var named := IsNamed(c.arguments, AttachmentKind, c.attachments[index].id);
      if !named { return false; }
    }
    return true;
  }

  // ------------------------------------------------------------ counting names

  /** How many of the first `n` arguments are of a kind. */
  function CountOf(arguments: seq<Argument>, kind: Kind, n: nat): nat
    requires n <= |arguments|
  {
    if n == 0 then 0 else CountOf(arguments, kind, n - 1) + if arguments[n - 1].kind == kind then 1 else 0
  }

  /** The values they have. */
  function ValuesOf(arguments: seq<Argument>, kind: Kind, n: nat): (r: set<nat>)
    requires n <= |arguments|
  {
    if n == 0 then {} else ValuesOf(arguments, kind, n - 1) + if arguments[n - 1].kind == kind then {arguments[n - 1].value} else {}
  }

  lemma {:induction false} ValuesAre(arguments: seq<Argument>, kind: Kind, n: nat, v: nat)
    requires n <= |arguments|
    ensures v in ValuesOf(arguments, kind, n) <==> exists i :: 0 <= i < n && arguments[i].kind == kind && arguments[i].value == v
  {
    if n > 0 {
      ValuesAre(arguments, kind, n - 1, v);
      if arguments[n - 1].kind == kind && arguments[n - 1].value == v { assert v in ValuesOf(arguments, kind, n); }
    }
  }

  /** There are no more values than arguments, and as many only if no value repeats. */
  lemma {:induction false} CountBounds(arguments: seq<Argument>, kind: Kind, n: nat)
    requires n <= |arguments|
    ensures |ValuesOf(arguments, kind, n)| <= CountOf(arguments, kind, n)
  {
    if n > 0 { CountBounds(arguments, kind, n - 1); }
  }

  lemma {:induction false} NoRepeats(arguments: seq<Argument>, kind: Kind, n: nat, i: nat, j: nat)
    requires i < j < n <= |arguments| && |ValuesOf(arguments, kind, n)| == CountOf(arguments, kind, n)
    requires arguments[i].kind == kind && arguments[j].kind == kind
    ensures arguments[i].value != arguments[j].value
    decreases n
  {
    CountBounds(arguments, kind, n - 1);
    if j < n - 1 {
      NoRepeats(arguments, kind, n - 1, i, j);
    } else {
      ValuesAre(arguments, kind, n - 1, arguments[i].value);
    }
  }

  // ------------------------------------------------------------- the catalogs

  ghost predicate CatalogOk(cat: Catalog) {
    forall k :: 0 <= k < |cat.spans| ==> cat.spans[k].size > 0
  }

  predicate SpanMatches(k: SpanContract, c: Command, a: Argument) {
    k.command == c.id && k.argument == a.id && k.record == a.record
  }

  /** Contract `k` is the first that matches. */
  ghost predicate SpanContractFor(cat: Catalog, c: Command, a: Argument, k: nat) {
    k < |cat.spans| && SpanMatches(cat.spans[k], c, a) && forall j :: 0 <= j < k ==> !SpanMatches(cat.spans[j], c, a)
  }

  predicate AttachmentMatches(k: AttachmentContract, c: Command, a: Argument, x: Attachment) {
    k.command == c.id && k.argument == a.id && k.class_ == x.class_
  }

  ghost predicate AttachmentContractFor(cat: Catalog, c: Command, a: Argument, x: Attachment, k: nat) {
    && k < |cat.attachments| && AttachmentMatches(cat.attachments[k], c, a, x)
    && forall j :: 0 <= j < k ==> !AttachmentMatches(cat.attachments[j], c, a, x)
  }

  /** The direction of a contract is both the flags and the rights it asks for. */
  predicate SpanFitsContract(s: Span, a: Argument, k: SpanContract) {
    && k.minimum <= a.count <= k.maximum && 1 <= k.direction <= 3
    && a.flags == k.direction && s.flags == k.direction && s.rights == k.direction && s.length == a.count * k.size
  }

  ghost predicate SpanArgumentOk(c: Command, cat: Catalog, a: Argument) {
    exists k: nat, i: nat ::
      SpanContractFor(cat, c, a, k) && i < |c.spans| && c.spans[i].id == a.value && SpanFitsContract(c.spans[i], a, cat.spans[k])
  }

  predicate AttachmentFitsContract(x: Attachment, a: Argument, k: AttachmentContract) {
    a.flags == INPUT && x.role == k.role && x.ownership == k.ownership
  }

  ghost predicate AttachmentArgumentOk(c: Command, cat: Catalog, a: Argument) {
    exists k: nat, i: nat ::
      && i < |c.attachments| && c.attachments[i].id == a.value
      && AttachmentContractFor(cat, c, a, c.attachments[i], k) && AttachmentFitsContract(c.attachments[i], a, cat.attachments[k])
  }

  /** An argument other than the inline record is a span or an attachment with a contract. */
  ghost predicate CarriedOk(c: Command, cat: Catalog, a: Argument) {
    match a.kind
    case SpanKind => SpanArgumentOk(c, cat, a)
    case AttachmentKind => AttachmentArgumentOk(c, cat, a)
    case _ => false
  }

  predicate IsInline(r: Request, a: Argument) {
    a.id == 1 && r.inlineRecord != 0
  }

  ghost predicate HasArgument(c: Command, id: u32) {
    exists i :: 0 <= i < |c.arguments| && c.arguments[i].id == id
  }

  predicate InlineFits(r: Request, a: Argument) {
    a.kind.InlineKind? && a.flags == INPUT && a.record == r.inlineRecord && a.value == 0 && a.count == r.inlineSize
  }

  ghost predicate InlineOk(c: Command, r: Request) {
    if r.inlineRecord == 0 then !HasArgument(c, 1) && c.inlineLength == 0
    else (exists i :: 0 <= i < |c.arguments| && c.arguments[i].id == 1 && InlineFits(r, c.arguments[i])) && c.inlineLength == r.inlineSize
  }

  /** The first contract of an argument says whether the argument is required. */
  ghost predicate SpanPresent(c: Command, cat: Catalog, k: nat)
    requires k < |cat.spans|
  {
    && cat.spans[k].command == c.id && cat.spans[k].minimum != 0
    && (forall j :: 0 <= j < k ==> !(cat.spans[j].command == c.id && cat.spans[j].argument == cat.spans[k].argument))
    ==> HasArgument(c, cat.spans[k].argument)
  }

  ghost predicate AttachmentPresent(c: Command, cat: Catalog, k: nat)
    requires k < |cat.attachments|
  {
    && cat.attachments[k].command == c.id && !cat.attachments[k].optional
    && (forall j :: 0 <= j < k ==> !(cat.attachments[j].command == c.id && cat.attachments[j].argument == cat.attachments[k].argument))
    ==> HasArgument(c, cat.attachments[k].argument)
  }

  ghost predicate RequestOk(c: Command, cat: Catalog, r: Request) {
    && r.command == c.id && |c.spans| <= r.spanCapacity && |c.attachments| <= r.attachmentCapacity && InlineOk(c, r)
    && (forall i: nat :: i < |c.arguments| ==> IsInline(r, c.arguments[i]) || CarriedOk(c, cat, c.arguments[i]))
    && CountOf(c.arguments, SpanKind, |c.arguments|) == |c.spans|
    && CountOf(c.arguments, AttachmentKind, |c.arguments|) == |c.attachments|
    && |c.arguments| == (if r.inlineRecord == 0 then 0 else 1) + |c.spans| + |c.attachments|
    && (forall k: nat :: k < |cat.spans| ==> SpanPresent(c, cat, k))
    && (forall k: nat :: k < |cat.attachments| ==> AttachmentPresent(c, cat, k))
  }

  ghost predicate GenericOk(c: Command, cat: Catalog) {
    0 < c.id <= |cat.requests| && RequestOk(c, cat, cat.requests[c.id - 1])
  }

  // ----------------------------------------------------------- one-to-one pairing

  /** All the checks a command of a generic catalog passes. */
  ghost predicate Accepted(c: Command, rs: seq<Region>, cat: Catalog) {
    SpansOk(c.spans, rs) && AttachmentsOk(c.attachments, c.generation) && ArgumentsOk(c) && GenericOk(c, cat)
  }

  lemma SpanIdSet(ss: seq<Span>, rs: seq<Region>, n: nat) returns (ids: seq<nat>)
    requires SpansOk(ss, rs) && n <= |ss|
    ensures |ids| == n && AllDistinct(ids) && forall k :: 0 <= k < n ==> ids[k] == ss[k].id
    decreases n
  {
    if n == 0 {
      ids := [];
    } else {
      var front := SpanIdSet(ss, rs, n - 1);
      ids := front + [ss[n - 1].id];
      forall k | 0 <= k < n - 1 ensures ids[k] != ids[n - 1] { SpanIdsAscend(ss, rs, k, n - 1); }
    }
  }

  lemma AttachmentIdSet(xs: seq<Attachment>, generation: u64, n: nat) returns (ids: seq<nat>)
    requires AttachmentsOk(xs, generation) && n <= |xs|
    ensures |ids| == n && AllDistinct(ids) && forall k :: 0 <= k < n ==> ids[k] == xs[k].id
    decreases n
  {
    if n == 0 {
      ids := [];
    } else {
      var front := AttachmentIdSet(xs, generation, n - 1);
      ids := front + [xs[n - 1].id];
      forall k | 0 <= k < n - 1 ensures ids[k] != ids[n - 1] { AttachmentIdsAscend(xs, generation, k, n - 1); }
    }
  }

  /** As many arguments as names, and every name used: no name is used twice. */
  lemma PairedOnce(arguments: seq<Argument>, kind: Kind, ids: seq<nat>, i: nat, j: nat)
    requires AllDistinct(ids) && CountOf(arguments, kind, |arguments|) == |ids|
    requires forall k :: 0 <= k < |ids| ==> Named(arguments, kind, ids[k])
    requires i < j < |arguments| && arguments[i].kind == kind && arguments[j].kind == kind
    ensures arguments[i].value != arguments[j].value
  {
    var values := ValuesOf(arguments, kind, |arguments|);
    forall x | x in Elements(ids) ensures x in values { ValuesAre(arguments, kind, |arguments|, x); }
    DistinctCount(ids);
    SubsetCount(Elements(ids), values);
    CountBounds(arguments, kind, |arguments|);
    NoRepeats(arguments, kind, |arguments|, i, j);
  }

  /** In an accepted command every span argument names its own span, and every span has its argument. */
  lemma SpansPaired(c: Command, rs: seq<Region>, cat: Catalog)
    requires Accepted(c, rs, cat)
    ensures forall i :: 0 <= i < |c.arguments| && c.arguments[i].kind.SpanKind? ==> exists k: nat :: NamesSpan(c.spans, c.arguments[i], k)
    ensures forall k :: 0 <= k < |c.spans| ==> Named(c.arguments, SpanKind, c.spans[k].id)
    ensures forall i, j :: 0 <= i < j < |c.arguments| && c.arguments[i].kind.SpanKind? && c.arguments[j].kind.SpanKind? ==>
              c.arguments[i].value != c.arguments[j].value
  {
    hide SpansOk, AttachmentsOk, Named, CarriedOk, SpanPresent, AttachmentPresent;
    var ids := SpanIdSet(c.spans, rs, |c.spans|);
    forall i | 0 <= i < |c.arguments| && c.arguments[i].kind.SpanKind? ensures exists k: nat :: NamesSpan(c.spans, c.arguments[i], k) {
      assert ArgumentOk(c, i);
    }
    forall i, j | 0 <= i < j < |c.arguments| && c.arguments[i].kind.SpanKind? && c.arguments[j].kind.SpanKind?
      ensures c.arguments[i].value != c.arguments[j].value
    {
      PairedOnce(c.arguments, SpanKind, ids, i, j);
    }
  }

  /** The same for attachments. */
  lemma AttachmentsPaired(c: Command, rs: seq<Region>, cat: Catalog)
    requires Accepted(c, rs, cat)
    ensures forall i :: 0 <= i < |c.arguments| && c.arguments[i].kind.AttachmentKind? ==>
              exists k: nat :: k < |c.attachments| && c.attachments[k].id == c.arguments[i].value
    ensures forall k :: 0 <= k < |c.attachments| ==> Named(c.arguments, AttachmentKind, c.attachments[k].id)
    ensures forall i, j :: 0 <= i < j < |c.arguments| && c.arguments[i].kind.AttachmentKind? && c.arguments[j].kind.AttachmentKind? ==>
              c.arguments[i].value != c.arguments[j].value
  {
    hide SpansOk, AttachmentsOk, Named, CarriedOk, SpanPresent, AttachmentPresent;
    var ids := AttachmentIdSet(c.attachments, c.generation, |c.attachments|);
    forall i | 0 <= i < |c.arguments| && c.arguments[i].kind.AttachmentKind?
      ensures exists k: nat :: k < |c.attachments| && c.attachments[k].id == c.arguments[i].value
    {
      assert ArgumentOk(c, i);
    }
    forall i, j | 0 <= i < j < |c.arguments| && c.arguments[i].kind.AttachmentKind? && c.arguments[j].kind.AttachmentKind?
      ensures c.arguments[i].value != c.arguments[j].value
    {
      PairedOnce(c.arguments, AttachmentKind, ids, i, j);
    }
  }
}
