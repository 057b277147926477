/** The validator of generic GPU requests: every argument has a contract, and the counts agree. */
module GpuRequest {
  import opened Bytes
  import opened GpuCommand

  method FindSpanContract(cat: Catalog, c: Command, a: Argument) returns (found: bool, k: nat)
    ensures found ==> SpanContractFor(cat, c, a, k)
    ensures !found ==> forall j: nat :: !SpanContractFor(cat, c, a, j)
  {
    for i := 0 to |cat.spans|
      invariant forall j :: 0 <= j < i ==> !SpanMatches(cat.spans[j], c, a)
    {
      if SpanMatches(cat.spans[i], c, a) { return true, i; }
    }
    return false, 0;
  }

  method FindAttachmentContract(cat: Catalog, c: Command, a: Argument, x: Attachment) returns (found: bool, k: nat)
    ensures found ==> AttachmentContractFor(cat, c, a, x, k)
    ensures !found ==> forall j: nat :: !AttachmentContractFor(cat, c, a, x, j)
  {
    for i := 0 to |cat.attachments|
      invariant forall j :: 0 <= j < i ==> !AttachmentMatches(cat.attachments[j], c, a, x)
    {
      if AttachmentMatches(cat.attachments[i], c, a, x) { return true, i; }
    }
    return false, 0;
  }

  lemma SpanChecked(c: Command, cat: Catalog, a: Argument, rs: seq<Region>, k: nat, i: nat)
    requires SpansOk(c.spans, rs) && SpanContractFor(cat, c, a, k) && i < |c.spans| && c.spans[i].id == a.value
    ensures SpanArgumentOk(c, cat, a) <==> SpanFitsContract(c.spans[i], a, cat.spans[k])
  {
    hide SpansOk;
    if SpanArgumentOk(c, cat, a) {
      var n: nat, j: nat :| SpanContractFor(cat, c, a, n) && j < |c.spans| && c.spans[j].id == a.value
                            && SpanFitsContract(c.spans[j], a, cat.spans[n]);
      if j < i { SpanIdsAscend(c.spans, rs, j, i); }
      if i < j { SpanIdsAscend(c.spans, rs, i, j); }
      assert n == k;
    }
  }

  /** A span argument against its contract and its span. */
  method CheckSpanArgument(c: Command, cat: Catalog, a: Argument, ghost rs: seq<Region>) returns (ok: bool)
    requires SpansOk(c.spans, rs) && CatalogOk(cat)
    ensures ok <==> SpanArgumentOk(c, cat, a)
  {
    hide SpansOk, SpanFitsContract;
    var found, k := FindSpanContract(cat, c, a);
    if !found || a.value > U32 - 1 { return false; }
    var named, i := FindSpan(c.spans, a.value);
    if !named { return false; }
    SpanChecked(c, cat, a, rs, k, i);
    return SpanFitsContract(c.spans[i], a, cat.spans[k]);
  }

  lemma AttachmentChecked(c: Command, cat: Catalog, a: Argument, k: nat, i: nat)
    requires AttachmentsOk(c.attachments, c.generation) && i < |c.attachments| && c.attachments[i].id == a.value
    requires AttachmentContractFor(cat, c, a, c.attachments[i], k)
    ensures AttachmentArgumentOk(c, cat, a) <==> AttachmentFitsContract(c.attachments[i], a, cat.attachments[k])
  {
    hide AttachmentsOk;
    if AttachmentArgumentOk(c, cat, a) {
      var n: nat, j: nat :|
        && j < |c.attachments| && c.attachments[j].id == a.value
        && AttachmentContractFor(cat, c, a, c.attachments[j], n) && AttachmentFitsContract(c.attachments[j], a, cat.attachments[n]);
      if j < i { AttachmentIdsAscend(c.attachments, c.generation, j, i); }
      if i < j { AttachmentIdsAscend(c.attachments, c.generation, i, j); }
      assert n == k;
    }
  }

  lemma AttachmentUncontracted(c: Command, cat: Catalog, a: Argument, i: nat)
    requires AttachmentsOk(c.attachments, c.generation) && i < |c.attachments| && c.attachments[i].id == a.value
    requires forall k: nat :: !AttachmentContractFor(cat, c, a, c.attachments[i], k)
    ensures !AttachmentArgumentOk(c, cat, a)
  {
    hide AttachmentsOk;
    forall j: nat | j < |c.attachments| && c.attachments[j].id == a.value ensures j == i {
      if j < i { AttachmentIdsAscend(c.attachments, c.generation, j, i); }
      if i < j { AttachmentIdsAscend(c.attachments, c.generation, i, j); }
    }
  }

  method CheckAttachmentArgument(c: Command, cat: Catalog, a: Argument) returns (ok: bool)
    requires AttachmentsOk(c.attachments, c.generation)
    ensures ok <==> AttachmentArgumentOk(c, cat, a)
  {
    hide AttachmentsOk, AttachmentFitsContract;
    if a.value > U32 - 1 { return false; }
    var named, i := FindAttachment(c.attachments, a.value);
    if !named { return false; }
    var found, k := FindAttachmentContract(cat, c, a, c.attachments[i]);
    if !found {
      AttachmentUncontracted(c, cat, a, i);
      return false;
    }
    AttachmentChecked(c, cat, a, k, i);
    return AttachmentFitsContract(c.attachments[i], a, cat.attachments[k]);
  }

  method FindArgument(c: Command, id: u32) returns (found: bool, index: nat)
    ensures found <==> HasArgument(c, id)
    ensures found ==> index < |c.arguments| && c.arguments[index].id == id
  {
    for i := 0 to |c.arguments|
      invariant forall j :: 0 <= j < i ==> c.arguments[j].id != id
    {
      if c.arguments[i].id == id { return true, i; }
    }
    return false, 0;
  }

  lemma {:induction false} ArgumentIdsAscend(c: Command, i: nat, j: nat)
    requires ArgumentsOk(c) && i < j < |c.arguments|
    ensures c.arguments[i].id < c.arguments[j].id
    decreases j
  {
    hide Named, ReferenceOk;
    assert ArgumentOk(c, j);
    if i < j - 1 { ArgumentIdsAscend(c, i, j - 1); }
  }

  lemma InlineChecked(c: Command, r: Request, i: nat)
    requires ArgumentsOk(c) && r.inlineRecord != 0 && i < |c.arguments| && c.arguments[i].id == 1
    ensures InlineOk(c, r) <==> InlineFits(r, c.arguments[i]) && c.inlineLength == r.inlineSize
  {
    hide ArgumentsOk;
    forall j | 0 <= j < |c.arguments| && c.arguments[j].id == 1 ensures j == i {
      if j < i { ArgumentIdsAscend(c, j, i); }
      if i < j { ArgumentIdsAscend(c, i, j); }
    }
  }

  method CheckInline(c: Command, r: Request) returns (ok: bool)
    requires ArgumentsOk(c)
    ensures ok <==> InlineOk(c, r)
  {
    hide ArgumentsOk;
    var found, i := FindArgument(c, 1);
    if r.inlineRecord == 0 { return !found && c.inlineLength == 0; }
    if !found { return false; }
    InlineChecked(c, r, i);
    return InlineFits(r, c.arguments[i]) && c.inlineLength == r.inlineSize;
  }

  /** Contracts for every argument but the inline record, counted by kind. */
  method CheckArguments(c: Command, cat: Catalog, r: Request, ghost rs: seq<Region>) returns (ok: bool, spans: nat, attachments: nat)
    requires SpansOk(c.spans, rs) && AttachmentsOk(c.attachments, c.generation) && CatalogOk(cat) && ArgumentsOk(c) && InlineOk(c, r)
    ensures ok <==> forall i: nat :: i < |c.arguments| ==> IsInline(r, c.arguments[i]) || CarriedOk(c, cat, c.arguments[i])
    ensures ok ==> spans == CountOf(c.arguments, SpanKind, |c.arguments|)
    ensures ok ==> attachments == CountOf(c.arguments, AttachmentKind, |c.arguments|)
  {
    InlineKinds(c, r);
    hide SpansOk, AttachmentsOk, CatalogOk, ArgumentsOk, InlineOk, SpanArgumentOk, AttachmentArgumentOk;
    spans, attachments := 0, 0;
    for index := 0 to |c.arguments|
      invariant forall i: nat :: i < index ==> IsInline(r, c.arguments[i]) || CarriedOk(c, cat, c.arguments[i])
      invariant spans == CountOf(c.arguments, SpanKind, index) && attachments == CountOf(c.arguments, AttachmentKind, index)
    {
      var a := c.arguments[index];
      if IsInline(r, a) { continue; }
      if a.kind.SpanKind? {
        ok := CheckSpanArgument(c, cat, a, rs);
        if !ok { return; }
        spans := spans + 1;
      } else if a.kind.AttachmentKind? {
        ok := CheckAttachmentArgument(c, cat, a);
        if !ok { return; }
        attachments := attachments + 1;
      } else {
        return false, spans, attachments;
      }
    }
    ok := true;
  }

  /** The inline record is neither a span nor an attachment. */
  lemma InlineKinds(c: Command, r: Request)
    requires ArgumentsOk(c) && InlineOk(c, r)
    ensures forall i :: 0 <= i < |c.arguments| && IsInline(r, c.arguments[i]) ==> c.arguments[i].kind.InlineKind?
  {
    hide ArgumentsOk;
    forall i | 0 <= i < |c.arguments| && IsInline(r, c.arguments[i]) ensures c.arguments[i].kind.InlineKind? {
      InlineChecked(c, r, i);
    }
  }

  /** Every span the catalog requires is there. */
  method CheckSpansPresent(c: Command, cat: Catalog) returns (ok: bool)
    ensures ok <==> forall k: nat :: k < |cat.spans| ==> SpanPresent(c, cat, k)
  {
    hide HasArgument;
    for index := 0 to |cat.spans|
      invariant forall k: nat :: k < index ==> SpanPresent(c, cat, k)
    {
      if cat.spans[index].command != c.id || cat.spans[index].minimum == 0 { continue; }
      var earlier := 0;
      while earlier < index && !(cat.spans[earlier].command == c.id && cat.spans[earlier].argument == cat.spans[index].argument)
        invariant earlier <= index
        invariant forall j :: 0 <= j < earlier ==> !(cat.spans[j].command == c.id && cat.spans[j].argument == cat.spans[index].argument)
      {
        earlier := earlier + 1;
      }
      var found, i := FindArgument(c, cat.spans[index].argument);
      if earlier == index && !found {
        assert !SpanPresent(c, cat, index);
        return false;
      }
    }
    return true;
  }

  method CheckAttachmentsPresent(c: Command, cat: Catalog) returns (ok: bool)
    ensures ok <==> forall k: nat :: k < |cat.attachments| ==> AttachmentPresent(c, cat, k)
  {
    hide HasArgument;
    for index := 0 to |cat.attachments|
      invariant forall k: nat :: k < index ==> AttachmentPresent(c, cat, k)
    {
      if cat.attachments[index].command != c.id || cat.attachments[index].optional { continue; }
      var earlier := 0;
      while earlier < index
            && !(cat.attachments[earlier].command == c.id && cat.attachments[earlier].argument == cat.attachments[index].argument)
        invariant earlier <= index
        invariant forall j :: 0 <= j < earlier ==>
            !(cat.attachments[j].command == c.id && cat.attachments[j].argument == cat.attachments[index].argument)
      {
        earlier := earlier + 1;
      }
      var found, i := FindArgument(c, cat.attachments[index].argument);
      if earlier == index && !found {
        assert !AttachmentPresent(c, cat, index);
        return false;
      }
    }
    return true;
  }

  method GenericRequestValid(c: Command, cat: Catalog, ghost rs: seq<Region>) returns (ok: bool)
    requires SpansOk(c.spans, rs) && AttachmentsOk(c.attachments, c.generation) && CatalogOk(cat) && ArgumentsOk(c)
    ensures ok <==> GenericOk(c, cat)
  {
    hide SpansOk, AttachmentsOk, CatalogOk, ArgumentsOk, InlineOk, CarriedOk, SpanPresent, AttachmentPresent, CountOf;
    if c.id == 0 || c.id > |cat.requests| { return false; }
    var r := cat.requests[c.id - 1];
    if r.command != c.id || |c.spans| > r.spanCapacity || |c.attachments| > r.attachmentCapacity { return false; }
    ok := CheckInline(c, r);
    if !ok { return; }
    var spans, attachments;
    ok, spans, attachments := CheckArguments(c, cat, r, rs);
    if !ok { return; }
    if spans != |c.spans| || attachments != |c.attachments|
       || |c.arguments| != (if r.inlineRecord == 0 then 0 else 1) + spans + attachments {
      return false;
    }
    ok := CheckSpansPresent(c, cat);
    if !ok { return; }
    ok := CheckAttachmentsPresent(c, cat);
  }

  // ---------------------------------------------------------------- whole command

  const MAX_ARGUMENTS: nat := 256
  const MAX_SPANS: nat := 128
  const MAX_ATTACHMENTS: nat := 64
  const MAX_INLINE_BYTES: nat := 4096

  /** The part of a command that names no table. */
  datatype Envelope = Envelope(session: u64, queueClass: u32, commandSet: u32, flags: u32, deadline: u64)

  /** One command set of a profile: the queue it runs on and how many commands it has. */
  datatype CommandSet = CommandSet(id: u32, queueClass: u32, count: nat)

  /** The first set of the profile with the id has the command, on that queue. */
  predicate AllowedBy(sets: seq<CommandSet>, e: Envelope, command: u32, k: nat) {
    && k < |sets| && sets[k].id == e.commandSet && (forall j :: 0 <= j < k ==> sets[j].id != e.commandSet)
    && sets[k].queueClass == e.queueClass && 0 < command <= sets[k].count
  }

  method CommandAllowed(sets: seq<CommandSet>, e: Envelope, command: u32) returns (ok: bool)
    ensures ok <==> exists k: nat :: AllowedBy(sets, e, command, k)
  {
    for index := 0 to |sets|
      invariant forall j :: 0 <= j < index ==> sets[j].id != e.commandSet
    {
      if sets[index].id == e.commandSet {
        ok := sets[index].queueClass == e.queueClass && command != 0 && command <= sets[index].count;
        assert ok <==> AllowedBy(sets, e, command, index);
        return;
      }
    }
    return false;
  }

  /** `sets` are the command sets of the profile, and `waits` says whether the command is one that waits. */
  ghost predicate EnvelopeOk(e: Envelope, c: Command, sets: seq<CommandSet>, waits: bool) {
    && c.generation != 0 && e.session != 0 && e.flags == 0 && |c.arguments| <= MAX_ARGUMENTS && |c.spans| <= MAX_SPANS
    && |c.attachments| <= MAX_ATTACHMENTS && c.inlineLength <= MAX_INLINE_BYTES
    && (exists k: nat :: AllowedBy(sets, e, c.id, k)) && (waits <==> e.deadline != 0)
  }

  /** The checks a generic command passes before it is encoded and after it is decoded. */
  method CommandValid(e: Envelope, c: Command, rs: seq<Region>, sets: seq<CommandSet>, waits: bool, cat: Catalog)
    returns (ok: bool)
    requires CatalogOk(cat)
    ensures ok <==> EnvelopeOk(e, c, sets, waits) && RegionsOk(rs) && Accepted(c, rs, cat)
  {
    hide RegionsOk, SpansOk, AttachmentsOk, ArgumentsOk, GenericOk, AllowedBy;
    if c.generation == 0 || e.session == 0 || e.flags != 0 || |c.arguments| > MAX_ARGUMENTS || |c.spans| > MAX_SPANS
       || |c.attachments| > MAX_ATTACHMENTS || c.inlineLength > MAX_INLINE_BYTES {
      return false;
    }
    ok := CommandAllowed(sets, e, c.id);
    if !ok || waits != (e.deadline != 0) { return false; }
    ok := RegionsValid(rs);
    if !ok { return; }
    ok := SpansValid(c.spans, rs);
    if !ok { return; }
    ok := AttachmentsValid(c.attachments, c.generation);
    if !ok { return; }
    ok := ArgumentsValid(c, rs);
    if !ok { return; }
    ok := GenericRequestValid(c, cat, rs);
  }
}
