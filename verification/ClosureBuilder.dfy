/** The closure builder: every addition is checked against the records already there. */
module ClosureBuilder {
  import opened Bytes
  import F = Fields
  import opened Names
  import G = ClosureGraph
  import opened ClosureRecords
  import S = ClosureSeal
  import opened ClosureRuns

  datatype Status = Okay | InvalidArgument | InvalidConfiguration | ResourceExhausted | NoMemory

  /** Room for one more record; `memory` says that the table has spare room or could be grown. */
  function Reserve(count: nat, limit: nat, memory: bool): Status {
    if count >= limit then ResourceExhausted else if !memory then NoMemory else Okay
  }

  class Builder {
    const digest: seq<byte>
    var storage: Storage
    /** The calls accepted so far. */
    ghost var accepted: seq<Call>

    ghost predicate Valid()
      reads this
    {
      AllAccepted(digest, accepted) && storage == Run(digest, accepted) && Unique(storage) && Limited(storage)
    }

    constructor (digest: seq<byte>)
      requires |digest| == DIGEST_SIZE && !F.Zero(digest)
      ensures Valid() && this.digest == digest && accepted == [] && storage == Empty(digest)
    {
      this.digest, storage, accepted := digest, Empty(digest), [];
    }

    /** The outcome of a call: it is accepted exactly when it may be and there was memory, and then it is one more. */
    ghost predicate Made(was: Storage, before: seq<Call>, call: Call, memory: bool, status: Status)
      reads this
    {
      && Valid() && (status.Okay? <==> Accepts(was, call) && memory)
      && (if status.Okay? then storage == Apply(was, call) && accepted == before + [call] else storage == was && accepted == before)
    }

    /** Note an accepted call. */
    ghost method Note(call: Call)
      requires Valid() && Accepts(storage, call)
      modifies this`accepted
      ensures accepted == old(accepted) + [call] && AllAccepted(digest, accepted) && Run(digest, accepted) == Apply(storage, call)
      ensures Unique(Apply(storage, call)) && Limited(Apply(storage, call))
    {
      ApplyKeeps(storage, call);
      hide Accepts, Apply;
      ghost var before := accepted;
      accepted := accepted + [call];
      assert accepted[..|before|] == before;
      forall i | 0 <= i < |accepted| ensures Accepts(Run(digest, accepted[..i]), accepted[i]) {
        assert accepted[..i] == before[..i];
        if i == |before| { assert before[..i] == before; }
      }
    }

    method FindArtifact(id: u32) returns (found: bool, index: nat)
      requires Valid()
      ensures found <==> S.HasNode(storage.artifacts, id)
      ensures found ==> index < |storage.artifacts| && storage.artifacts[index].id == id
    {
      hide AllAccepted, Run, Unique, Limited;
      for i := 0 to |storage.artifacts|
        invariant forall a :: a in storage.artifacts[..i] ==> a.id != id
      {
        if storage.artifacts[i].id == id {
          assert storage.artifacts[i] in storage.artifacts;
          return true, i;
        }
      }
      assert storage.artifacts[..|storage.artifacts|] == storage.artifacts;
      return false, 0;
    }

    method AddArtifact(id: u32, shared: bool, digest: seq<byte>, namespace: Name, memory: bool) returns (status: Status)
      requires Valid()
      modifies this
      ensures Made(old(storage), old(accepted), CallArtifact(id, shared, digest, namespace), memory, status)
    {
      hide AllAccepted, Run, NameOk;
      var named := NameValid(namespace);
      if id == 0 || |digest| != DIGEST_SIZE || !named { return InvalidArgument; }
      if F.Zero(digest) { return InvalidConfiguration; }
      for i := 0 to |storage.artifacts|
        invariant forall j :: 0 <= j < i ==> storage.artifacts[j].id != id && storage.artifacts[j].namespace != namespace
      {
        if storage.artifacts[i].id == id || storage.artifacts[i].namespace == namespace {
          assert storage.artifacts[i] in storage.artifacts;
          return InvalidConfiguration;
        }
      }
      status := Reserve(|storage.artifacts|, MAX_ARTIFACTS, memory);
      if !status.Okay? { return; }
      Note(CallArtifact(id, shared, digest, namespace));
      storage := storage.(artifacts := storage.artifacts + [ArtifactRecord(id, shared, digest, namespace, Unset, false)]);
    }

    /** Set once how a node starts and stops. */
    method SetLifecycle(id: u32, lifecycle: Lifecycle) returns (status: Status)
      requires Valid() && !lifecycle.Unset?
      modifies this
      ensures Made(old(storage), old(accepted), CallLifecycle(id, lifecycle), true, status)
    {
      hide AllAccepted, Run, NameOk;
      if id == 0 { return InvalidArgument; }
      if lifecycle.Symbols? {
        var init := NameValid(lifecycle.init);
        var quiesce := NameValid(lifecycle.quiesce);
        var cleanup := NameValid(lifecycle.cleanup);
        if !init || !quiesce || !cleanup { return InvalidArgument; }
      }
      var found, i := FindArtifact(id);
      if !found || !storage.artifacts[i].lifecycle.Unset? { return InvalidConfiguration; }
      Note(CallLifecycle(id, lifecycle));
      storage := storage.(artifacts := storage.artifacts[i := storage.artifacts[i].(lifecycle := lifecycle)]);
      return Okay;
    }

    method MarkRoot(id: u32) returns (status: Status)
      requires Valid()
      modifies this
      ensures Made(old(storage), old(accepted), CallRoot(id), true, status)
    {
      hide AllAccepted, Run, NameOk;
      if id == 0 { return InvalidArgument; }
      var found, i := FindArtifact(id);
      if !found || storage.artifacts[i].shared || storage.artifacts[i].root { return InvalidConfiguration; }
      Note(CallRoot(id));
      storage := storage.(artifacts := storage.artifacts[i := storage.artifacts[i].(root := true)]);
      return Okay;
    }

    method AddDependency(consumer: u32, provider: u32, memory: bool) returns (status: Status)
      requires Valid()
      modifies this
      ensures Made(old(storage), old(accepted), CallDependency(G.Dependency(consumer, provider)), memory, status)
    {
      hide AllAccepted, Run, NameOk;
      if consumer == 0 || provider == 0 { return InvalidArgument; }
      var present := S.HasDependency(storage.dependencies, consumer, provider);
      if consumer == provider || present { return InvalidConfiguration; }
      status := Reserve(|storage.dependencies|, G.MAX_DEPENDENCIES, memory);
      if !status.Okay? { return; }
      Note(CallDependency(G.Dependency(consumer, provider)));
      storage := storage.(dependencies := storage.dependencies + [G.Dependency(consumer, provider)]);
    }

    method AddExport(e: ExportRecord, memory: bool) returns (status: Status)
      requires Valid()
      modifies this
      ensures Made(old(storage), old(accepted), CallExport(e), memory, status)
    {
      hide AllAccepted, Run, NameOk;
      var named := NameValid(e.symbol);
      if e.node == 0 || !named { return InvalidArgument; }
      for i := 0 to |storage.exports|
        invariant forall j :: 0 <= j < i ==> !SameExport(storage.exports[j], e)
      {
        if SameExport(storage.exports[i], e) {
          assert storage.exports[i] in storage.exports;
          return InvalidConfiguration;
        }
      }
      status := Reserve(|storage.exports|, MAX_SYMBOLS, memory);
      if !status.Okay? { return; }
      Note(CallExport(e));
      storage := storage.(exports := storage.exports + [e]);
    }

    method AddImport(r: ImportRecord, memory: bool) returns (status: Status)
      requires Valid()
      modifies this
      ensures Made(old(storage), old(accepted), CallImport(r), memory, status)
    {
      hide AllAccepted, Run, NameOk;
      var consumer := NameValid(r.consumerSymbol);
      var provider := NameValid(r.providerSymbol);
      if r.consumer == 0 || !consumer || !provider { return InvalidArgument; }
      for i := 0 to |storage.imports|
        invariant forall j :: 0 <= j < i ==> !SameImport(storage.imports[j], r)
      {
        if SameImport(storage.imports[i], r) {
          assert storage.imports[i] in storage.imports;
          return InvalidConfiguration;
        }
      }
      status := Reserve(|storage.imports|, MAX_SYMBOLS, memory);
      if !status.Okay? { return; }
      Note(CallImport(r));
      storage := storage.(imports := storage.imports + [r]);
    }

    method AddResource(r: ResourceRecord, memory: bool) returns (status: Status)
      requires Valid()
      modifies this
      ensures Made(old(storage), old(accepted), CallResource(r), memory, status)
    {
      hide AllAccepted, Run, NameOk;
      if r.slot == 0 || |r.schema| != DIGEST_SIZE { return InvalidArgument; }
      if F.Zero(r.schema) || !ResourceOk(r) { return InvalidConfiguration; }
      var taken := S.FindResource(storage.resources, r.slot);
      if taken { return InvalidConfiguration; }
      assert forall i :: 0 <= i < |storage.resources| ==> storage.resources[i] in storage.resources;
      status := Reserve(|storage.resources|, MAX_RESOURCES, memory);
      if !status.Okay? { return; }
      Note(CallResource(r));
      storage := storage.(resources := storage.resources + [r]);
    }

    method BindResource(b: BindingRecord, memory: bool) returns (status: Status)
      requires Valid()
      modifies this
      ensures Made(old(storage), old(accepted), CallBinding(b), memory, status)
    {
      hide AllAccepted, Run, NameOk;
      if b.slot == 0 || b.node == 0 { return InvalidArgument; }
      for i := 0 to |storage.bindings|
        invariant b !in storage.bindings[..i]
      {
        if storage.bindings[i] == b { return InvalidConfiguration; }
      }
      assert storage.bindings[..|storage.bindings|] == storage.bindings;
      status := Reserve(|storage.bindings|, MAX_BINDINGS, memory);
      if !status.Okay? { return; }
      Note(CallBinding(b));
      storage := storage.(bindings := storage.bindings + [b]);
    }

    method Seal(memory: bool, room: bool) returns (status: S.Status, closure: S.Option<Storage>)
      requires Valid()
      ensures memory && room ==> (status.Okay? <==> S.StorageOk(Run(digest, accepted)))
      ensures status.Okay? <==> closure.Some?
      ensures closure.Some? ==> S.StorageOk(Run(digest, accepted)) && S.SealedFrom(Run(digest, accepted), closure.value)
    {
      status, closure := S.Seal(storage, memory, room);
    }
  }
}
