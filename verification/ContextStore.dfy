/** The container as the program keeps it: fields updated in place, files written one at a time. */
module ContextStoreClass {
  import opened Bytes
  import opened Checkpoints
  import opened StoreSpec
  import O = Objects
  import K = Keyed
  import S = Sha256
  import T = Tables
  import opened Wrappers

  class ContextStore {
    var disk: Disk
    var manifest: Manifest
    var objects: seq<(string, Meta)>
    var checkpoints: seq<Checkpoint>
    var pending: seq<(string, ())>
    var replicas: seq<map<string, seq<u8>>>
    var requireSignature: bool
    /** Every write since the object was made, in order. */
    ghost var written: seq<Write>

    ghost function State(): Store
      reads this
    {
      Store(disk, manifest, objects, checkpoints, pending, replicas, requireSignature)
    }

    /** `create`, in a directory that holds no container. */
    constructor Create(agent: string)
      ensures State() == CreateOf(agent)
    {
      hide FirstManifest, MarkOf;
      var first := FirstManifest(agent);
      manifest := first;
      disk := EmptyDisk().(manifest := Some(first), mark := Some(MarkOf(0)));
      objects, checkpoints, pending, replicas, requireSignature, written := [], [], [], [], false, [];
    }

    /** What `open` found, in memory. */
    constructor Load(d: Disk, m: Manifest, found: seq<(string, Meta)>, chain: seq<Checkpoint>)
      ensures State() == Store(d, m, found, chain, [], [], m.signingKey.Some?)
    {
      disk, manifest, objects, checkpoints, pending, replicas := d, m, found, chain, [], [];
      requireSignature, written := m.signingKey.Some?, [];
    }

    /** `write_atomic`, and the other single-file changes. */
    method WriteFile(w: Write)
      modifies this`disk, this`written
      ensures disk == Apply(old(disk), w) && written == old(written) + [w]
    {
      hide Apply;
      disk := Apply(disk, w);
      written := written + [w];
    }

    /** The bytes of one object, to the store and to every replica. */
    method Replicate(id: string, bytes: seq<u8>)
      modifies this`replicas
      ensures replicas == CopyTo(old(replicas), id, bytes)
    {
      var before := replicas;
      for i := 0 to |before|
        invariant |replicas| == |before|
        invariant forall j :: 0 <= j < |before| ==> replicas[j] == if j < i then before[j][id := bytes] else before[j]
      {
        replicas := replicas[i := replicas[i][id := bytes]];
      }
    }

    method Put(record: O.ObjectRecord) returns (r: Result<string, StoreError>)
      modifies this
      ensures State() == PutOf(old(State()), record).store && r == PutOf(old(State()), record).result
      ensures written == old(written) + PutOf(old(State()), record).writes
    {
      hide Apply, T.Put, K.Find, CopyTo, O.ContentHash, O.CanonicalBytes, ToHex;
      var stamped := if record.createdBy == "" then record.(createdBy := manifest.agentId) else record;
      if stamped.derived && stamped.sourceObjects == [] {
        return Err(ProvenanceMissing(stamped.logicalId));
      }
      var bytes, hash := O.CanonicalBytes(stamped), O.ContentHash(stamped);
      var id := ToHex(hash);
      var existing := K.Find(objects, id);
      if existing.Some? {
        return if existing.value.hash == hash then Ok(id) else Err(Immutable(id));
      }
      var meta := Meta(hash, |bytes|, manifest.highestGeneration + 1, Unsigned);
      WriteFile(WriteObject(id, bytes));
      Replicate(id, bytes);
      WriteFile(WriteSidecar(id, meta));
      TwoWrites(old(disk), WriteObject(id, bytes), WriteSidecar(id, meta));
      objects := T.Put(objects, id, meta);
      pending := T.Put(pending, id, ());
      r := Ok(id);
    }

    method RestoreObject(id: string, bytes: seq<u8>) returns (r: Result<(), StoreError>)
      modifies this
      ensures State() == RestoreOf(old(State()), id, bytes).store && r == RestoreOf(old(State()), id, bytes).result
      ensures written == old(written) + RestoreOf(old(State()), id, bytes).writes
    {
      hide Apply, T.Put, K.Find, ToHex;
      var hash := S.SHA256(bytes);
      if ToHex(hash) != id {
        return Err(Corrupt(id));
      }
      WriteFile(WriteObject(id, bytes));
      var existing := K.Find(objects, id);
      var generation := if existing.Some? then existing.value.generation else manifest.highestGeneration;
      var meta := Meta(hash, |bytes|, generation, Verified);
      WriteFile(WriteSidecar(id, meta));
      TwoWrites(old(disk), WriteObject(id, bytes), WriteSidecar(id, meta));
      objects := T.Put(objects, id, meta);
      r := Ok(());
    }

    method Quarantine(id: string, reason: string)
      modifies this
      ensures State() == QuarantineOf(old(State()), id, reason).store
      ensures written == old(written) + QuarantineOf(old(State()), id, reason).writes
    {
      hide Apply, T.Without, T.Has;
      ghost var done: seq<Write> := [];
      NoWrites(disk);
      if T.Has(disk.objects, id) {
        OneMore(old(disk), done, MoveToQuarantine(id));
        WriteFile(MoveToQuarantine(id));
        done := done + [MoveToQuarantine(id)];
        SidecarsKept(old(disk), id);
      }
      if id in disk.sidecars {
        OneMore(old(disk), done, RemoveSidecar(id));
        WriteFile(RemoveSidecar(id));
        done := done + [RemoveSidecar(id)];
      }
      OneMore(old(disk), done, WriteReason(id, reason));
      WriteFile(WriteReason(id, reason));
      assert done + [WriteReason(id, reason)] == QuarantineOf(old(State()), id, reason).writes;
      objects := T.Without(objects, id);
      pending := T.Without(pending, id);
    }

    /** The checkpoint that would be sealed now. */
    method Draft(timestamp: nat) returns (c: Checkpoint)
      ensures c == NextCheckpoint(State(), timestamp)
    {
      hide TreeRoot, ComputeChain, PolicyHash, Head, SealedRoot, T.Keys, SchemaHash, ZeroDigest;
      var body := Checkpoint(
        SCHEMA_VERSION, manifest.highestGeneration + 1, TreeRoot(objects), SealedRoot(checkpoints), ZeroDigest(),
        Head(checkpoints), timestamp, PolicyHash(requireSignature), SchemaHash(), |objects|, T.Keys(pending));
      c := body.(chain := ComputeChain(body));
    }

    /** The signature file, and what the manifest says about the key. */
    method Sign(who: Signer, generation: nat)
      modifies this`disk, this`written, this`manifest, this`requireSignature
      ensures disk == Apply(old(disk), WriteSignature(generation))
      ensures written == old(written) + [WriteSignature(generation)]
      ensures manifest == old(manifest).(signingKey := Some(who.key), cryptographic := who.cryptographic)
      ensures requireSignature
    {
      WriteFile(WriteSignature(generation));
      manifest := manifest.(signingKey := Some(who.key), cryptographic := who.cryptographic);
      requireSignature := true;
    }

    /** The manifest names the new generation, then the mark rises. */
    method Name(generation: nat, root: Digest)
      modifies this`disk, this`written, this`manifest
      ensures manifest == old(manifest).(
                          highestGeneration := generation, rootHash := root, policyHash := PolicyHash(requireSignature))
      ensures disk == Apply(Apply(old(disk), WriteManifest(manifest)), WriteMark(MarkOf(generation)))
      ensures written == old(written) + [WriteManifest(manifest), WriteMark(MarkOf(generation))]
    {
      hide PolicyHash, Apply, MarkOf;
      manifest := manifest.(
      highestGeneration := generation, rootHash := root, policyHash := PolicyHash(requireSignature));
      WriteFile(WriteManifest(manifest));
      WriteFile(WriteMark(MarkOf(generation)));
    }

    method Commit(timestamp: nat, signer: Option<Signer>) returns (r: Result<Checkpoint, StoreError>)
      modifies this
      ensures State() == CommitOf(old(State()), timestamp, signer).store
      ensures r == CommitOf(old(State()), timestamp, signer).result
      ensures written == old(written) + CommitOf(old(State()), timestamp, signer).writes
    {
      hide Apply, ApplyAll, TreeRoot, NextCheckpoint, PolicyHash, MarkOf, CommitOf, CommitWrites, NextManifest;
      ghost var before := State();
      var root := TreeRoot(objects);
      if pending == [] && root == manifest.rootHash && checkpoints != [] {
        CommitIdle(before, timestamp, signer);
        return Ok(checkpoints[|checkpoints| - 1]);
      }
      var generation := manifest.highestGeneration + 1;
      var c := Draft(timestamp);
      WriteFile(WriteCheckpoint(c));
      if signer.Some? {
        if !signer.value.forContext {
          CommitRefused(before, timestamp, signer);
          return Err(WrongKeyRole(signer.value.key));
        }
        Sign(signer.value, generation);
      }
      Name(generation, root);
      checkpoints := checkpoints + [c];
      pending := [];
      CommitSealed(before, timestamp, signer);
      r := Ok(c);
    }
  }

  lemma {:induction false} CommitIdle(s: Store, timestamp: nat, signer: Option<Signer>)
    requires Idle(s)
    ensures CommitOf(s, timestamp, signer) == Outcome(s, [], Ok(s.checkpoints[|s.checkpoints| - 1]))
  {
    hide TreeRoot, NextCheckpoint, CommitWrites;
  }

  lemma {:induction false} CommitRefused(s: Store, timestamp: nat, signer: Option<Signer>)
    requires !Idle(s) && signer.Some? && !signer.value.forContext
    ensures var w := WriteCheckpoint(NextCheckpoint(s, timestamp));
            CommitOf(s, timestamp, signer)
            == Outcome(s.(disk := Apply(s.disk, w)), [w], Err(WrongKeyRole(signer.value.key)))
  {
    hide Idle, TreeRoot, NextCheckpoint, CommitWrites, Apply, ApplyAll;
    var w := WriteCheckpoint(NextCheckpoint(s, timestamp));
    NoWrites(s.disk);
    OneMore(s.disk, [], w);
    assert [] + [w] == [w];
  }

  lemma {:induction false} CommitSealed(s: Store, timestamp: nat, signer: Option<Signer>)
    requires !Idle(s) && (signer.Some? ==> signer.value.forContext)
    ensures var c, generation := NextCheckpoint(s, timestamp), s.manifest.highestGeneration + 1;
            var require := s.requireSignature || signer.Some?;
            var base := if signer.None? then s.manifest
                        else s.manifest.(signingKey := Some(signer.value.key),
                                         cryptographic := signer.value.cryptographic);
            var m := base.(
                     highestGeneration := generation, rootHash := TreeRoot(s.objects), policyHash := PolicyHash(require));
            var sealed := Apply(s.disk, WriteCheckpoint(c));
            var signed := if signer.Some? then Apply(sealed, WriteSignature(generation)) else sealed;
            var disk := Apply(Apply(signed, WriteManifest(m)), WriteMark(MarkOf(generation)));
            && CommitOf(s, timestamp, signer).store
                 == s.(disk := disk, manifest := m, checkpoints := s.checkpoints + [c], pending := [],
                       requireSignature := require)
            && CommitOf(s, timestamp, signer).result == Ok(c)
            && CommitOf(s, timestamp, signer).writes
                 == [WriteCheckpoint(c)] + (if signer.Some? then [WriteSignature(generation)] else [])
                    + [WriteManifest(m), WriteMark(MarkOf(generation))]
  {
    hide Idle, TreeRoot, NextCheckpoint, Apply, ApplyAll, PolicyHash, MarkOf;
    CommitApplied(s, timestamp, signer);
  }

  /** A commit's writes, one after the other. */
  lemma {:induction false} CommitApplied(s: Store, timestamp: nat, signer: Option<Signer>)
    ensures var c, generation := NextCheckpoint(s, timestamp), s.manifest.highestGeneration + 1;
            var sealed := Apply(s.disk, WriteCheckpoint(c));
            var signed := if signer.Some? then Apply(sealed, WriteSignature(generation)) else sealed;
            ApplyAll(s.disk, CommitWrites(s, timestamp, signer))
            == Apply(Apply(signed, WriteManifest(NextManifest(s, signer))), WriteMark(MarkOf(generation)))
  {
    hide Apply, ApplyAll, NextCheckpoint, NextManifest, MarkOf;
    var c, generation := NextCheckpoint(s, timestamp), s.manifest.highestGeneration + 1;
    var first := [WriteCheckpoint(c)] + if signer.Some? then [WriteSignature(generation)] else [];
    NoWrites(s.disk);
    OneMore(s.disk, [], WriteCheckpoint(c));
    assert [] + [WriteCheckpoint(c)] == [WriteCheckpoint(c)];
    if signer.Some? {
      OneMore(s.disk, [WriteCheckpoint(c)], WriteSignature(generation));
    } else {
      assert first == [WriteCheckpoint(c)];
    }
    OneMore(s.disk, first, WriteManifest(NextManifest(s, signer)));
    OneMore(s.disk, first + [WriteManifest(NextManifest(s, signer))], WriteMark(MarkOf(generation)));
    assert CommitWrites(s, timestamp, signer)
        == first + [WriteManifest(NextManifest(s, signer))] + [WriteMark(MarkOf(generation))];
  }

  lemma {:induction false} NoWrites(d: Disk)
    ensures ApplyAll(d, []) == d
  {
  }

  lemma {:induction false} OneMore(d: Disk, done: seq<Write>, w: Write)
    ensures ApplyAll(d, done + [w]) == Apply(ApplyAll(d, done), w)
  {
    hide Apply;
    assert (done + [w])[..|done + [w]| - 1] == done;
  }

  lemma {:induction false} TwoWrites(d: Disk, a: Write, b: Write)
    ensures ApplyAll(d, [a, b]) == Apply(Apply(d, a), b)
  {
    hide Apply, ApplyAll;
    NoWrites(d);
    OneMore(d, [], a);
    OneMore(d, [a], b);
    assert [] + [a] == [a] && [a] + [b] == [a, b];
  }

  lemma {:induction false} SidecarsKept(d: Disk, id: string)
    ensures Apply(d, MoveToQuarantine(id)).sidecars == d.sidecars
  {
    hide T.Without, K.Find;
  }

  /** Manifest, mark, chain, in that order; the first trouble refuses the directory. */
  method CheckDirectory(d: Disk) returns (refused: Option<OpenError>)
    ensures refused == Refusal(d)
  {
    hide Guard, SchemaHash, SortedCheckpoints, ChainValid;
    if d.manifest.None? {
      return Some(NoManifest);
    }
    var m := d.manifest.value;
    if m.formatVersion > FORMAT_VERSION {
      return Some(FormatTooNew);
    }
    if m.schemaHash != SchemaHash() {
      return Some(SchemaMismatch);
    }
    if d.mark.Some? {
      if d.mark.value.guard != Guard(d.mark.value.generation) {
        return Some(MarkCorrupt);
      }
      if m.highestGeneration < d.mark.value.generation {
        return Some(Rollback);
      }
    }
    var chain := SortedCheckpoints(d.checkpoints);
    var verified := VerifyChain(chain);
    if verified.Err? {
      return Some(ChainBroken);
    }
    if chain != [] && chain[|chain| - 1].generation != m.highestGeneration {
      return Some(ChainBroken);
    }
    refused := None;
  }

  /** `open`. */
  method Open(d: Disk) returns (r: Result<ContextStore, OpenError>)
    ensures r.Err? ==> OpenOf(d) == Err(r.error)
    ensures r.Ok? ==> fresh(r.value) && OpenOf(d) == Ok(r.value.State())
  {
    hide Refusal, SortedCheckpoints, Loaded;
    var refused := CheckDirectory(d);
    if refused.Some? {
      return Err(refused.value);
    }
    ManifestThere(d);
    var m := d.manifest.value;
    var found := LoadObjects(d, m.highestGeneration);
    var store := new ContextStore.Load(d, m, found, SortedCheckpoints(d.checkpoints));
    r := Ok(store);
  }

  lemma {:induction false} ManifestThere(d: Disk)
    requires Refusal(d).None?
    ensures d.manifest.Some?
  {
    hide SortedCheckpoints, ChainValid, Guard, SchemaHash;
  }

  method LoadObjects(d: Disk, generation: nat) returns (found: seq<(string, Meta)>)
    ensures found == Loaded(d, generation)
  {
    found := [];
    for i := 0 to |d.objects|
      invariant |found| == i
      invariant forall j :: 0 <= j < i ==>
                  found[j] == (d.objects[j].0, LoadedMeta(d, d.objects[j].0, d.objects[j].1, generation))
    {
      var (id, bytes) := d.objects[i];
      var meta :=
        if id in d.sidecars then d.sidecars[id] else Meta(S.SHA256(bytes), |bytes|, generation, Unsigned);
      found := found + [(id, meta)];
    }
  }
}
