/**
 When the container opens, takes an object and seals (src/context_store.rs): the exact
 conditions, in terms of the fields on disk and of the record offered.
 */
module StoreOutcomes {
  import opened Bytes
  import opened Checkpoints
  import opened StoreSpec
  import R = StoreRuns
  import K = Keyed
  import M = Merkle
  import O = Objects
  import S = Sha256
  import T = Tables
  import Srt = Sorting
  import Utf8
  import opened Wrappers

  /** The checkpoint counts one on, names the one before by digest and root, and carries its own digest. */
  ghost predicate Follows(cs: seq<Checkpoint>, i: nat)
    requires i < |cs|
  {
    && cs[i].generation == i + 1
    && cs[i].parentChain == (if i == 0 then ZeroDigest() else cs[i - 1].chain)
    && cs[i].parentRoot == (if i == 0 then M.EmptyRoot() else cs[i - 1].merkleRoot)
    && cs[i].chain == ComputeChain(cs[i])
  }

  lemma {:induction false} ChainedIs(cs: seq<Checkpoint>, i: nat)
    requires i < |cs| && (i > 0 ==> cs[i - 1].generation == i)
    ensures Chained(cs, i) <==> Follows(cs, i)
  {
    hide M.EmptyRoot, ComputeChain, LastGeneration, Head, SealedRoot, ZeroDigest;
    LastOf(cs, i);
  }

  lemma {:induction false} ChainValidIff(cs: seq<Checkpoint>)
    ensures ChainValid(cs) <==> forall i: nat :: i < |cs| ==> Follows(cs, i)
  {
    hide Chained, Follows;
    if ChainValid(cs) {
      forall i: nat | i < |cs| ensures Follows(cs, i) {
        if i > 0 {
          Generations(cs, i - 1);
        }
        ChainedIs(cs, i);
      }
    }
    if forall i: nat :: i < |cs| ==> Follows(cs, i) {
      forall i: nat | i < |cs| ensures Chained(cs, i) {
        if i > 0 {
          FollowsCounts(cs, i - 1);
        }
        ChainedIs(cs, i);
      }
    }
  }

  lemma {:induction false} FollowsCounts(cs: seq<Checkpoint>, i: nat)
    requires i < |cs| && Follows(cs, i)
    ensures cs[i].generation == i + 1
  {
    hide M.EmptyRoot, ComputeChain;
  }

  // ---- opening ------------------------------------------------------------

  /** The checkpoint files, in whatever order, are a chain that ends at the generation, if there are any. */
  ghost predicate Chains(files: seq<Checkpoint>, generation: nat) {
    exists cs: seq<Checkpoint> ::
      multiset(cs) == multiset(files) && ChainValid(cs) && (cs != [] ==> |cs| == generation)
  }

  lemma {:induction false} SortedChain(files: seq<Checkpoint>, cs: seq<Checkpoint>)
    requires multiset(cs) == multiset(files) && ChainValid(cs)
    ensures SortedCheckpoints(files) == cs
  {
    hide ChainValid;
    var le := (a: Checkpoint, b: Checkpoint) => GenerationLe(a, b);
    forall i, j | 0 <= i < j < |cs| ensures le(cs[i], cs[j]) {
      Generations(cs, i);
      Generations(cs, j);
    }
    forall x, y | x in cs && y in cs && le(x, y) && le(y, x) ensures x == y {
      var i: nat :| i < |cs| && cs[i] == x;
      var j: nat :| j < |cs| && cs[j] == y;
      Generations(cs, i);
      Generations(cs, j);
    }
    assert Srt.TotalPreorder(le);
    Srt.SortInvariant(le, cs, files);
    Srt.SortOfSorted(le, cs);
  }

  /**
   A directory opens exactly when it has a manifest of this format and schema, the mark is
   its own and not ahead of the manifest, and the checkpoints are a chain up to it.
   */
  lemma {:induction false} OpensIff(d: Disk)
    ensures OpenOf(d).Ok? <==>
            && d.manifest.Some?
            && var m := d.manifest.value;
            && m.formatVersion <= 1 && m.schemaHash == S.SHA256(Utf8.Encode(SCHEMA_VERSION))
            && (d.mark.Some? ==>
                  d.mark.value == MarkOf(d.mark.value.generation) && d.mark.value.generation <= m.highestGeneration)
            && Chains(d.checkpoints, m.highestGeneration)
  {
    hide ChainValid, SortedCheckpoints, Guard, Loaded, S.SHA256, Utf8.Encode, Chains;
    if d.manifest.Some? {
      ChainsIff(d.checkpoints, d.manifest.value.highestGeneration);
    }
  }

  lemma {:induction false} ChainsIff(files: seq<Checkpoint>, generation: nat)
    ensures Chains(files, generation) <==>
            var cs := SortedCheckpoints(files); ChainValid(cs) && (cs != [] ==> LastGeneration(cs) == generation)
  {
    hide ChainValid, LastGeneration;
    var cs := SortedCheckpoints(files);
    Srt.SortPermutes((a: Checkpoint, b: Checkpoint) => GenerationLe(a, b), files);
    if ChainValid(cs) {
      R.ChainLength(cs);
    }
    if Chains(files, generation) {
      var other: seq<Checkpoint> :|
        multiset(other) == multiset(files) && ChainValid(other) && (other != [] ==> |other| == generation);
      SortedChain(files, other);
    }
  }

  // ---- taking an object ---------------------------------------------------

  /** A record is refused exactly when it is derived and names no source; a sound container has no other reason. */
  lemma {:induction false} PutRefusedIff(s: Store, record: O.ObjectRecord)
    requires R.Inv(s)
    ensures PutOf(s, record).result.Err? <==> record.derived && record.sourceObjects == []
    ensures PutOf(s, record).result.Err? ==> PutOf(s, record).store == s && PutOf(s, record).writes == []
  {
    hide K.Find, O.CanonicalBytes, ToHex, ApplyAll, T.Put, R.History, R.Honest, R.PendingFits, R.Addressed, CopyTo;
    var r := Stamped(s, record);
    var id := ToHex(O.ContentHash(r));
    if K.Find(s.objects, id).Some? {
      R.AddressedAt(s.objects, id);
      ToHexInjective(K.Find(s.objects, id).value.hash, O.ContentHash(r));
    }
  }

  /** What is taken is on file under the digest of its text, byte for byte; a second put of it changes nothing. */
  lemma {:induction false} PutFiles(s: Store, record: O.ObjectRecord, k: string)
    requires PutOf(s, record).result.Ok?
    ensures var t, id := PutOf(s, record).store, PutOf(s, record).result.value;
      var r := if record.createdBy == "" then record.(createdBy := s.manifest.agentId) else record;
      && id == ToHex(S.SHA256(O.CanonicalBytes(r)))
      && (T.Has(s.objects, id) ==> t == s)
      && (!T.Has(s.objects, id) ==>
            && K.Find(t.disk.objects, k) == (if k == id then Some(O.CanonicalBytes(r)) else K.Find(s.disk.objects, k))
            && T.Has(t.objects, k) == (k == id || T.Has(s.objects, k))
            && T.Has(t.pending, id) && t.manifest == s.manifest && t.checkpoints == s.checkpoints)
  {
    hide T.Put, K.Find, O.CanonicalBytes, ToHex, ApplyAll, CopyTo;
    var r := Stamped(s, record);
    var id := PutOf(s, record).result.value;
    var meta := Meta(O.ContentHash(r), |O.CanonicalBytes(r)|, s.manifest.highestGeneration + 1, Unsigned);
    R.TwoWrites(s.disk, id, O.CanonicalBytes(r), meta);
    T.PutFind(s.disk.objects, id, O.CanonicalBytes(r), k);
    T.PutFind(s.objects, id, meta, k);
    T.PutFind(s.pending, id, (), id);
  }

  // ---- sealing ------------------------------------------------------------

  /**
   A commit writes nothing exactly when nothing was put since, the tree has the sealed root
   and there is a checkpoint; otherwise it fails exactly for a key that may not sign here.
   */
  lemma {:induction false} CommitIff(s: Store, timestamp: nat, signer: Option<Signer>)
    ensures var done := CommitOf(s, timestamp, signer);
      && (done.writes == [] <==> s.pending == [] && TreeRoot(s.objects) == s.manifest.rootHash && s.checkpoints != [])
      && (done.result.Err? <==> done.writes != [] && signer.Some? && !signer.value.forContext)
      && (done.result.Ok? && done.writes != [] ==>
            var c := done.result.value;
            && done.store.checkpoints == s.checkpoints + [c] && done.store.pending == []
            && c.generation == s.manifest.highestGeneration + 1 && c.merkleRoot == TreeRoot(s.objects)
            && c.objectCount == |s.objects| && c.added == T.Keys(s.pending) && c.timestamp == timestamp
            && done.store.manifest.rootHash == c.merkleRoot && done.store.manifest.highestGeneration == c.generation)
  {
    hide TreeRoot, ApplyAll, PolicyHash, ComputeChain, CommitWrites, SealedRoot, Head, SchemaHash;
    R.NextFields(s, timestamp);
  }
}
