/**
 Every run of the container, crashes included.

 `History` ties the manifest, the chain and the disk together, and `Inv` the objects'
 addresses as well.  The operations keep them, and so does reopening the disk a crash
 left, whenever that disk can be reopened.  It can, except in one window: after a commit's checkpoint is written and
 before its manifest names it.
 */
module StoreRuns {
  import opened Bytes
  import opened Checkpoints
  import opened StoreSpec
  import O = Objects
  import K = Keyed
  import M = Merkle
  import T = Tables
  import Srt = Sorting
  import opened Wrappers

  // ---- the invariant ------------------------------------------------------

  ghost predicate ManifestFits(m: Manifest, cs: seq<Checkpoint>) {
    && ChainValid(cs)
    && m.highestGeneration == |cs|
    && m.rootHash == SealedRoot(cs)
    && m.formatVersion <= FORMAT_VERSION && m.schemaHash == SchemaHash()
  }

  ghost predicate MarkFits(mark: Option<Mark>, highest: nat) {
    mark.Some? ==> mark.value == MarkOf(mark.value.generation) && mark.value.generation <= highest
  }

  /** A checkpoint file the manifest does not name follows the chain. */
  ghost predicate Stranded(d: Disk, cs: seq<Checkpoint>) {
    && |d.checkpoints| == |cs| + 1 && d.checkpoints[..|cs|] == cs
    && d.checkpoints[|cs|].generation == |cs| + 1
  }

  ghost predicate DiskFits(d: Disk, m: Manifest, cs: seq<Checkpoint>) {
    && d.manifest == Some(m) && MarkFits(d.mark, m.highestGeneration)
    && (d.checkpoints == cs || Stranded(d, cs))
  }

  /** Objects are filed under the digest their sidecar records. */
  ghost predicate Addressed(objects: seq<(string, Meta)>) {
    K.StrictlyOrdered(objects) && forall i: nat :: i < |objects| ==> ToHex(objects[i].1.hash) == objects[i].0
  }

  /** So are the files; one without a sidecar is intact. */
  ghost predicate Honest(d: Disk) {
    && K.StrictlyOrdered(d.objects)
    && (forall id: string :: id in d.sidecars ==> ToHex(d.sidecars[id].hash) == id)
    && (forall i: nat :: i < |d.objects| && d.objects[i].0 !in d.sidecars ==> Address(d.objects[i].1) == d.objects[i].0)
  }

  ghost predicate PendingFits(s: Store) {
    K.StrictlyOrdered(s.pending) && forall k :: T.Has(s.pending, k) ==> T.Has(s.objects, k)
  }

  /** The sealed part: the manifest names the chain, and the disk holds both. */
  ghost predicate History(s: Store) {
    ManifestFits(s.manifest, s.checkpoints) && DiskFits(s.disk, s.manifest, s.checkpoints)
  }

  ghost predicate Inv(s: Store) {
    History(s) && Addressed(s.objects) && Honest(s.disk) && PendingFits(s)
  }

  // ---- runs ---------------------------------------------------------------

  /** `Rot` is the disk's doing: an object's file changes or disappears. */
  datatype Op =
    | Put(record: O.ObjectRecord)
    | Restore(id: string, bytes: seq<u8>)
    | Quarantine(id: string, reason: string)
    | Commit(timestamp: nat, signer: Option<Signer>)
    | AddReplica(copy: map<string, seq<u8>>)
    | Rot(id: string, found: Option<seq<u8>>)

  function Rotten(s: Store, id: string, found: Option<seq<u8>>): Store {
    match found
    case Some(bytes) => s.(disk := s.disk.(objects := T.Put(s.disk.objects, id, bytes)))
    case None => s.(disk := s.disk.(objects := T.Without(s.disk.objects, id)))
  }

  function Step(s: Store, op: Op): Store {
    match op
    case Put(record) => PutOf(s, record).store
    case Restore(id, bytes) => RestoreOf(s, id, bytes).store
    case Quarantine(id, reason) => QuarantineOf(s, id, reason).store
    case Commit(timestamp, signer) => CommitOf(s, timestamp, signer).store
    case AddReplica(copy) => s.(replicas := s.replicas + [copy])
    case Rot(id, found) => Rotten(s, id, found)
  }

  function WritesOf(s: Store, op: Op): seq<Write> {
    match op
    case Put(record) => PutOf(s, record).writes
    case Restore(id, bytes) => RestoreOf(s, id, bytes).writes
    case Quarantine(id, reason) => QuarantineOf(s, id, reason).writes
    case Commit(timestamp, signer) => CommitOf(s, timestamp, signer).writes
    case AddReplica(_) => []
    case Rot(_, _) => []
  }

  /** Rot that strikes an object whose sidecar is in place: without one the digest is lost with the bytes. */
  ghost predicate Admissible(s: Store, op: Op) {
    op.Rot? ==> op.id in s.disk.sidecars
  }

  /** The disk when the process dies after `k` writes of an operation. */
  function CrashDisk(s: Store, op: Op, k: nat): Disk
    requires k <= |WritesOf(s, op)|
  {
    ApplyAll(s.disk, WritesOf(s, op)[..k])
  }

  // ---- lists of writes ----------------------------------------------------

  lemma {:induction false} ApplyNone(d: Disk)
    ensures ApplyAll(d, []) == d
  {
  }

  lemma {:induction false} ApplyNext(d: Disk, ws: seq<Write>, w: Write)
    ensures ApplyAll(d, ws + [w]) == Apply(ApplyAll(d, ws), w)
  {
    hide Apply;
    assert (ws + [w])[..|ws + [w]| - 1] == ws;
  }

  lemma {:induction false} ApplyPrefix(d: Disk, ws: seq<Write>, k: nat)
    requires k < |ws|
    ensures ApplyAll(d, ws[..k + 1]) == Apply(ApplyAll(d, ws[..k]), ws[k])
  {
    hide Apply, ApplyAll;
    assert ws[..k + 1] == ws[..k] + [ws[k]];
    ApplyNext(d, ws[..k], ws[k]);
  }

  /** The two writes that put an object on disk. */
  lemma {:induction false} TwoWrites(d: Disk, id: string, bytes: seq<u8>, meta: Meta)
    ensures ApplyAll(d, [WriteObject(id, bytes), WriteSidecar(id, meta)])
            == d.(objects := T.Put(d.objects, id, bytes), sidecars := d.sidecars[id := meta])
  {
    hide T.Put, ApplyAll;
    var ws := [WriteObject(id, bytes), WriteSidecar(id, meta)];
    assert ws[..0] == [] && ws[..2] == ws;
    ApplyNone(d);
    ApplyPrefix(d, ws, 0);
    ApplyPrefix(d, ws, 1);
  }

  /** Object files can come and go without touching manifest, mark or checkpoints. */
  lemma {:induction false} LooseFrame(d: Disk, ws: seq<Write>, k: nat)
    requires k <= |ws| && forall i: nat :: i < |ws| ==> !Structural(ws[i])
    ensures ApplyAll(d, ws[..k]).manifest == d.manifest
    ensures ApplyAll(d, ws[..k]).mark == d.mark
    ensures ApplyAll(d, ws[..k]).checkpoints == d.checkpoints
  {
    hide ApplyAll;
    if k == 0 {
      ApplyNone(d);
      assert ws[..0] == [];
    } else {
      LooseFrame(d, ws, k - 1);
      ApplyPrefix(d, ws, k - 1);
    }
  }

  // ---- honesty of the files -----------------------------------------------

  /** A write that cannot misfile an object. */
  ghost predicate Safe(d: Disk, w: Write) {
    match w
    case WriteObject(id, bytes) => Address(bytes) == id
    case WriteSidecar(id, meta) => ToHex(meta.hash) == id
    case RemoveSidecar(id) => !T.Has(d.objects, id)
    case _ => true
  }

  lemma {:induction false} FilesByLookup(d: Disk)
    requires K.StrictlyOrdered(d.objects)
    requires forall id: string :: id in d.sidecars ==> ToHex(d.sidecars[id].hash) == id
    requires forall id :: T.Has(d.objects, id) && id !in d.sidecars ==> Address(K.Find(d.objects, id).value) == id
    ensures Honest(d)
  {
    hide Address, K.StrictlyOrdered, K.Find, ToHex;
    forall i: nat | i < |d.objects| && d.objects[i].0 !in d.sidecars
      ensures Address(d.objects[i].1) == d.objects[i].0
    {
      OrderedDistinct(d.objects);
      K.FindAt(d.objects, i);
      assert T.Has(d.objects, d.objects[i].0);
    }
  }

  lemma {:induction false} OrderedDistinct<V>(t: seq<(string, V)>)
    requires K.StrictlyOrdered(t)
    ensures forall i, j :: 0 <= i < j < |t| ==> t[i].0 != t[j].0
  {
  }

  lemma {:induction false} FileFound(d: Disk, id: string)
    requires Honest(d) && T.Has(d.objects, id) && id !in d.sidecars
    ensures Address(K.Find(d.objects, id).value) == id
  {
    hide Address, K.StrictlyOrdered, K.Find, ToHex;
    var i := K.FindIndex(d.objects, id);
    assert d.objects[i].0 !in d.sidecars;
  }

  lemma {:induction false} SafeKeepsHonest(d: Disk, w: Write)
    requires Honest(d) && Safe(d, w)
    ensures Honest(Apply(d, w))
  {
    hide Address, K.StrictlyOrdered, K.Find, T.Put, T.Without, ToHex, PutCheckpoint;
    var d' := Apply(d, w);
    match w {
      case WriteObject(id, bytes) => T.PutOrdered(d.objects, id, bytes);
      case MoveToQuarantine(id) => T.WithoutOrdered(d.objects, id);
      case _ =>
    }
    forall k | T.Has(d'.objects, k) && k !in d'.sidecars
      ensures Address(K.Find(d'.objects, k).value) == k
    {
      match w {
        case WriteObject(id, bytes) => T.PutFind(d.objects, id, bytes, k);
        case MoveToQuarantine(id) => T.WithoutFind(d.objects, id, k);
        case _ =>
      }
      if !(w.WriteObject? && w.id == k) {
        FileFound(d, k);
      }
    }
    FilesByLookup(d');
  }

  /** The writes of an operation, each safe when its turn comes. */
  ghost predicate AllSafe(d: Disk, ws: seq<Write>) {
    forall k: nat :: k < |ws| ==> Safe(ApplyAll(d, ws[..k]), ws[k])
  }

  lemma {:induction false} PrefixHonest(d: Disk, ws: seq<Write>, k: nat)
    requires Honest(d) && AllSafe(d, ws) && k <= |ws|
    ensures Honest(ApplyAll(d, ws[..k]))
  {
    hide ApplyAll, Honest, Safe, Apply;
    if k == 0 {
      ApplyNone(d);
      assert ws[..0] == [];
    } else {
      PrefixHonest(d, ws, k - 1);
      ApplyPrefix(d, ws, k - 1);
      SafeKeepsHonest(ApplyAll(d, ws[..k - 1]), ws[k - 1]);
    }
  }

  lemma {:induction false} StoreWritesSafe(d: Disk, id: string, bytes: seq<u8>, meta: Meta)
    requires Address(bytes) == id && ToHex(meta.hash) == id
    ensures AllSafe(d, [WriteObject(id, bytes), WriteSidecar(id, meta)])
  {
    hide Address, ApplyAll, ToHex;
  }

  lemma {:induction false} QuarantineWritesSafe(s: Store, id: string, reason: string)
    ensures AllSafe(s.disk, QuarantineOf(s, id, reason).writes)
  {
    hide Address, ApplyAll, ToHex, K.Find, T.Without, Apply;
    var ws := QuarantineOf(s, id, reason).writes;
    forall k: nat | k < |ws| ensures Safe(ApplyAll(s.disk, ws[..k]), ws[k]) {
      if ws[k].RemoveSidecar? {
        MovedAway(s.disk, ws, k, id);
      }
    }
  }

  lemma {:induction false} MovedAway(d: Disk, ws: seq<Write>, k: nat, id: string)
    requires k < |ws| && k <= 1 && (k == 0 ==> !T.Has(d.objects, id)) && (k == 1 ==> ws[0] == MoveToQuarantine(id))
    ensures !T.Has(ApplyAll(d, ws[..k]).objects, id)
  {
    hide ApplyAll, K.Find, T.Without;
    ApplyNone(d);
    assert ws[..0] == [];
    if k == 1 {
      ApplyPrefix(d, ws, 0);
      T.WithoutFind(d.objects, id, id);
    }
  }

  // ---- opening a disk -----------------------------------------------------

  lemma {:induction false} ChainLength(cs: seq<Checkpoint>)
    requires ChainValid(cs)
    ensures LastGeneration(cs) == |cs|
  {
    hide ChainValid;
    if cs != [] {
      Generations(cs, |cs| - 1);
    }
  }

  lemma {:induction false} AlreadySorted(files: seq<Checkpoint>, cs: seq<Checkpoint>)
    requires ChainValid(cs)
    requires files == cs || (|files| == |cs| + 1 && files[..|cs|] == cs && files[|cs|].generation == |cs| + 1)
    ensures SortedCheckpoints(files) == files
  {
    hide ChainValid;
    var le := (a: Checkpoint, b: Checkpoint) => GenerationLe(a, b);
    forall i, j | 0 <= i < j < |files| ensures le(files[i], files[j]) {
      Generations(cs, i);
      if j < |cs| {
        Generations(cs, j);
        assert files[..|cs|][j] == cs[j];
      }
      assert files[..|cs|][i] == cs[i];
    }
    Srt.SortOfSorted(le, files);
  }

  lemma {:induction false} OpensHistory(d: Disk, m: Manifest, cs: seq<Checkpoint>)
    requires ManifestFits(m, cs)
    requires d.manifest == Some(m) && MarkFits(d.mark, m.highestGeneration) && d.checkpoints == cs
    ensures OpenOf(d) == Ok(Store(d, m, Loaded(d, m.highestGeneration), cs, [], [], m.signingKey.Some?))
    ensures History(OpenOf(d).value)
  {
    hide ChainValid, SealedRoot, SortedCheckpoints, Guard, SchemaHash, Loaded;
    ChainLength(cs);
    AlreadySorted(d.checkpoints, cs);
    assert Refusal(d).None?;
  }

  /** A directory whose manifest names the last checkpoint opens, and the store fits it. */
  lemma {:induction false} Opens(d: Disk, m: Manifest, cs: seq<Checkpoint>)
    requires ManifestFits(m, cs) && Honest(d)
    requires d.manifest == Some(m) && MarkFits(d.mark, m.highestGeneration) && d.checkpoints == cs
    ensures OpenOf(d).Ok? && Inv(OpenOf(d).value)
    ensures OpenOf(d).value.manifest == m && OpenOf(d).value.checkpoints == cs
  {
    hide ManifestFits, MarkFits, OpenOf, History, Loaded, Honest, Addressed;
    OpensHistory(d, m, cs);
    LoadedAddressed(d, m.highestGeneration);
    NothingPending(OpenOf(d).value);
  }

  lemma {:induction false} NothingPending(s: Store)
    requires s.pending == []
    ensures PendingFits(s)
  {
  }

  lemma {:induction false} LoadedAddressed(d: Disk, generation: nat)
    requires Honest(d)
    ensures Addressed(Loaded(d, generation))
  {
    hide ToHex, K.StringLe;
    var r := Loaded(d, generation);
    forall i, j | 0 <= i < j < |r| ensures K.StringLe(r[i].0, r[j].0) && r[i].0 != r[j].0 {
      assert K.StringLe(d.objects[i].0, d.objects[j].0);
    }
  }

  /** A checkpoint beyond the manifest's generation is refused. */
  lemma {:induction false} RefusesStranded(d: Disk, m: Manifest, cs: seq<Checkpoint>)
    requires ManifestFits(m, cs) && d.manifest == Some(m) && MarkFits(d.mark, m.highestGeneration) && Stranded(d, cs)
    ensures OpenOf(d) == Err(ChainBroken)
  {
    hide ChainValid, SealedRoot, SortedCheckpoints, Guard, SchemaHash, Loaded;
    AlreadySorted(d.checkpoints, cs);
  }

  // ---- the objects' part of the invariant ---------------------------------

  lemma {:induction false} AddressedAt(objects: seq<(string, Meta)>, id: string)
    requires Addressed(objects) && T.Has(objects, id)
    ensures ToHex(K.Find(objects, id).value.hash) == id
  {
    hide K.StrictlyOrdered, K.Find, ToHex;
    var i := K.FindIndex(objects, id);
  }

  lemma {:induction false} AddressedByLookup(objects: seq<(string, Meta)>)
    requires K.StrictlyOrdered(objects)
    requires forall id :: T.Has(objects, id) ==> ToHex(K.Find(objects, id).value.hash) == id
    ensures Addressed(objects)
  {
    hide K.StrictlyOrdered, K.Find, ToHex;
    OrderedDistinct(objects);
    forall i: nat | i < |objects| ensures ToHex(objects[i].1.hash) == objects[i].0 {
      K.FindAt(objects, i);
      assert T.Has(objects, objects[i].0);
    }
  }

  lemma {:induction false} AddressedPut(objects: seq<(string, Meta)>, id: string, meta: Meta)
    requires Addressed(objects) && ToHex(meta.hash) == id
    ensures Addressed(T.Put(objects, id, meta))
  {
    hide K.StrictlyOrdered, K.Find, T.Put, ToHex;
    T.PutOrdered(objects, id, meta);
    forall k | T.Has(T.Put(objects, id, meta), k)
      ensures ToHex(K.Find(T.Put(objects, id, meta), k).value.hash) == k
    {
      T.PutFind(objects, id, meta, k);
      if k != id {
        AddressedAt(objects, k);
      }
    }
    AddressedByLookup(T.Put(objects, id, meta));
  }

  lemma {:induction false} AddressedWithout(objects: seq<(string, Meta)>, id: string)
    requires Addressed(objects)
    ensures Addressed(T.Without(objects, id))
  {
    hide K.StrictlyOrdered, K.Find, T.Without, ToHex;
    T.WithoutOrdered(objects, id);
    forall k | T.Has(T.Without(objects, id), k)
      ensures ToHex(K.Find(T.Without(objects, id), k).value.hash) == k
    {
      T.WithoutFind(objects, id, k);
      AddressedAt(objects, k);
    }
    AddressedByLookup(T.Without(objects, id));
  }

  lemma {:induction false} PendingPut(s: Store, s': Store, id: string, meta: Meta)
    requires PendingFits(s) && s'.objects == T.Put(s.objects, id, meta)
    requires s'.pending == s.pending || s'.pending == T.Put(s.pending, id, ())
    ensures PendingFits(s')
  {
    hide K.StrictlyOrdered, K.Find, T.Put;
    T.PutOrdered(s.pending, id, ());
    forall k | T.Has(s'.pending, k) ensures T.Has(s'.objects, k) {
      T.PutFind(s.objects, id, meta, k);
      T.PutFind(s.pending, id, (), k);
      if k != id {
        assert T.Has(s.pending, k);
      }
    }
  }

  lemma {:induction false} PendingWithout(s: Store, s': Store, id: string)
    requires PendingFits(s) && s'.objects == T.Without(s.objects, id) && s'.pending == T.Without(s.pending, id)
    ensures PendingFits(s')
  {
    hide K.StrictlyOrdered, K.Find, T.Without;
    T.WithoutOrdered(s.pending, id);
    forall k | T.Has(s'.pending, k) ensures T.Has(s'.objects, k) {
      T.WithoutFind(s.objects, id, k);
      T.WithoutFind(s.pending, id, k);
      assert T.Has(s.pending, k);
    }
  }

  // ---- operations on objects ----------------------------------------------

  /** Operations that write object files leave the sealed history alone. */
  ghost predicate Loose(s: Store, op: Op) {
    && (forall i: nat :: i < |WritesOf(s, op)| ==> !Structural(WritesOf(s, op)[i]))
    && AllSafe(s.disk, WritesOf(s, op))
    && Step(s, op).manifest == s.manifest && Step(s, op).checkpoints == s.checkpoints
    && (!op.Rot? ==> Step(s, op).disk == ApplyAll(s.disk, WritesOf(s, op)))
  }

  lemma {:induction false} LooseWrites(s: Store, op: Op)
    requires !op.Commit?
    ensures Loose(s, op)
  {
    hide Loose;
    match op
    case Put(record) => LoosePut(s, record);
    case Restore(id, bytes) => LooseRestore(s, id, bytes);
    case Quarantine(id, reason) => LooseQuarantine(s, id, reason);
    case _ => LooseOther(s, op);
  }

  /** `put` either writes nothing or files the bytes under their address. */
  lemma {:induction false} PutCases(s: Store, record: O.ObjectRecord) returns (id: string, bytes: seq<u8>, meta: Meta)
    ensures Address(bytes) == id && ToHex(meta.hash) == id
    ensures var o := PutOf(s, record);
            || (o.store == s && o.writes == [])
            || (&& o.writes == [WriteObject(id, bytes), WriteSidecar(id, meta)]
                && o.store == s.(disk := ApplyAll(s.disk, o.writes), objects := T.Put(s.objects, id, meta),
                                 pending := T.Put(s.pending, id, ()), replicas := CopyTo(s.replicas, id, bytes)))
  {
    hide ApplyAll, T.Put, K.Find, CopyTo, ToHex, O.CanonicalBytes, Stamped;
    var r := Stamped(s, record);
    bytes, id := O.CanonicalBytes(r), O.ObjectId(r);
    meta := Meta(O.ContentHash(r), |bytes|, s.manifest.highestGeneration + 1, Unsigned);
  }

  lemma {:induction false} LoosePut(s: Store, record: O.ObjectRecord)
    ensures Loose(s, Put(record))
  {
    hide CommitOf, RestoreOf, QuarantineOf, Rotten;
    hide ApplyAll, AllSafe, ToHex, T.Put, PutOf, CopyTo, Address;
    var id, bytes, meta := PutCases(s, record);
    StoreWritesSafe(s.disk, id, bytes, meta);
    ApplyNone(s.disk);
    NothingSafe(s.disk);
  }

  lemma {:induction false} NothingSafe(d: Disk)
    ensures AllSafe(d, [])
  {
  }

  lemma {:induction false} LooseRestore(s: Store, id: string, bytes: seq<u8>)
    ensures Loose(s, Restore(id, bytes))
  {
    hide CommitOf, PutOf, QuarantineOf, Rotten;
    hide ApplyAll, Safe, ToHex, T.Put, K.Find;
    if Address(bytes) == id {
      StoreWritesSafe(s.disk, id, bytes, RestoredMeta(s, id, bytes));
    }
    ApplyNone(s.disk);
  }

  lemma {:induction false} LooseQuarantine(s: Store, id: string, reason: string)
    ensures Loose(s, Quarantine(id, reason))
  {
    hide CommitOf, PutOf, RestoreOf, Rotten;
    hide ApplyAll, AllSafe, T.Without, K.Find;
    QuarantineWritesSafe(s, id, reason);
  }

  lemma {:induction false} LooseOther(s: Store, op: Op)
    requires op.AddReplica? || op.Rot?
    ensures Loose(s, op)
  {
    hide CommitOf, PutOf, RestoreOf, QuarantineOf;
    hide AllSafe, T.Put, T.Without, ApplyAll;
    ApplyNone(s.disk);
    NothingSafe(s.disk);
  }

  function RestoredMeta(s: Store, id: string, bytes: seq<u8>): Meta {
    var generation := match K.Find(s.objects, id)
      case Some(existing) => existing.generation
      case None => s.manifest.highestGeneration;
    Meta(StoreSpec.S.SHA256(bytes), |bytes|, generation, Verified)
  }

  /** What an object operation does to the objects in memory. */
  lemma {:induction false} ObjectsFit(s: Store, op: Op)
    requires Inv(s) && !op.Commit?
    ensures Addressed(Step(s, op).objects) && PendingFits(Step(s, op))
  {
    hide T.Put, T.Without, Addressed, PendingFits, ManifestFits, DiskFits, Honest;
    hide CommitOf, PutOf, RestoreOf, QuarantineOf;
    match op
    case Put(record) => PutFits(s, record);
    case Restore(id, bytes) => RestoreFits(s, id, bytes);
    case Quarantine(id, reason) => QuarantineFits(s, id, reason);
    case _ => SamePending(s, Step(s, op));
  }

  lemma {:induction false} PutFits(s: Store, record: O.ObjectRecord)
    requires Addressed(s.objects) && PendingFits(s)
    ensures Addressed(PutOf(s, record).store.objects) && PendingFits(PutOf(s, record).store)
  {
    hide ApplyAll, ToHex, PutOf, T.Put, CopyTo, Addressed, PendingFits, Address;
    var id, bytes, meta := PutCases(s, record);
    var s' := PutOf(s, record).store;
    AddressedPut(s.objects, id, meta);
    if s' != s {
      PendingPut(s, s', id, meta);
    }
  }

  lemma {:induction false} RestoreFits(s: Store, id: string, bytes: seq<u8>)
    requires Addressed(s.objects) && PendingFits(s)
    ensures Addressed(RestoreOf(s, id, bytes).store.objects) && PendingFits(RestoreOf(s, id, bytes).store)
  {
    hide ApplyAll, ToHex, T.Put, Addressed, PendingFits, K.Find;
    if Address(bytes) == id {
      AddressedPut(s.objects, id, RestoredMeta(s, id, bytes));
      PendingPut(s, RestoreOf(s, id, bytes).store, id, RestoredMeta(s, id, bytes));
    }
  }

  lemma {:induction false} QuarantineFits(s: Store, id: string, reason: string)
    requires Addressed(s.objects) && PendingFits(s)
    ensures Addressed(QuarantineOf(s, id, reason).store.objects) && PendingFits(QuarantineOf(s, id, reason).store)
  {
    hide ApplyAll, T.Without, Addressed, PendingFits, K.Find;
    AddressedWithout(s.objects, id);
    PendingWithout(s, QuarantineOf(s, id, reason).store, id);
  }

  lemma {:induction false} SamePending(s: Store, s': Store)
    requires PendingFits(s) && s'.pending == s.pending && s'.objects == s.objects
    ensures PendingFits(s')
  {
  }

  lemma {:induction false} RotHonest(s: Store, id: string, found: Option<seq<u8>>)
    requires Honest(s.disk) && id in s.disk.sidecars
    ensures Honest(Rotten(s, id, found).disk)
  {
    hide Address, K.StrictlyOrdered, K.Find, T.Put, T.Without, ToHex;
    var d, d' := s.disk, Rotten(s, id, found).disk;
    if found.Some? {
      T.PutOrdered(d.objects, id, found.value);
    } else {
      T.WithoutOrdered(d.objects, id);
    }
    forall k | T.Has(d'.objects, k) && k !in d'.sidecars
      ensures Address(K.Find(d'.objects, k).value) == k
    {
      if found.Some? {
        T.PutFind(d.objects, id, found.value, k);
      } else {
        T.WithoutFind(d.objects, id, k);
      }
      FileFound(d, k);
    }
    FilesByLookup(d');
  }

  lemma {:induction false} FrameFits(d: Disk, d': Disk, m: Manifest, cs: seq<Checkpoint>)
    requires DiskFits(d, m, cs) && d'.manifest == d.manifest && d'.mark == d.mark && d'.checkpoints == d.checkpoints
    ensures DiskFits(d', m, cs) && (Stranded(d', cs) <==> Stranded(d, cs))
  {
    hide MarkFits;
  }

  lemma {:induction false} ObjectOpKeepsInv(s: Store, op: Op)
    requires Inv(s) && Admissible(s, op) && !op.Commit?
    ensures Inv(Step(s, op))
  {
    hide ManifestFits, DiskFits, Honest, Addressed, PendingFits, ApplyAll, WritesOf, Step, Safe;
    LooseWrites(s, op);
    ObjectsFit(s, op);
    var ws := WritesOf(s, op);
    assert ws[..|ws|] == ws;
    if op.Rot? {
      RotHonest(s, op.id, op.found);
      RotStep(s, op);
    } else {
      PrefixHonest(s.disk, ws, |ws|);
      LooseFrame(s.disk, ws, |ws|);
    }
    FrameFits(s.disk, Step(s, op).disk, s.manifest, s.checkpoints);
  }

  lemma {:induction false} RotStep(s: Store, op: Op)
    requires op.Rot?
    ensures Step(s, op) == Rotten(s, op.id, op.found)
    ensures Step(s, op).disk.manifest == s.disk.manifest && Step(s, op).disk.mark == s.disk.mark
    ensures Step(s, op).disk.checkpoints == s.disk.checkpoints
  {
    hide CommitOf, PutOf, RestoreOf, QuarantineOf;
    hide T.Put, T.Without;
  }

  // ---- commit -------------------------------------------------------------

  /** The new checkpoint chains to the last one. */
  lemma {:induction false} NextChains(s: Store, timestamp: nat)
    requires ManifestFits(s.manifest, s.checkpoints)
    ensures Objection(s.checkpoints, NextCheckpoint(s, timestamp)).None?
    ensures NextCheckpoint(s, timestamp).generation == |s.checkpoints| + 1
    ensures NextCheckpoint(s, timestamp).merkleRoot == TreeRoot(s.objects)
    ensures ChainValid(s.checkpoints + [NextCheckpoint(s, timestamp)])
  {
    hide ChainValid, SealedRoot, Head, TreeRoot, NextCheckpoint, SchemaHash, LastGeneration, ComputeChain;
    ChainLength(s.checkpoints);
    NextFields(s, timestamp);
    SealKeepsDigest(s, timestamp);
    ChainExtends(s.checkpoints, NextCheckpoint(s, timestamp));
  }

  lemma {:induction false} NextFields(s: Store, timestamp: nat)
    ensures var c := NextCheckpoint(s, timestamp);
            && c.generation == s.manifest.highestGeneration + 1 && c.merkleRoot == TreeRoot(s.objects)
            && c.parentRoot == SealedRoot(s.checkpoints) && c.parentChain == Head(s.checkpoints)
  {
    hide TreeRoot, SealedRoot, Head, PolicyHash, SchemaHash, T.Keys, ComputeChain, ZeroDigest;
  }

  /** The digest does not cover itself. */
  lemma {:induction false} SealKeepsDigest(s: Store, timestamp: nat)
    ensures NextCheckpoint(s, timestamp).chain == ComputeChain(NextCheckpoint(s, timestamp))
  {
    hide TreeRoot, SealedRoot, Head, PolicyHash, SchemaHash, T.Keys, Counter, Strings, ToHex;
  }

  lemma {:induction false} PutCheckpointAppends(files: seq<Checkpoint>, c: Checkpoint)
    requires forall i: nat :: i < |files| ==> files[i].generation != c.generation
    ensures PutCheckpoint(files, c) == files + [c]
  {
    if files != [] {
      PutCheckpointAppends(files[1..], c);
    }
  }

  lemma {:induction false} PutCheckpointReplaces(files: seq<Checkpoint>, c: Checkpoint)
    requires files != [] && files[|files| - 1].generation == c.generation
    requires forall i: nat :: i < |files| - 1 ==> files[i].generation != c.generation
    ensures PutCheckpoint(files, c) == files[..|files| - 1] + [c]
  {
    if |files| > 1 {
      PutCheckpointReplaces(files[1..], c);
    }
  }

  /** Writing the next checkpoint file, over a stranded one if there is one. */
  lemma {:induction false} CheckpointWritten(d: Disk, m: Manifest, cs: seq<Checkpoint>, c: Checkpoint)
    requires ManifestFits(m, cs) && DiskFits(d, m, cs) && c.generation == |cs| + 1
    ensures Apply(d, WriteCheckpoint(c)) == d.(checkpoints := cs + [c])
    ensures Stranded(Apply(d, WriteCheckpoint(c)), cs)
  {
    hide ChainValid, SealedRoot, SchemaHash, MarkFits;
    forall i: nat | i < |cs| ensures cs[i].generation != c.generation {
      Generations(cs, i);
    }
    if d.checkpoints == cs {
      PutCheckpointAppends(cs, c);
    } else {
      forall i: nat | i < |cs| ensures d.checkpoints[i].generation != c.generation {
        assert d.checkpoints[..|cs|][i] == cs[i];
      }
      PutCheckpointReplaces(d.checkpoints, c);
    }
    assert (cs + [c])[..|cs|] == cs;
  }

  lemma {:induction false} NextManifestFits(s: Store, timestamp: nat, signer: Option<Signer>)
    requires ManifestFits(s.manifest, s.checkpoints)
    ensures ManifestFits(NextManifest(s, signer), s.checkpoints + [NextCheckpoint(s, timestamp)])
  {
    hide ChainValid, TreeRoot, NextCheckpoint, SchemaHash, PolicyHash;
    NextChains(s, timestamp);
  }

  /** What a commit has written `k` writes into it, its manifest still to come. */
  function WindowWrites(s: Store, timestamp: nat, k: nat): seq<Write> {
    [WriteCheckpoint(NextCheckpoint(s, timestamp))]
    + if k == 1 then [] else [WriteSignature(s.manifest.highestGeneration + 1)]
  }

  /** The disk `k` writes into a commit. */
  function CommittedDisk(s: Store, timestamp: nat, signer: Option<Signer>, k: nat): Disk
    requires k <= ManifestAt(signer) + 2
  {
    hide NextCheckpoint, NextManifest, MarkOf, ApplyAll;
    ApplyAll(s.disk, CommitWrites(s, timestamp, signer)[..k])
  }

  /** A commit's checkpoint is in place, and past `ManifestAt` writes its manifest, and then its mark. */
  ghost predicate Committing(s: Store, timestamp: nat, signer: Option<Signer>, k: nat, d: Disk) {
    hide NextCheckpoint, NextManifest, MarkOf;
    && d.objects == s.disk.objects && d.sidecars == s.disk.sidecars
    && d.checkpoints == s.checkpoints + [NextCheckpoint(s, timestamp)]
    && d.manifest == Some(if k <= ManifestAt(signer) then s.manifest else NextManifest(s, signer))
    && d.mark == (if k <= ManifestAt(signer) + 1 then s.disk.mark else Some(MarkOf(|s.checkpoints| + 1)))
  }

  lemma {:induction false} CommitFirst(s: Store, timestamp: nat, signer: Option<Signer>)
    requires History(s)
    ensures Committing(s, timestamp, signer, 1, Apply(s.disk, WriteCheckpoint(NextCheckpoint(s, timestamp))))
  {
    hide NextManifest, NextCheckpoint, Honest, Addressed, PendingFits, ManifestFits, DiskFits, PutCheckpoint, MarkOf;
    NextGeneration(s, timestamp);
    CheckpointWritten(s.disk, s.manifest, s.checkpoints, NextCheckpoint(s, timestamp));
    DiskManifest(s.disk, s.manifest, s.checkpoints);
  }

  lemma {:induction false} CommitNext(s: Store, timestamp: nat, signer: Option<Signer>, k: nat, d: Disk)
    requires 1 <= k <= ManifestAt(signer) + 1 && Committing(s, timestamp, signer, k, d)
    requires s.manifest.highestGeneration == |s.checkpoints|
    ensures Committing(s, timestamp, signer, k + 1, Apply(d, CommitWrites(s, timestamp, signer)[k]))
  {
    hide NextManifest, NextCheckpoint, MarkOf, PutCheckpoint;
  }

  /** The disk after each write of a commit. */
  lemma {:induction false} CommitDisk(s: Store, timestamp: nat, signer: Option<Signer>, k: nat) returns (d: Disk)
    requires History(s) && 1 <= k <= ManifestAt(signer) + 2
    ensures d == CommittedDisk(s, timestamp, signer, k)
    ensures Committing(s, timestamp, signer, k, d)
  {
    hide ApplyAll, Apply, NextManifest, NextCheckpoint, History, Committing, MarkOf;
    var ws := CommitWrites(s, timestamp, signer);
    d := ApplyAll(s.disk, ws[..k]);
    ApplyPrefix(s.disk, ws, k - 1);
    if k == 1 {
      assert ws[0] == WriteCheckpoint(NextCheckpoint(s, timestamp)) && ws[..0] == [];
      ApplyNone(s.disk);
      CommitFirst(s, timestamp, signer);
    } else {
      var before := CommitDisk(s, timestamp, signer, k - 1);
      HistoryGives(s);
      CommitNext(s, timestamp, signer, k - 1, before);
    }
  }

  lemma {:induction false} HighestIs(s: Store)
    requires ManifestFits(s.manifest, s.checkpoints)
    ensures s.manifest.highestGeneration == |s.checkpoints|
  {
  }

  lemma {:induction false} NextGeneration(s: Store, timestamp: nat)
    requires ManifestFits(s.manifest, s.checkpoints)
    ensures NextCheckpoint(s, timestamp).generation == |s.checkpoints| + 1
  {
    hide ManifestFits, NextCheckpoint;
    NextChains(s, timestamp);
  }

  lemma {:induction false} DiskManifest(d: Disk, m: Manifest, cs: seq<Checkpoint>)
    requires DiskFits(d, m, cs)
    ensures d.manifest == Some(m) && MarkFits(d.mark, m.highestGeneration)
  {
  }

  /** A commit interrupted before its manifest leaves a checkpoint the manifest does not name. */
  lemma {:induction false} CommitWindow(s: Store, timestamp: nat, signer: Option<Signer>, k: nat) returns (d: Disk)
    requires History(s) && 1 <= k <= ManifestAt(signer)
    ensures d == ApplyAll(s.disk, WindowWrites(s, timestamp, k))
    ensures d.objects == s.disk.objects && d.sidecars == s.disk.sidecars
    ensures DiskFits(d, s.manifest, s.checkpoints) && Stranded(d, s.checkpoints) && OpenOf(d) == Err(ChainBroken)
  {
    hide ApplyAll, NextManifest, PolicyHash, NextCheckpoint, Honest, Addressed, PendingFits, ManifestFits, MarkFits;
    hide OpenOf, MarkOf;
    d := CommitDisk(s, timestamp, signer, k);
    assert CommitWrites(s, timestamp, signer)[..k] == WindowWrites(s, timestamp, k);
    NextGeneration(s, timestamp);
    DiskManifest(s.disk, s.manifest, s.checkpoints);
    assert d.checkpoints[..|s.checkpoints|] == s.checkpoints;
    RefusesStranded(d, s.manifest, s.checkpoints);
  }

  lemma {:induction false} SameFiles(d: Disk, d': Disk)
    requires Honest(d) && d'.objects == d.objects && d'.sidecars == d.sidecars
    ensures Honest(d')
  {
    hide ToHex, Address;
  }

  lemma {:induction false} MarkGrows(mark: Option<Mark>, highest: nat)
    requires MarkFits(mark, highest)
    ensures MarkFits(mark, highest + 1)
  {
    hide Guard;
  }

  lemma {:induction false} MarkOfFits(generation: nat)
    ensures MarkFits(Some(MarkOf(generation)), generation)
  {
    hide Guard;
  }

  /** From the manifest on, the new generation is the one that opens. */
  lemma {:induction false} CommitSeals(s: Store, timestamp: nat, signer: Option<Signer>, k: nat)
    returns (d: Disk, cs: seq<Checkpoint>)
    requires History(s) && ManifestAt(signer) < k <= ManifestAt(signer) + 2
    ensures d == CommittedDisk(s, timestamp, signer, k)
    ensures cs == s.checkpoints + [NextCheckpoint(s, timestamp)]
    ensures d.objects == s.disk.objects && d.sidecars == s.disk.sidecars && d.checkpoints == cs
    ensures ManifestFits(NextManifest(s, signer), cs) && DiskFits(d, NextManifest(s, signer), cs)
    ensures d.manifest == Some(NextManifest(s, signer)) && MarkFits(d.mark, NextManifest(s, signer).highestGeneration)
    ensures OpenOf(d).Ok? && History(OpenOf(d).value)
    ensures OpenOf(d).value.manifest == NextManifest(s, signer) && OpenOf(d).value.checkpoints == cs
  {
    hide ApplyAll, NextCheckpoint, ManifestFits, MarkFits, PolicyHash, TreeRoot;
    hide OpenOf, MarkOf;
    d := CommitDisk(s, timestamp, signer, k);
    cs := s.checkpoints + [NextCheckpoint(s, timestamp)];
    HighestIs(s);
    DiskManifest(s.disk, s.manifest, s.checkpoints);
    MarkGrows(s.disk.mark, s.manifest.highestGeneration);
    MarkOfFits(|s.checkpoints| + 1);
    NextManifestFits(s, timestamp, signer);
    OpensHistory(d, NextManifest(s, signer), cs);
  }

  /** Nor do the object files suffer. */
  lemma {:induction false} CommitSealed(s: Store, timestamp: nat, signer: Option<Signer>, k: nat)
    returns (d: Disk, cs: seq<Checkpoint>)
    requires Inv(s) && ManifestAt(signer) < k <= ManifestAt(signer) + 2
    ensures d == CommittedDisk(s, timestamp, signer, k)
    ensures cs == s.checkpoints + [NextCheckpoint(s, timestamp)]
    ensures Honest(d) && d.checkpoints == cs && DiskFits(d, NextManifest(s, signer), cs)
    ensures OpenOf(d).Ok? && Inv(OpenOf(d).value)
    ensures OpenOf(d).value.manifest == NextManifest(s, signer) && OpenOf(d).value.checkpoints == cs
  {
    hide History, NextCheckpoint, NextManifest, CommittedDisk, Honest, Addressed, PendingFits, ManifestFits, DiskFits,
      MarkFits, OpenOf;
    d, cs := CommitSeals(s, timestamp, signer, k);
    SameFiles(s.disk, d);
    Opens(d, NextManifest(s, signer), cs);
  }

  lemma {:induction false} CommitKeepsInv(s: Store, timestamp: nat, signer: Option<Signer>)
    requires Inv(s)
    ensures Inv(CommitOf(s, timestamp, signer).store)
  {
    hide PutOf, RestoreOf, QuarantineOf, Rotten, TreeRoot, PolicyHash;
    hide ApplyAll, NextCheckpoint, Honest, Addressed, PendingFits, ManifestFits, DiskFits, NextManifest, OpenOf, Idle;
    var writes := CommitWrites(s, timestamp, signer);
    var s' := CommitOf(s, timestamp, signer).store;
    assert writes[..|writes|] == writes;
    if Idle(s) {
    } else if signer.Some? && !signer.value.forContext {
      var d := CommitWindow(s, timestamp, signer, 1);
      assert WindowWrites(s, timestamp, 1) == [WriteCheckpoint(NextCheckpoint(s, timestamp))];
      SameFiles(s.disk, s'.disk);
      SamePending(s, s');
    } else {
      var d, cs := CommitSealed(s, timestamp, signer, |writes|);
      NextManifestFits(s, timestamp, signer);
      NothingPending(s');
    }
  }

  // ---- the theorems -------------------------------------------------------

  lemma {:induction false} CreateFits(agent: string)
    ensures Inv(CreateOf(agent))
  {
    hide SchemaHash, PolicyHash, Guard, M.EmptyRoot;
    var s := CreateOf(agent);
    assert ChainValid(s.checkpoints);
    assert Honest(s.disk) && Addressed(s.objects);
    NothingPending(s);
  }

  /** Every operation keeps the invariant. */
  lemma {:induction false} StepKeepsInv(s: Store, op: Op)
    requires Inv(s) && Admissible(s, op)
    ensures Inv(Step(s, op))
  {
    hide Inv, CommitOf;
    if op.Commit? {
      CommitKeepsInv(s, op.timestamp, op.signer);
      CommitStep(s, op);
    } else {
      ObjectOpKeepsInv(s, op);
    }
  }

  lemma {:induction false} CommitStep(s: Store, op: Op)
    requires op.Commit?
    ensures Step(s, op) == CommitOf(s, op.timestamp, op.signer).store
    ensures WritesOf(s, op) == CommitOf(s, op.timestamp, op.signer).writes
  {
    hide CommitOf;
  }

  /** The commits that seal a generation, and the one that refuses half-way. */
  ghost predicate Seals(s: Store, op: Op) {
    op.Commit? && !Idle(s) && !(op.signer.Some? && !op.signer.value.forContext)
  }

  ghost predicate Strands(s: Store, op: Op) {
    op.Commit? && !Idle(s) && op.signer.Some? && !op.signer.value.forContext
  }

  /** The crash points at which the disk holds a checkpoint its manifest does not name. */
  ghost predicate InWindow(s: Store, op: Op, k: nat) {
    || (Seals(s, op) && 1 <= k <= ManifestAt(op.signer))
    || (Strands(s, op) && k == 1)
  }

  /** The store reopened after a crash: at the old history, or at the one the commit sealed. */
  ghost predicate Recovered(s: Store, op: Op, t: Store) {
    && Inv(t)
    && (t.checkpoints == s.checkpoints || (Seals(s, op) && t.checkpoints == Step(s, op).checkpoints))
    && t.manifest.highestGeneration >= s.manifest.highestGeneration
  }

  /** What a crash after `k` writes of an operation leaves to be opened. */
  ghost function Reopened(s: Store, op: Op, k: nat): Result<Store, OpenError>
    requires k <= |WritesOf(s, op)|
  {
    OpenOf(CrashDisk(s, op, k))
  }

  /**
   A crash after any number of an operation's writes leaves a disk that opens exactly
   outside the window, at the old or the new generation and never below it.
   */
  lemma {:induction false} CrashReopens(s: Store, op: Op, k: nat)
    requires Inv(s) && s.disk.checkpoints == s.checkpoints && k <= |WritesOf(s, op)|
    ensures Reopened(s, op, k).Ok? <==> !InWindow(s, op, k)
    ensures Reopened(s, op, k).Ok? ==> Recovered(s, op, Reopened(s, op, k).value)
  {
    hide *;
    if op.Commit? {
      CrashInCommit(s, op, k);
    } else {
      CrashInObjectOp(s, op, k);
    }
  }

  lemma {:induction false} CrashInObjectOp(s: Store, op: Op, k: nat)
    requires Inv(s) && s.disk.checkpoints == s.checkpoints && k <= |WritesOf(s, op)| && !op.Commit?
    ensures Reopened(s, op, k).Ok? && !InWindow(s, op, k) && Recovered(s, op, Reopened(s, op, k).value)
  {
    hide ApplyAll, OpenOf, WritesOf, AllSafe, Honest, ManifestFits, MarkFits, Addressed, PendingFits, Step, Idle;
    LooseWrites(s, op);
    PrefixHonest(s.disk, WritesOf(s, op), k);
    LooseFrame(s.disk, WritesOf(s, op), k);
    DiskManifest(s.disk, s.manifest, s.checkpoints);
    Opens(CrashDisk(s, op, k), s.manifest, s.checkpoints);
  }

  lemma {:induction false} CrashInCommit(s: Store, op: Op, k: nat)
    requires Inv(s) && s.disk.checkpoints == s.checkpoints && k <= |WritesOf(s, op)| && op.Commit?
    ensures Reopened(s, op, k).Ok? <==> !InWindow(s, op, k)
    ensures Reopened(s, op, k).Ok? ==> Recovered(s, op, Reopened(s, op, k).value)
  {
    hide ApplyAll, OpenOf, Inv, WritesOf, Idle, Strands, Step, CommitOf, CommitWrites, NextCheckpoint, Recovered;
    hide InWindow;
    if k == 0 {
      CrashAtStart(s, op);
    } else if Seals(s, op) && k > ManifestAt(op.signer) {
      CrashAfterManifest(s, op, k);
    } else {
      var ws := UnsealedWrites(s, op, k);
      InvHasHistory(s);
      var d := CommitWindow(s, op.timestamp, op.signer, k);
      UnsealedInWindow(s, op, k);
    }
  }

  lemma {:induction false} UnsealedInWindow(s: Store, op: Op, k: nat)
    requires op.Commit? && 1 <= k <= |WritesOf(s, op)| && !(Seals(s, op) && k > ManifestAt(op.signer))
    ensures InWindow(s, op, k)
  {
    hide PutOf, RestoreOf, QuarantineOf, Rotten;
    hide ApplyAll, Idle, NextCheckpoint, NextManifest;
  }

  lemma {:induction false} CrashAtStart(s: Store, op: Op)
    requires Inv(s) && s.disk.checkpoints == s.checkpoints
    ensures Reopened(s, op, 0).Ok? && !InWindow(s, op, 0) && Recovered(s, op, Reopened(s, op, 0).value)
  {
    hide PutOf, RestoreOf, QuarantineOf, Rotten, CommitOf;
    hide ApplyAll, OpenOf, Honest, ManifestFits, MarkFits, Addressed, PendingFits, WritesOf, Step, Idle;
    ApplyNone(s.disk);
    assert WritesOf(s, op)[..0] == [];
    DiskManifest(s.disk, s.manifest, s.checkpoints);
    Opens(s.disk, s.manifest, s.checkpoints);
  }

  lemma {:induction false} CrashAfterManifest(s: Store, op: Op, k: nat)
    requires Inv(s) && Seals(s, op) && ManifestAt(op.signer) < k <= |WritesOf(s, op)|
    ensures Reopened(s, op, k).Ok? && !InWindow(s, op, k) && Recovered(s, op, Reopened(s, op, k).value)
  {
    hide PutOf, RestoreOf, QuarantineOf, Rotten;
    hide ApplyAll, OpenOf, Inv, Idle, NextCheckpoint, NextManifest;
    CommitStep(s, op);
    assert WritesOf(s, op) == CommitWrites(s, op.timestamp, op.signer);
    var d, cs := CommitSealed(s, op.timestamp, op.signer, k);
    NextHighest(s, op.signer);
  }

  lemma {:induction false} NextHighest(s: Store, signer: Option<Signer>)
    ensures NextManifest(s, signer).highestGeneration == s.manifest.highestGeneration + 1
  {
    hide PolicyHash, TreeRoot;
  }

  /** A stranded checkpoint keeps the directory closed until a commit gets past its manifest. */
  lemma {:induction false} StrandedStaysClosed(s: Store)
    requires Inv(s)
    ensures OpenOf(s.disk).Ok? <==> s.disk.checkpoints == s.checkpoints
  {
    hide OpenOf, Honest, ManifestFits, MarkFits, Addressed, PendingFits;
    DiskManifest(s.disk, s.manifest, s.checkpoints);
    if s.disk.checkpoints == s.checkpoints {
      Opens(s.disk, s.manifest, s.checkpoints);
    } else {
      RefusesStranded(s.disk, s.manifest, s.checkpoints);
    }
  }

  /** A key of the wrong role is refused only after its checkpoint is on disk: the directory no longer opens. */
  lemma {:induction false} WrongRoleStrands(s: Store, timestamp: nat, signer: Signer)
    requires Inv(s) && !Idle(s) && !signer.forContext
    ensures CommitOf(s, timestamp, Some(signer)).result == Err(WrongKeyRole(signer.key))
    ensures OpenOf(CommitOf(s, timestamp, Some(signer)).store.disk) == Err(ChainBroken)
  {
    hide ApplyAll, OpenOf, Inv, Idle, NextCheckpoint, NextManifest;
    InvHasHistory(s);
    var d := CommitWindow(s, timestamp, Some(signer), 1);
    assert WindowWrites(s, timestamp, 1) == [WriteCheckpoint(NextCheckpoint(s, timestamp))];
  }

  /**
   A crash, on a stranded disk too: the directory opens outside the window, and once a
   checkpoint is stranded only if the commit seals and has reached its manifest.
   */
  lemma {:induction false} CrashReopensIff(s: Store, op: Op, k: nat)
    requires Inv(s) && k <= |WritesOf(s, op)|
    ensures Reopened(s, op, k).Ok? <==>
            if s.disk.checkpoints == s.checkpoints then !InWindow(s, op, k)
            else Seals(s, op) && k > ManifestAt(op.signer)
  {
    hide ApplyAll, Inv, OpenOf, WritesOf, Idle, InWindow, Step;
    if s.disk.checkpoints == s.checkpoints {
      CrashReopens(s, op, k);
    } else if Seals(s, op) && k > ManifestAt(op.signer) {
      StrandedSealed(s, op, k);
    } else {
      StrandedCrash(s, op, k);
    }
  }

  lemma {:induction false} StrandedSealed(s: Store, op: Op, k: nat)
    requires Inv(s) && Seals(s, op) && ManifestAt(op.signer) < k <= |WritesOf(s, op)|
    ensures Reopened(s, op, k).Ok?
  {
    hide PutOf, RestoreOf, QuarantineOf, Rotten;
    hide ApplyAll, OpenOf, Inv, Idle, NextCheckpoint, NextManifest, Step;
    CommitStep(s, op);
    assert WritesOf(s, op) == CommitWrites(s, op.timestamp, op.signer);
    var d, cs := CommitSealed(s, op.timestamp, op.signer, k);
  }

  // ---- whole histories ----------------------------------------------------

  /** The process either finishes an operation, or dies in it and the directory is reopened. */
  datatype Event = Does(op: Op) | Dies(op: Op, after: nat)

  ghost predicate Possible(s: Store, e: Event) {
    e.Dies? ==> e.after <= |WritesOf(s, e.op)| && Reopened(s, e.op, e.after).Ok?
  }

  ghost function After(s: Store, e: Event): Store
    requires Possible(s, e)
  {
    if e.Does? then Step(s, e.op) else Reopened(s, e.op, e.after).value
  }

  /** `states` is what the events lead through. */
  ghost predicate IsRun(states: seq<Store>, events: seq<Event>) {
    && |states| == |events| + 1
    && forall i: nat :: i < |events| ==> Possible(states[i], events[i]) && states[i + 1] == After(states[i], events[i])
  }

  lemma {:induction false} CommitGrows(s: Store, timestamp: nat, signer: Option<Signer>)
    requires ManifestFits(s.manifest, s.checkpoints)
    ensures s.checkpoints <= CommitOf(s, timestamp, signer).store.checkpoints
  {
    hide ApplyAll, NextCheckpoint, NextManifest, ManifestFits, Idle;
  }

  lemma {:induction false} StepGrows(s: Store, op: Op)
    requires History(s)
    ensures s.checkpoints <= Step(s, op).checkpoints
  {
    hide ApplyAll, CommitOf, ManifestFits, DiskFits, Honest, Addressed, PendingFits, WritesOf, Safe;
    if op.Commit? {
      CommitGrows(s, op.timestamp, op.signer);
    } else {
      LooseWrites(s, op);
    }
  }

  /** Every operation keeps the sealed history, whatever has become of the object files. */
  lemma {:induction false} StepKeepsHistory(s: Store, op: Op)
    requires History(s)
    ensures History(Step(s, op))
  {
    hide ManifestFits, DiskFits, ApplyAll, WritesOf, Step, Safe, CommitOf;
    if op.Commit? {
      CommitKeepsHistory(s, op.timestamp, op.signer);
      CommitStep(s, op);
    } else {
      LooseWrites(s, op);
      var ws := WritesOf(s, op);
      assert ws[..|ws|] == ws;
      if op.Rot? {
        RotStep(s, op);
      } else {
        LooseFrame(s.disk, ws, |ws|);
      }
      FrameFits(s.disk, Step(s, op).disk, s.manifest, s.checkpoints);
    }
  }

  lemma {:induction false} CommitKeepsHistory(s: Store, timestamp: nat, signer: Option<Signer>)
    requires History(s)
    ensures History(CommitOf(s, timestamp, signer).store)
  {
    hide PutOf, RestoreOf, QuarantineOf, Rotten, TreeRoot, PolicyHash;
    hide ApplyAll, NextCheckpoint, ManifestFits, DiskFits, NextManifest, OpenOf, Idle;
    var writes := CommitWrites(s, timestamp, signer);
    assert writes[..|writes|] == writes;
    if Idle(s) {
    } else if signer.Some? && !signer.value.forContext {
      var d := CommitWindow(s, timestamp, signer, 1);
      assert WindowWrites(s, timestamp, 1) == [WriteCheckpoint(NextCheckpoint(s, timestamp))];
    } else {
      var d, cs := CommitSeals(s, timestamp, signer, |writes|);
    }
  }

  /** A disk with the manifest and the mark of a history opens on it, or is closed by a stranded checkpoint. */
  lemma {:induction false} SameHistoryOpens(s: Store, d: Disk)
    requires History(s)
    requires d.manifest == s.disk.manifest && d.mark == s.disk.mark && d.checkpoints == s.disk.checkpoints
    ensures OpenOf(d).Ok? ==> History(OpenOf(d).value) && OpenOf(d).value.checkpoints == s.checkpoints
  {
    hide OpenOf, ManifestFits, MarkFits;
    DiskManifest(s.disk, s.manifest, s.checkpoints);
    if d.checkpoints == s.checkpoints {
      OpensHistory(d, s.manifest, s.checkpoints);
    } else {
      RefusesStranded(d, s.manifest, s.checkpoints);
    }
  }

  /** Nor does a crash lose any of it. */
  lemma {:induction false} CrashKeepsHistory(s: Store, op: Op, k: nat)
    requires History(s) && k <= |WritesOf(s, op)| && Reopened(s, op, k).Ok?
    ensures History(Reopened(s, op, k).value)
    ensures s.checkpoints <= Reopened(s, op, k).value.checkpoints
  {
    hide ApplyAll, History, Step, OpenOf, WritesOf, Idle, AllSafe;
    if !op.Commit? {
      LooseWrites(s, op);
      LooseFrame(s.disk, WritesOf(s, op), k);
      SameHistoryOpens(s, CrashDisk(s, op, k));
    } else if k == 0 {
      ApplyNone(s.disk);
      assert WritesOf(s, op)[..0] == [];
      SameHistoryOpens(s, s.disk);
    } else {
      CommitCrashKeeps(s, op, k);
    }
  }

  lemma {:induction false} CommitCrashKeeps(s: Store, op: Op, k: nat)
    requires History(s) && op.Commit? && 1 <= k <= |WritesOf(s, op)| && Reopened(s, op, k).Ok?
    ensures History(Reopened(s, op, k).value)
    ensures s.checkpoints <= Reopened(s, op, k).value.checkpoints
  {
    hide PutOf, RestoreOf, QuarantineOf, Rotten;
    hide ApplyAll, OpenOf, History, Idle, NextCheckpoint, NextManifest, Step;
    CommitStep(s, op);
    if Seals(s, op) && k > ManifestAt(op.signer) {
      assert WritesOf(s, op) == CommitWrites(s, op.timestamp, op.signer);
      var d, cs := CommitSeals(s, op.timestamp, op.signer, k);
    } else {
      var ws := UnsealedWrites(s, op, k);
      var d := CommitWindow(s, op.timestamp, op.signer, k);
    }
  }

  /** A crash, on a stranded disk too, loses nothing that was sealed. */
  lemma {:induction false} CrashKeeps(s: Store, op: Op, k: nat)
    requires Inv(s) && k <= |WritesOf(s, op)| && Reopened(s, op, k).Ok?
    ensures Inv(Reopened(s, op, k).value)
    ensures s.checkpoints <= Reopened(s, op, k).value.checkpoints
  {
    hide ApplyAll, Inv, Step, OpenOf, WritesOf, Idle;
    if s.disk.checkpoints == s.checkpoints {
      CrashReopens(s, op, k);
      InvHasHistory(s);
      StepGrows(s, op);
    } else if Seals(s, op) && k > ManifestAt(op.signer) {
      CrashSealsOver(s, op, k);
    } else {
      StrandedCrash(s, op, k);
    }
  }

  lemma {:induction false} CrashSealsOver(s: Store, op: Op, k: nat)
    requires Inv(s) && Seals(s, op) && ManifestAt(op.signer) < k <= |WritesOf(s, op)| && Reopened(s, op, k).Ok?
    ensures Inv(Reopened(s, op, k).value)
    ensures s.checkpoints <= Reopened(s, op, k).value.checkpoints
  {
    hide PutOf, RestoreOf, QuarantineOf, Rotten;
    hide ApplyAll, OpenOf, Inv, Idle, NextCheckpoint, NextManifest, Step;
    CommitStep(s, op);
    assert WritesOf(s, op) == CommitWrites(s, op.timestamp, op.signer);
    var d, cs := CommitSealed(s, op.timestamp, op.signer, k);
  }

  lemma {:induction false} UnsealedWrites(s: Store, op: Op, k: nat) returns (ws: seq<Write>)
    requires op.Commit? && 1 <= k <= |WritesOf(s, op)| && !(Seals(s, op) && k > ManifestAt(op.signer))
    ensures k <= ManifestAt(op.signer)
    ensures ws == WritesOf(s, op)[..k] && ws == WindowWrites(s, op.timestamp, k)
  {
    hide PutOf, RestoreOf, QuarantineOf, Rotten;
    hide ApplyAll, Idle, NextCheckpoint, NextManifest;
    ws := WritesOf(s, op)[..k];
  }

  lemma {:induction false} StrandedCrash(s: Store, op: Op, k: nat)
    requires Inv(s) && s.disk.checkpoints != s.checkpoints && k <= |WritesOf(s, op)|
    requires !(Seals(s, op) && k > ManifestAt(op.signer))
    ensures Reopened(s, op, k) == Err(ChainBroken)
  {
    hide ApplyAll, OpenOf, Honest, ManifestFits, MarkFits, Addressed, PendingFits, Idle, NextCheckpoint, NextManifest;
    hide AllSafe, CommitWrites, PutOf, RestoreOf, QuarantineOf, CommitOf;
    DiskManifest(s.disk, s.manifest, s.checkpoints);
    if k == 0 {
      ApplyNone(s.disk);
      assert WritesOf(s, op)[..0] == [];
      RefusesStranded(s.disk, s.manifest, s.checkpoints);
    } else if op.Commit? {
      var ws := UnsealedWrites(s, op, k);
      var d := CommitWindow(s, op.timestamp, op.signer, k);
    } else {
      LooseWrites(s, op);
      LooseFrame(s.disk, WritesOf(s, op), k);
      RefusesStranded(CrashDisk(s, op, k), s.manifest, s.checkpoints);
    }
  }

  /**
   In every run from creation, crashes, reopenings and any rot of the object files
   included, the chain is valid, the generation counts the checkpoints, the manifest's root
   is the last sealed one, and sealed checkpoints are never lost.
   */
  lemma {:induction false} RunKeepsHistory(states: seq<Store>, events: seq<Event>, agent: string, i: nat)
    requires IsRun(states, events) && states[0] == CreateOf(agent) && i < |states|
    ensures History(states[i])
    ensures ChainValid(states[i].checkpoints)
    ensures states[i].manifest.highestGeneration == |states[i].checkpoints|
    ensures states[i].manifest.rootHash == SealedRoot(states[i].checkpoints)
    ensures i > 0 ==> states[i - 1].checkpoints <= states[i].checkpoints
  {
    hide Inv, History, CreateOf, Step, Reopened, WritesOf, ChainValid, SealedRoot;
    if i == 0 {
      CreateFits(agent);
      InvHasHistory(states[0]);
    } else {
      RunKeepsHistory(states, events, agent, i - 1);
      var s, e := states[i - 1], events[i - 1];
      assert Possible(s, e) && states[i - 1 + 1] == After(s, e);
      if e.Does? {
        StepKeepsHistory(s, e.op);
        StepGrows(s, e.op);
      } else {
        CrashKeepsHistory(s, e.op, e.after);
      }
    }
    HistoryGives(states[i]);
  }

  lemma {:induction false} InvHasHistory(s: Store)
    requires Inv(s)
    ensures History(s)
  {
    hide History;
  }

  lemma {:induction false} HistoryGives(s: Store)
    requires History(s)
    ensures ChainValid(s.checkpoints) && s.manifest.highestGeneration == |s.checkpoints|
    ensures s.manifest.rootHash == SealedRoot(s.checkpoints)
  {
    hide ChainValid, SealedRoot;
  }

  /** Where rot spares the files without a sidecar, the objects stay filed under their addresses as well. */
  lemma {:induction false} RunKeepsInv(states: seq<Store>, events: seq<Event>, agent: string, i: nat)
    requires IsRun(states, events) && states[0] == CreateOf(agent) && i < |states|
    requires forall j: nat :: j < |events| ==> Admissible(states[j], events[j].op)
    ensures Inv(states[i])
  {
    hide Inv, CreateOf, Step, Reopened, WritesOf, Admissible;
    if i == 0 {
      CreateFits(agent);
    } else {
      RunKeepsInv(states, events, agent, i - 1);
      var s, e := states[i - 1], events[i - 1];
      assert Possible(s, e) && states[i - 1 + 1] == After(s, e);
      if e.Does? {
        StepKeepsInv(s, e.op);
      } else {
        CrashKeeps(s, e.op, e.after);
      }
    }
  }

  /** Nothing sealed is lost over any stretch of a run. */
  lemma {:induction false} SealedStays(states: seq<Store>, events: seq<Event>, agent: string, i: nat, j: nat)
    requires IsRun(states, events) && states[0] == CreateOf(agent) && i <= j < |states|
    ensures states[i].checkpoints <= states[j].checkpoints
  {
    hide *;
    if i < j {
      SealedStays(states, events, agent, i, j - 1);
      RunKeepsHistory(states, events, agent, j);
    }
  }
}
