/**
 The container as a value (src/context_store.rs): its directory, its memory, and every
 operation as a list of atomic writes together with the state it leaves.

 Each write replaces one file whole (`write_atomic` renames a finished temporary file),
 so a crash leaves the disk as some prefix of an operation's writes made it.
 */
module StoreSpec {
  import opened Bytes
  import opened Checkpoints
  import M = Merkle
  import O = Objects
  import K = Keyed
  import S = Sha256
  import T = Tables
  import G = Tagged
  import Srt = Sorting
  import Utf8
  import opened Wrappers

  const FORMAT_VERSION := 1

  datatype Verification = Unsigned | Verified

  /** The sidecar of an object. */
  datatype Meta = Meta(hash: Digest, size: nat, generation: nat, verification: Verification)

  datatype Manifest = Manifest(
    formatVersion: nat, agentId: string, rootHash: Digest, highestGeneration: nat, signingKey: Option<string>,
    cryptographic: bool, schemaHash: Digest, policyHash: Digest)

  /** The anti-rollback high-water mark and its guard. */
  datatype Mark = Mark(generation: nat, guard: Digest)

  datatype Signer = Signer(key: string, forContext: bool, cryptographic: bool)

  /** The container's directory.  Object files are listed in order of id, checkpoint files in order of name. */
  datatype Disk = Disk(
    manifest: Option<Manifest>, mark: Option<Mark>, objects: seq<(string, seq<u8>)>, sidecars: map<string, Meta>,
    checkpoints: seq<Checkpoint>, signatures: set<nat>, quarantine: map<string, seq<u8>>, reasons: map<string, string>)

  /** A container in memory, with the directory behind it and the replica directories registered. */
  datatype Store = Store(
    disk: Disk, manifest: Manifest, objects: seq<(string, Meta)>, checkpoints: seq<Checkpoint>,
    pending: seq<(string, ())>, replicas: seq<map<string, seq<u8>>>, requireSignature: bool)

  datatype StoreError =
    | ProvenanceMissing(object: string)
    | Immutable(object: string)
    | Corrupt(object: string)
    | WrongKeyRole(key: string)

  datatype OpenError = NoManifest | FormatTooNew | SchemaMismatch | MarkCorrupt | Rollback | ChainBroken

  // ---- digests of fixed inputs --------------------------------------------

  function SchemaHash(): Digest { S.SHA256(Utf8.Encode(SCHEMA_VERSION)) }

  /** `policy_hash` of the default policy, which trusts the labels `trusted` and `external`. */
  function PolicyHash(requireSignature: bool): Digest {
    G.DigestOf("dcr:policy", [SchemaHash(), Utf8.Encode("trusted,external"),
                              Utf8.Encode(if requireSignature then "sig" else "nosig")])
  }

  function Guard(generation: nat): Digest { G.DigestOf("dcr:hwm", [BigEndian(generation, 8)]) }

  function MarkOf(generation: nat): Mark { Mark(generation, Guard(generation)) }

  function Address(bytes: seq<u8>): string { ToHex(S.SHA256(bytes)) }

  // ---- writes -------------------------------------------------------------

  datatype Write =
    | WriteObject(id: string, bytes: seq<u8>)
    | WriteSidecar(id: string, meta: Meta)
    | MoveToQuarantine(id: string)
    | RemoveSidecar(id: string)
    | WriteReason(id: string, reason: string)
    | WriteCheckpoint(c: Checkpoint)
    | WriteSignature(generation: nat)
    | WriteManifest(manifest: Manifest)
    | WriteMark(mark: Mark)

  /** A checkpoint file is named by its generation. */
  function PutCheckpoint(files: seq<Checkpoint>, c: Checkpoint): seq<Checkpoint> {
    if files == [] then [c]
    else if files[0].generation == c.generation then [c] + files[1..]
    else [files[0]] + PutCheckpoint(files[1..], c)
  }

  function Apply(d: Disk, w: Write): Disk {
    match w
    case WriteObject(id, bytes) => d.(objects := T.Put(d.objects, id, bytes))
    case WriteSidecar(id, meta) => d.(sidecars := d.sidecars[id := meta])
    case MoveToQuarantine(id) =>
      (match K.Find(d.objects, id)
       case Some(bytes) => d.(objects := T.Without(d.objects, id), quarantine := d.quarantine[id := bytes])
       case None => d)
    case RemoveSidecar(id) => d.(sidecars := d.sidecars - {id})
    case WriteReason(id, reason) => d.(reasons := d.reasons[id := reason])
    case WriteCheckpoint(c) => d.(checkpoints := PutCheckpoint(d.checkpoints, c))
    case WriteSignature(generation) => d.(signatures := d.signatures + {generation})
    case WriteManifest(manifest) => d.(manifest := Some(manifest))
    case WriteMark(mark) => d.(mark := Some(mark))
  }

  function ApplyAll(d: Disk, ws: seq<Write>): Disk {
    if ws == [] then d else Apply(ApplyAll(d, ws[..|ws| - 1]), ws[|ws| - 1])
  }

  /** Writes that touch the manifest, the mark or a checkpoint. */
  predicate Structural(w: Write) {
    w.WriteCheckpoint? || w.WriteManifest? || w.WriteMark?
  }

  // ---- the tree -----------------------------------------------------------

  function Entries(objects: seq<(string, Meta)>): (r: seq<M.Leaf>)
    ensures |r| == |objects| && forall i :: 0 <= i < |r| ==> r[i] == (objects[i].0, objects[i].1.hash)
  {
    seq(|objects|, i requires 0 <= i < |objects| => (objects[i].0, objects[i].1.hash))
  }

  /** The root the objects in memory produce. */
  function TreeRoot(objects: seq<(string, Meta)>): Digest {
    M.RootOf(Entries(objects))
  }

  /** `proves`: the tree's own proof for the id, replayed against the manifest's root. */
  predicate Proves(s: Store, id: string, content: Digest) {
    var tree := M.BuildOf(Entries(s.objects));
    match M.Position(tree.leaves, id)
    case Some(at) => M.Verifies((id, content), M.Siblings(tree.levels, at), s.manifest.rootHash)
    case None => false
  }

  // ---- operations ---------------------------------------------------------

  datatype Outcome<T> = Outcome(store: Store, writes: seq<Write>, result: Result<T, StoreError>)

  function EmptyDisk(): Disk {
    Disk(None, None, [], map[], [], {}, map[], map[])
  }

  function FirstManifest(agent: string): Manifest {
    Manifest(FORMAT_VERSION, agent, M.EmptyRoot(), 0, None, false, SchemaHash(), PolicyHash(false))
  }

  function CreateOf(agent: string): Store {
    var m := FirstManifest(agent);
    Store(EmptyDisk().(manifest := Some(m), mark := Some(MarkOf(0))), m, [], [], [], [], false)
  }

  /** The record that is stored: an anonymous author is the agent. */
  function Stamped(s: Store, record: O.ObjectRecord): O.ObjectRecord {
    if record.createdBy == "" then record.(createdBy := s.manifest.agentId) else record
  }

  function CopyTo(replicas: seq<map<string, seq<u8>>>, id: string, bytes: seq<u8>): (r: seq<map<string, seq<u8>>>)
    ensures |r| == |replicas|
  {
    seq(|replicas|, i requires 0 <= i < |replicas| => replicas[i][id := bytes])
  }

  function PutOf(s: Store, record: O.ObjectRecord): Outcome<string> {
    var r := Stamped(s, record);
    if r.derived && r.sourceObjects == [] then Outcome(s, [], Err(ProvenanceMissing(r.logicalId)))
    else
      var bytes, hash := O.CanonicalBytes(r), O.ContentHash(r);
      var id := ToHex(hash);
      match K.Find(s.objects, id)
      case Some(existing) => Outcome(s, [], if existing.hash == hash then Ok(id) else Err(Immutable(id)))
      case None =>
        var meta := Meta(hash, |bytes|, s.manifest.highestGeneration + 1, Unsigned);
        var writes := [WriteObject(id, bytes), WriteSidecar(id, meta)];
        Outcome(
          s.(disk := ApplyAll(s.disk, writes), objects := T.Put(s.objects, id, meta),
             pending := T.Put(s.pending, id, ()), replicas := CopyTo(s.replicas, id, bytes)),
          writes, Ok(id))
  }

  function RestoreOf(s: Store, id: string, bytes: seq<u8>): Outcome<()> {
    var hash := S.SHA256(bytes);
    if ToHex(hash) != id then Outcome(s, [], Err(Corrupt(id)))
    else
      var generation := match K.Find(s.objects, id)
        case Some(existing) => existing.generation
        case None => s.manifest.highestGeneration;
      var meta := Meta(hash, |bytes|, generation, Verified);
      var writes := [WriteObject(id, bytes), WriteSidecar(id, meta)];
      Outcome(s.(disk := ApplyAll(s.disk, writes), objects := T.Put(s.objects, id, meta)), writes, Ok(()))
  }

  function QuarantineOf(s: Store, id: string, reason: string): Outcome<()> {
    var writes :=
      (if T.Has(s.disk.objects, id) then [MoveToQuarantine(id)] else [])
      + (if id in s.disk.sidecars then [RemoveSidecar(id)] else [])
      + [WriteReason(id, reason)];
    Outcome(
      s.(disk := ApplyAll(s.disk, writes), objects := T.Without(s.objects, id), pending := T.Without(s.pending, id)),
      writes, Ok(()))
  }

  /** Nothing to attest to: `commit` hands back the last checkpoint. */
  predicate Idle(s: Store) {
    s.pending == [] && TreeRoot(s.objects) == s.manifest.rootHash && s.checkpoints != []
  }

  /** The checkpoint `commit` would seal. */
  function NextCheckpoint(s: Store, timestamp: nat): Checkpoint {
    var c := Checkpoint(
      SCHEMA_VERSION, s.manifest.highestGeneration + 1, TreeRoot(s.objects), SealedRoot(s.checkpoints), ZeroDigest(),
      Head(s.checkpoints), timestamp, PolicyHash(s.requireSignature), SchemaHash(), |s.objects|, T.Keys(s.pending));
    c.(chain := ComputeChain(c))
  }

  function NextManifest(s: Store, signer: Option<Signer>): Manifest {
    hide TreeRoot, PolicyHash;
    var signed := match signer
      case Some(who) => s.manifest.(signingKey := Some(who.key), cryptographic := who.cryptographic)
      case None => s.manifest;
    signed.(
    highestGeneration := s.manifest.highestGeneration + 1,
    rootHash := TreeRoot(s.objects),
    policyHash := PolicyHash(s.requireSignature || signer.Some?))
  }

  /** How many of a commit's writes come before the manifest's. */
  function ManifestAt(signer: Option<Signer>): nat {
    if signer.Some? then 2 else 1
  }

  /** Checkpoint, signature, manifest, mark: in this order. */
  function CommitWrites(s: Store, timestamp: nat, signer: Option<Signer>): (ws: seq<Write>)
    ensures |ws| == ManifestAt(signer) + 2
  {
    hide NextCheckpoint, NextManifest, MarkOf;
    [WriteCheckpoint(NextCheckpoint(s, timestamp))]
    + (if signer.Some? then [WriteSignature(s.manifest.highestGeneration + 1)] else [])
    + [WriteManifest(NextManifest(s, signer)), WriteMark(MarkOf(s.manifest.highestGeneration + 1))]
  }

  function CommitOf(s: Store, timestamp: nat, signer: Option<Signer>): Outcome<Checkpoint> {
    hide NextCheckpoint, NextManifest, CommitWrites, ApplyAll, TreeRoot;
    if Idle(s) then Outcome(s, [], Ok(s.checkpoints[|s.checkpoints| - 1]))
    else
      var c := NextCheckpoint(s, timestamp);
      if signer.Some? && !signer.value.forContext then
        Outcome(s.(disk := ApplyAll(s.disk, [WriteCheckpoint(c)])), [WriteCheckpoint(c)],
                Err(WrongKeyRole(signer.value.key)))
      else
        var writes := CommitWrites(s, timestamp, signer);
        Outcome(
          s.(disk := ApplyAll(s.disk, writes), manifest := NextManifest(s, signer),
             checkpoints := s.checkpoints + [c], pending := [],
             requireSignature := s.requireSignature || signer.Some?),
          writes, Ok(c))
  }

  // ---- opening ------------------------------------------------------------

  predicate GenerationLe(a: Checkpoint, b: Checkpoint) {
    a.generation <= b.generation
  }

  function SortedCheckpoints(files: seq<Checkpoint>): seq<Checkpoint> {
    Srt.Sort((a: Checkpoint, b: Checkpoint) => GenerationLe(a, b), files)
  }

  /** Why `open` refuses a directory, checked in the program's order. */
  ghost function Refusal(d: Disk): Option<OpenError> {
    if d.manifest.None? then Some(NoManifest)
    else
      var m := d.manifest.value;
      if m.formatVersion > FORMAT_VERSION then Some(FormatTooNew)
      else if m.schemaHash != SchemaHash() then Some(SchemaMismatch)
      else if d.mark.Some? && d.mark.value.guard != Guard(d.mark.value.generation) then Some(MarkCorrupt)
      else if d.mark.Some? && m.highestGeneration < d.mark.value.generation then Some(Rollback)
      else
        var cs := SortedCheckpoints(d.checkpoints);
        if !ChainValid(cs) then Some(ChainBroken)
        else if cs != [] && LastGeneration(cs) != m.highestGeneration then Some(ChainBroken)
        else None
  }

  /** A missing sidecar is rebuilt from the bytes. */
  function LoadedMeta(d: Disk, id: string, bytes: seq<u8>, generation: nat): Meta {
    if id in d.sidecars then d.sidecars[id] else Meta(S.SHA256(bytes), |bytes|, generation, Unsigned)
  }

  function Loaded(d: Disk, generation: nat): (r: seq<(string, Meta)>)
    ensures |r| == |d.objects|
    ensures forall i :: 0 <= i < |r| ==>
              r[i] == (d.objects[i].0, LoadedMeta(d, d.objects[i].0, d.objects[i].1, generation))
  {
    seq(|d.objects|, i requires 0 <= i < |d.objects| =>
      (d.objects[i].0, LoadedMeta(d, d.objects[i].0, d.objects[i].1, generation)))
  }

  ghost function OpenOf(d: Disk): Result<Store, OpenError> {
    match Refusal(d)
    case Some(e) => Err(e)
    case None =>
      var m := d.manifest.value;
      Ok(Store(d, m, Loaded(d, m.highestGeneration), SortedCheckpoints(d.checkpoints), [], [], m.signingKey.Some?))
  }
}
