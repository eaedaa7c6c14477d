/**
 The scrubber (src/scrub.rs): detect, repair from a proven copy, quarantine, seal.

 `ScrubOf` walks the ids in order.  The theorems: nothing is restored that does not hash
 to its address and prove against the committed root; what survives a repairing and
 quarantining scrub is intact; the lists add up; and a good copy repairs exactly while
 the tree still has the committed root, which the first quarantine ends.
 */
module ScrubSpec {
  import opened Bytes
  import opened StoreSpec
  import R = StoreRuns
  import K = Keyed
  import M = Merkle
  import O = Objects
  import S = Sha256
  import T = Tables
  import G = Tagged
  import Utf8
  import opened Wrappers

  datatype Options = Options(repair: bool, quarantine: bool, seal: bool, timestamp: nat)

  datatype Report = Report(
    checked: nat, healthy: nat, corrupt: seq<string>, repaired: seq<string>, quarantined: seq<string>,
    unrepairable: seq<string>, replicas: nat, sealed: Option<nat>)

  const REASON := "failed integrity verification; no verified replica available"

  /** The file is there and hashes to its address. */
  predicate Intact(s: Store, id: string) {
    match K.Find(s.disk.objects, id)
    case Some(bytes) => Address(bytes) == id
    case None => false
  }

  /** A copy that may repair: its bytes are what the address means, and the committed root vouches for the pair. */
  predicate GoodCopy(s: Store, id: string, bytes: seq<u8>) {
    Address(bytes) == id && Proves(s, id, S.SHA256(bytes))
  }

  /** The first replica, from the `k`-th on, whose copy may repair. */
  function FindCopy(s: Store, id: string, k: nat): (r: Option<seq<u8>>)
    requires k <= |s.replicas|
    ensures r.Some? ==> GoodCopy(s, id, r.value)
    decreases |s.replicas| - k
  {
    hide GoodCopy;
    if k == |s.replicas| then None
    else if id in s.replicas[k] && GoodCopy(s, id, s.replicas[k][id]) then Some(s.replicas[k][id])
    else FindCopy(s, id, k + 1)
  }

  /** A store under scrub, and the report so far. */
  datatype Progress = Progress(store: Store, report: Report)

  /** One object. */
  function ScrubOne(p: Progress, id: string, o: Options): Progress {
    var counted := p.report.(checked := p.report.checked + 1);
    if Intact(p.store, id) then p.(report := counted.(healthy := counted.healthy + 1))
    else
      var noted := counted.(corrupt := counted.corrupt + [id]);
      var copy := if o.repair then FindCopy(p.store, id, 0) else None;
      if copy.Some? then
        Progress(RestoreOf(p.store, id, copy.value).store, noted.(repaired := noted.repaired + [id]))
      else
        var lost := noted.(unrepairable := noted.unrepairable + [id]);
        if o.quarantine then
          Progress(QuarantineOf(p.store, id, REASON).store, lost.(quarantined := lost.quarantined + [id]))
        else Progress(p.store, lost)
  }

  function ScrubAll(p: Progress, ids: seq<string>, o: Options): Progress {
    if ids == [] then p else ScrubOne(ScrubAll(p, ids[..|ids| - 1], o), ids[|ids| - 1], o)
  }

  function Begin(s: Store): Progress {
    Progress(s, Report(0, 0, [], [], [], [], |s.replicas|, None))
  }

  /** The walk, before any sealing. */
  function Walked(s: Store, o: Options): Progress {
    ScrubAll(Begin(s), T.Keys(s.objects), o)
  }

  /** `scrub`: the walk, and a new generation when something was lost. */
  function ScrubOf(s: Store, o: Options, signer: Option<Signer>): (Store, Result<Report, StoreError>) {
    var p := Walked(s, o);
    if o.seal && p.report.quarantined != [] then
      var done := CommitOf(p.store, o.timestamp, signer);
      match done.result
      case Ok(c) => (done.store, Ok(p.report.(sealed := Some(c.generation))))
      case Err(e) => (done.store, Err(e))
    else (p.store, Ok(p.report))
  }

  // ---- when a proof verifies ----------------------------------------------

  lemma {:induction false} EntriesFind(objects: seq<(string, Meta)>, id: string)
    ensures K.Find(Entries(objects), id) == match K.Find(objects, id) case Some(m) => Some(m.hash) case None => None
  {
    if objects != [] {
      assert Entries(objects)[1..] == Entries(objects[1..]);
      EntriesFind(objects[1..], id);
    }
  }

  lemma {:induction false} EntriesOrdered(objects: seq<(string, Meta)>)
    requires K.StrictlyOrdered(objects)
    ensures K.StrictlyOrdered(Entries(objects)) && M.LeavesOf(Entries(objects)) == Entries(objects)
  {
    hide K.Canonical;
    var e := Entries(objects);
    forall i, j | 0 <= i < j < |e| ensures K.StringLe(e[i].0, e[j].0) && e[i].0 != e[j].0 {
      assert K.StringLe(objects[i].0, objects[j].0);
    }
    K.CanonicalOfStrict(e);
  }

  /** An object in memory proves, with the digest on record, exactly while the tree has the manifest's root. */
  lemma {:induction false} ProvesIffRootsAgree(s: Store, id: string)
    requires R.Addressed(s.objects) && T.Has(s.objects, id)
    ensures Proves(s, id, K.Find(s.objects, id).value.hash) <==> TreeRoot(s.objects) == s.manifest.rootHash
  {
    hide M.RootOf, M.BuildOf, M.LeafDigest, M.Siblings, M.Position, M.Replay, K.Find, ToHex, M.LeavesOf;
    var e := Entries(s.objects);
    var hash := K.Find(s.objects, id).value.hash;
    EntriesOrdered(s.objects);
    EntriesFind(s.objects, id);
    M.FirstEntryWins(e, (id, hash));
    M.EveryLeafProves(e, (id, hash));
    BuiltLeaves(e);
  }

  lemma {:induction false} BuiltLeaves(e: seq<M.Leaf>)
    ensures M.BuildOf(e).leaves == M.LeavesOf(e)
  {
    hide M.LeavesOf, M.Levels;
  }

  /** A copy with the right bytes carries the digest on record. */
  lemma {:induction false} RightBytes(s: Store, id: string, bytes: seq<u8>)
    requires R.Addressed(s.objects) && T.Has(s.objects, id) && Address(bytes) == id
    ensures S.SHA256(bytes) == K.Find(s.objects, id).value.hash
  {
    hide K.Find, ToHex, K.StrictlyOrdered;
    R.AddressedAt(s.objects, id);
    ToHexInjective(S.SHA256(bytes), K.Find(s.objects, id).value.hash);
  }

  /** So a copy with the right bytes may repair exactly while the roots agree. */
  lemma {:induction false} GoodIffRootsAgree(s: Store, id: string, bytes: seq<u8>)
    requires R.Addressed(s.objects) && T.Has(s.objects, id) && Address(bytes) == id
    ensures GoodCopy(s, id, bytes) <==> TreeRoot(s.objects) == s.manifest.rootHash
  {
    hide Proves, TreeRoot, Address, K.Find, R.Addressed;
    RightBytes(s, id, bytes);
    ProvesIffRootsAgree(s, id);
  }

  lemma {:induction false} FindCopyFrom(s: Store, id: string, k: nat, i: nat)
    requires k <= i < |s.replicas| && id in s.replicas[i] && GoodCopy(s, id, s.replicas[i][id])
    ensures FindCopy(s, id, k).Some?
    decreases |s.replicas| - k
  {
    hide GoodCopy;
    if k < i {
      FindCopyFrom(s, id, k + 1, i);
    }
  }

  /** Some replica holds the right bytes. */
  ghost predicate HasCopy(s: Store, id: string) {
    exists i: nat :: i < |s.replicas| && id in s.replicas[i] && Address(s.replicas[i][id]) == id
  }

  /** While the roots agree, a replica with the right bytes is enough. */
  lemma {:induction false} CopyFound(s: Store, id: string)
    requires R.Addressed(s.objects) && T.Has(s.objects, id) && HasCopy(s, id)
    requires TreeRoot(s.objects) == s.manifest.rootHash
    ensures FindCopy(s, id, 0).Some?
  {
    hide GoodCopy, TreeRoot, Address, R.Addressed, FindCopy, K.Find;
    var i: nat :| i < |s.replicas| && id in s.replicas[i] && Address(s.replicas[i][id]) == id;
    GoodIffRootsAgree(s, id, s.replicas[i][id]);
    FindCopyFrom(s, id, 0, i);
  }

  /** Once they do not, no replica is. */
  lemma {:induction false} CopyRefused(s: Store, id: string, k: nat)
    requires R.Addressed(s.objects) && T.Has(s.objects, id) && k <= |s.replicas|
    requires TreeRoot(s.objects) != s.manifest.rootHash
    ensures FindCopy(s, id, k).None?
  {
    hide GoodCopy, TreeRoot, Address, R.Addressed, K.Find;
    var found := FindCopy(s, id, k);
    if found.Some? {
      GoodHashes(s, id, found.value);
      GoodIffRootsAgree(s, id, found.value);
    }
  }

  lemma {:induction false} GoodHashes(s: Store, id: string, bytes: seq<u8>)
    requires GoodCopy(s, id, bytes)
    ensures Address(bytes) == id
  {
    hide Proves, Address;
  }

  // ---- one object ---------------------------------------------------------

  /** What becomes of an object: nothing, a repair, a loss. */
  datatype Fate = Healthy | Repaired(bytes: seq<u8>) | Lost | Gone

  ghost function FateOf(p: Progress, id: string, o: Options): Fate {
    if Intact(p.store, id) then Healthy
    else if o.repair && FindCopy(p.store, id, 0).Some? then Repaired(FindCopy(p.store, id, 0).value)
    else if o.quarantine then Gone
    else Lost
  }

  lemma {:induction false} OneStore(p: Progress, id: string, o: Options)
    ensures ScrubOne(p, id, o).store ==
            match FateOf(p, id, o)
            case Repaired(bytes) => RestoreOf(p.store, id, bytes).store
            case Gone => QuarantineOf(p.store, id, REASON).store
            case _ => p.store
    ensures FateOf(p, id, o).Repaired? ==> GoodCopy(p.store, id, FateOf(p, id, o).bytes)
  {
    hide Intact, FindCopy, GoodCopy, RestoreOf, QuarantineOf;
  }

  /** Restoring right bytes: the file is intact again, no other file and no digest changes. */
  lemma {:induction false} RestoreEffect(s: Store, id: string, bytes: seq<u8>, k: string)
    requires Address(bytes) == id && R.Addressed(s.objects) && T.Has(s.objects, id)
    ensures var t := RestoreOf(s, id, bytes).store;
            && K.Find(t.disk.objects, k) == (if k == id then Some(bytes) else K.Find(s.disk.objects, k))
            && T.Has(t.objects, k) == T.Has(s.objects, k)
            && K.Find(Entries(t.objects), k) == K.Find(Entries(s.objects), k)
            && t.manifest == s.manifest && t.checkpoints == s.checkpoints && t.replicas == s.replicas
  {
    hide K.Find, T.Put, Address, R.Addressed, ApplyAll, Apply, Entries;
    var meta := R.RestoredMeta(s, id, bytes);
    AddressIs(bytes, id);
    R.TwoWrites(s.disk, id, bytes, meta);
    T.PutFind(s.disk.objects, id, bytes, k);
    T.PutFind(s.objects, id, meta, k);
    EntriesFind(s.objects, k);
    EntriesFind(T.Put(s.objects, id, meta), k);
    RightBytes(s, id, bytes);
  }

  lemma {:induction false} AddressIs(bytes: seq<u8>, id: string)
    ensures Address(bytes) == id <==> ToHex(S.SHA256(bytes)) == id
  {
    hide ToHex;
  }

  /** Quarantine takes one object away and touches no other file. */
  lemma {:induction false} QuarantineEffect(s: Store, id: string, k: string)
    ensures var t := QuarantineOf(s, id, REASON).store;
            && T.Has(t.objects, k) == (k != id && T.Has(s.objects, k))
            && (k != id ==> K.Find(t.disk.objects, k) == K.Find(s.disk.objects, k)
                            && K.Find(t.objects, k) == K.Find(s.objects, k))
            && t.manifest == s.manifest && t.checkpoints == s.checkpoints && t.replicas == s.replicas
  {
    hide K.Find, T.Without, ApplyAll;
    var ws := QuarantineOf(s, id, REASON).writes;
    T.WithoutFind(s.objects, id, k);
    if k != id {
      OtherFiles(s.disk, ws, |ws|, id, k);
      assert ws[..|ws|] == ws;
    }
  }

  lemma {:induction false} OtherFiles(d: Disk, ws: seq<Write>, n: nat, id: string, k: string)
    requires n <= |ws| && k != id
    requires forall i: nat :: i < |ws| ==>
               ws[i] == MoveToQuarantine(id) || ws[i].RemoveSidecar? || ws[i].WriteReason?
    ensures K.Find(ApplyAll(d, ws[..n]).objects, k) == K.Find(d.objects, k)
  {
    hide K.Find, T.Without, ApplyAll;
    if n == 0 {
      assert ws[..0] == [];
      R.ApplyNone(d);
    } else {
      OtherFiles(d, ws, n - 1, id, k);
      R.ApplyPrefix(d, ws, n - 1);
      T.WithoutFind(ApplyAll(d, ws[..n - 1]).objects, id, k);
    }
  }

  // ---- the whole walk -----------------------------------------------------

  /** What holds after scrubbing the first `n` of the store's ids. */
  ghost predicate Scrubbed(s: Store, p: Progress, ids: seq<string>, n: nat, o: Options) {
    && n <= |ids|
    && R.Inv(p.store) && p.store.manifest == s.manifest && p.store.checkpoints == s.checkpoints
    && p.store.replicas == s.replicas
    && (forall k :: T.Has(p.store.objects, k) <==> T.Has(s.objects, k) && k !in p.report.quarantined)
    && (forall k :: T.Has(p.store.objects, k) ==>
                      K.Find(Entries(p.store.objects), k) == K.Find(Entries(s.objects), k))
    && (forall i: nat :: n <= i < |ids| ==> K.Find(p.store.disk.objects, ids[i]) == K.Find(s.disk.objects, ids[i]))
    && (forall i: nat :: i < n ==> ids[i] in p.report.unrepairable || Intact(p.store, ids[i]))
    && p.report.quarantined == (if o.quarantine then p.report.unrepairable else [])
    && (forall k :: k in p.report.unrepairable ==> k in ids[..n])
    && p.report.checked == n && p.report.healthy + |p.report.corrupt| == n
    && multiset(p.report.corrupt) == multiset(p.report.repaired) + multiset(p.report.unrepairable)
  }

  ghost predicate IdsOf(s: Store, ids: seq<string>) {
    ids == T.Keys(s.objects)
  }

  lemma {:induction false} IdsDistinct(s: Store, ids: seq<string>)
    requires R.Inv(s) && IdsOf(s, ids)
    ensures forall i, j :: 0 <= i < j < |ids| ==> ids[i] != ids[j]
    ensures forall k :: k in ids <==> T.Has(s.objects, k)
  {
    hide R.ManifestFits, R.DiskFits, R.Honest, R.PendingFits, ToHex;
    R.OrderedDistinct(s.objects);
    forall k ensures k in ids <==> T.Has(s.objects, k) {
      T.HasKey(s.objects, k);
    }
  }

  lemma {:induction false} ScrubbedStart(s: Store, ids: seq<string>, o: Options)
    requires R.Inv(s) && IdsOf(s, ids)
    ensures Scrubbed(s, Begin(s), ids, 0, o)
  {
    hide R.Inv, K.Find, Entries, Intact;
  }

  lemma {:induction false} InvGives(s: Store)
    requires R.Inv(s)
    ensures R.Addressed(s.objects)
  {
    hide R.ManifestFits, R.DiskFits, R.Honest, R.PendingFits, R.Addressed;
  }

  lemma {:induction false} IntactNow(s: Store, id: string, bytes: seq<u8>)
    requires K.Find(s.disk.objects, id) == Some(bytes) && Address(bytes) == id
    ensures Intact(s, id)
  {
    hide K.Find, Address;
  }

  lemma {:induction false} IntactSame(s: Store, t: Store, id: string)
    requires K.Find(s.disk.objects, id) == K.Find(t.disk.objects, id)
    ensures Intact(s, id) == Intact(t, id)
  {
    hide K.Find, Address;
  }

  lemma {:induction false} StepHealthy(s: Store, p: Progress, ids: seq<string>, n: nat, o: Options)
    requires Scrubbed(s, p, ids, n, o) && n < |ids| && Intact(p.store, ids[n])
    ensures Scrubbed(s, ScrubOne(p, ids[n], o), ids, n + 1, o)
  {
    hide R.Inv, K.Find, Entries, Intact, FindCopy, GoodCopy, RestoreOf, QuarantineOf;
    assert ids[..n + 1] == ids[..n] + [ids[n]];
  }

  lemma {:induction false} StepLost(s: Store, p: Progress, ids: seq<string>, n: nat, o: Options)
    requires Scrubbed(s, p, ids, n, o) && n < |ids| && FateOf(p, ids[n], o).Lost?
    ensures Scrubbed(s, ScrubOne(p, ids[n], o), ids, n + 1, o)
  {
    hide R.Inv, K.Find, Entries, Intact, FindCopy, GoodCopy, RestoreOf, QuarantineOf;
    assert ids[..n + 1] == ids[..n] + [ids[n]];
  }

  /** The report after a repair. */
  lemma {:induction false} RepairReport(p: Progress, id: string, o: Options)
    requires FateOf(p, id, o).Repaired?
    ensures ScrubOne(p, id, o).report == p.report.(
                                           checked := p.report.checked + 1, corrupt := p.report.corrupt + [id],
                                           repaired := p.report.repaired + [id])
  {
    hide Intact, FindCopy, GoodCopy, RestoreOf, QuarantineOf;
  }

  lemma {:induction false} GoneReport(p: Progress, id: string, o: Options)
    requires FateOf(p, id, o).Gone?
    ensures ScrubOne(p, id, o).report == p.report.(
                                           checked := p.report.checked + 1, corrupt := p.report.corrupt + [id],
                                           unrepairable := p.report.unrepairable + [id],
                                           quarantined := p.report.quarantined + [id])
  {
    hide Intact, FindCopy, GoodCopy, RestoreOf, QuarantineOf;
  }

  lemma {:induction false} RestoreKeepsInv(s: Store, id: string, bytes: seq<u8>)
    requires R.Inv(s)
    ensures R.Inv(RestoreOf(s, id, bytes).store)
  {
    hide R.Inv, RestoreOf, PutOf, QuarantineOf, CommitOf;
    R.StepKeepsInv(s, R.Restore(id, bytes));
  }

  lemma {:induction false} QuarantineKeepsInv(s: Store, id: string)
    requires R.Inv(s)
    ensures R.Inv(QuarantineOf(s, id, REASON).store)
  {
    hide R.Inv, RestoreOf, PutOf, QuarantineOf, CommitOf;
    R.StepKeepsInv(s, R.Quarantine(id, REASON));
  }

  /** The id about to be scrubbed is still in the store. */
  lemma {:induction false} StillHere(s: Store, p: Progress, ids: seq<string>, n: nat, o: Options)
    requires R.Inv(s) && IdsOf(s, ids) && Scrubbed(s, p, ids, n, o) && n < |ids|
    ensures T.Has(p.store.objects, ids[n]) && ids[n] !in p.report.unrepairable
  {
    hide R.Inv, K.Find, Entries, Intact, IdsOf;
    IdsDistinct(s, ids);
    forall i | 0 <= i < n ensures ids[..n][i] != ids[n] {
    }
    assert ids[n] !in ids[..n];
  }

  lemma {:induction false} StepRepaired(s: Store, p: Progress, ids: seq<string>, n: nat, o: Options)
    requires R.Inv(s) && IdsOf(s, ids) && Scrubbed(s, p, ids, n, o) && n < |ids| && FateOf(p, ids[n], o).Repaired?
    ensures Scrubbed(s, ScrubOne(p, ids[n], o), ids, n + 1, o)
  {
    hide R.Inv, K.Find, Entries, Intact, FateOf, RestoreOf, QuarantineOf, ScrubOne, GoodCopy, IdsOf, Address;
    hide R.Addressed;
    var id, bytes := ids[n], FateOf(p, ids[n], o).bytes;
    var p' := ScrubOne(p, id, o);
    OneStore(p, id, o);
    RepairReport(p, id, o);
    GoodHashes(p.store, id, bytes);
    StillHere(s, p, ids, n, o);
    IdsDistinct(s, ids);
    InvGives(p.store);
    RestoreKeepsInv(p.store, id, bytes);
    forall k
      ensures K.Find(p'.store.disk.objects, k) == (if k == id then Some(bytes) else K.Find(p.store.disk.objects, k))
      ensures T.Has(p'.store.objects, k) == T.Has(p.store.objects, k)
      ensures K.Find(Entries(p'.store.objects), k) == K.Find(Entries(p.store.objects), k)
    {
      RestoreEffect(p.store, id, bytes, k);
    }
    RestoreEffect(p.store, id, bytes, id);
    forall i: nat | i < n + 1 ensures ids[i] in p'.report.unrepairable || Intact(p'.store, ids[i]) {
      if i < n {
        IntactSame(p.store, p'.store, ids[i]);
      } else {
        IntactNow(p'.store, id, bytes);
      }
    }
    assert ids[..n + 1] == ids[..n] + [ids[n]];
  }

  lemma {:induction false} StepGone(s: Store, p: Progress, ids: seq<string>, n: nat, o: Options)
    requires R.Inv(s) && IdsOf(s, ids) && Scrubbed(s, p, ids, n, o) && n < |ids| && FateOf(p, ids[n], o).Gone?
    ensures Scrubbed(s, ScrubOne(p, ids[n], o), ids, n + 1, o)
  {
    hide R.Inv, K.Find, Entries, Intact, RestoreOf, QuarantineOf, ScrubOne, GoodCopy, IdsOf, Address, FindCopy;
    var id := ids[n];
    var p' := ScrubOne(p, id, o);
    OneStore(p, id, o);
    GoneReport(p, id, o);
    IdsDistinct(s, ids);
    QuarantineKeepsInv(p.store, id);
    forall k
      ensures T.Has(p'.store.objects, k) == (k != id && T.Has(p.store.objects, k))
      ensures k != id ==> K.Find(p'.store.disk.objects, k) == K.Find(p.store.disk.objects, k)
      ensures k != id ==> K.Find(Entries(p'.store.objects), k) == K.Find(Entries(p.store.objects), k)
    {
      QuarantineEffect(p.store, id, k);
      EntriesFind(p.store.objects, k);
      EntriesFind(p'.store.objects, k);
    }
    QuarantineEffect(p.store, id, id);
    forall i: nat | i < n + 1 ensures ids[i] in p'.report.unrepairable || Intact(p'.store, ids[i]) {
      if i < n {
        IntactSame(p.store, p'.store, ids[i]);
      }
    }
    assert ids[..n + 1] == ids[..n] + [ids[n]];
  }

  lemma {:induction false} ScrubAllNext(p: Progress, ids: seq<string>, n: nat, o: Options)
    requires n < |ids|
    ensures ScrubAll(p, ids[..n + 1], o) == ScrubOne(ScrubAll(p, ids[..n], o), ids[n], o)
  {
    hide ScrubOne;
    assert ids[..n + 1][..n] == ids[..n];
  }

  /** After any number of objects. */
  lemma {:induction false} ScrubbedAfter(s: Store, ids: seq<string>, n: nat, o: Options)
    requires R.Inv(s) && IdsOf(s, ids) && n <= |ids|
    ensures Scrubbed(s, ScrubAll(Begin(s), ids[..n], o), ids, n, o)
  {
    hide R.Inv, Scrubbed, ScrubOne, IdsOf, Intact, FindCopy, GoodCopy;
    if n == 0 {
      ScrubbedStart(s, ids, o);
      assert ids[..0] == [];
    } else {
      ScrubbedAfter(s, ids, n - 1, o);
      var p := ScrubAll(Begin(s), ids[..n - 1], o);
      ScrubAllNext(Begin(s), ids, n - 1, o);
      match FateOf(p, ids[n - 1], o)
      case Healthy => StepHealthy(s, p, ids, n - 1, o);
      case Repaired(_) => StepRepaired(s, p, ids, n - 1, o);
      case Gone => StepGone(s, p, ids, n - 1, o);
      case Lost => StepLost(s, p, ids, n - 1, o);
    }
  }

  // ---- the theorems -------------------------------------------------------

  /**
   Soundness and conservation of the walk: what survives is intact when losses are
   quarantined, exactly the quarantined objects are gone, no surviving object changes
   its digest, and every corrupt object is repaired or unrepairable.
   */
  lemma {:induction false} WalkIsSound(s: Store, o: Options)
    requires R.Inv(s)
    ensures R.Inv(Walked(s, o).store)
    ensures Walked(s, o).report.checked == |s.objects|
    ensures Walked(s, o).report.healthy + |Walked(s, o).report.corrupt| == |s.objects|
    ensures multiset(Walked(s, o).report.corrupt)
            == multiset(Walked(s, o).report.repaired) + multiset(Walked(s, o).report.unrepairable)
    ensures Walked(s, o).report.quarantined == if o.quarantine then Walked(s, o).report.unrepairable else []
    ensures forall k :: T.Has(Walked(s, o).store.objects, k) <==>
                          T.Has(s.objects, k) && k !in Walked(s, o).report.quarantined
    ensures o.quarantine ==> forall k :: T.Has(Walked(s, o).store.objects, k) ==> Intact(Walked(s, o).store, k)
    ensures forall k :: T.Has(Walked(s, o).store.objects, k) ==>
                          K.Find(Entries(Walked(s, o).store.objects), k) == K.Find(Entries(s.objects), k)
  {
    hide R.Inv, ScrubAll, IdsOf, Intact, K.Find, Entries;
    var ids, p := T.Keys(s.objects), Walked(s, o);
    IdsAre(s, ids);
    IdsDistinct(s, ids);
    ScrubbedAfter(s, ids, |ids|, o);
    assert ids[..|ids|] == ids;
    forall k | o.quarantine && T.Has(p.store.objects, k) ensures Intact(p.store, k) {
      assert T.Has(s.objects, k) && k in ids;
      var i: nat :| i < |ids| && ids[i] == k;
      assert ids[i] in p.report.unrepairable || Intact(p.store, ids[i]);
    }
  }

  lemma {:induction false} IdsAre(s: Store, ids: seq<string>)
    requires ids == T.Keys(s.objects)
    ensures IdsOf(s, ids)
  {
  }

  /** The tree depends on the digests only. */
  lemma {:induction false} SameTree(a: seq<(string, Meta)>, b: seq<(string, Meta)>)
    requires K.StrictlyOrdered(a) && K.StrictlyOrdered(b)
    requires forall k :: K.Find(Entries(a), k) == K.Find(Entries(b), k)
    ensures TreeRoot(a) == TreeRoot(b)
  {
    hide M.RootOf, K.Find, K.StrictlyOrdered, M.LeavesOf;
    EntriesOrdered(a);
    EntriesOrdered(b);
    K.StrictlyOrderedUnique(Entries(a), Entries(b));
  }

  lemma {:induction false} TreeUnmoved(s: Store, p: Progress, ids: seq<string>, n: nat, o: Options)
    requires R.Inv(s) && Scrubbed(s, p, ids, n, o) && p.report.quarantined == []
    ensures TreeRoot(p.store.objects) == TreeRoot(s.objects)
  {
    hide TreeRoot, K.Find, Entries, Intact, R.ManifestFits, R.DiskFits, R.Honest, R.PendingFits, ToHex;
    hide K.StrictlyOrdered;
    forall k ensures K.Find(Entries(p.store.objects), k) == K.Find(Entries(s.objects), k) {
      EntriesFind(p.store.objects, k);
      EntriesFind(s.objects, k);
    }
    SameTree(p.store.objects, s.objects);
  }

  /** What the walk has not reached is as it was. */
  lemma {:induction false} Untouched(s: Store, p: Progress, ids: seq<string>, n: nat, o: Options)
    requires R.Inv(s) && Scrubbed(s, p, ids, n, o) && n < |ids|
    ensures R.Inv(p.store) && p.store.manifest == s.manifest && p.store.replicas == s.replicas
    ensures Intact(p.store, ids[n]) == Intact(s, ids[n])
    ensures HasCopy(p.store, ids[n]) == HasCopy(s, ids[n])
  {
    hide R.Inv, Entries, Address, K.Find, Intact;
    IntactSame(p.store, s, ids[n]);
  }

  lemma {:induction false} NothingScrubbed(s: Store, o: Options)
    ensures ScrubAll(Begin(s), [], o) == Begin(s)
  {
  }

  lemma {:induction false} AddressedOrdered(s: Store)
    requires R.Addressed(s.objects)
    ensures K.StrictlyOrdered(s.objects)
  {
    hide K.StrictlyOrdered, ToHex;
  }

  /** Ids are hexadecimal digests, so they fit any length field. */
  lemma {:induction false} AddressedFits(s: Store)
    requires R.Addressed(s.objects)
    ensures M.AllFit(M.LeavesOf(Entries(s.objects)))
  {
    hide K.StrictlyOrdered, M.LeavesOf, ToHex, Utf8.Encode;
    AddressedOrdered(s);
    EntriesOrdered(s.objects);
    forall leaf: M.Leaf | leaf in Entries(s.objects) ensures M.Fits(leaf.0) {
      var i: nat :| i < |s.objects| && Entries(s.objects)[i] == leaf;
      M.EncodedLength(leaf.0);
      HexLength(s.objects[i].1.hash);
    }
  }

  lemma {:induction false} HexLength(bytes: seq<u8>)
    ensures |ToHex(bytes)| == 2 * |bytes|
  {
    if bytes != [] {
      HexLength(bytes[1..]);
    }
  }

  /** No two messages hashed for the trees of these stores collide. */
  ghost predicate TreesDistinct(s: Store, t: Store) {
    G.NoCollision(M.TreeHashed(Entries(s.objects)) + M.TreeHashed(Entries(t.objects)))
  }

  /** A store that lacks an object of a committed one is off the committed root, whatever else it lost. */
  lemma {:induction false} LossMovesTree(s: Store, t: Store, id: string)
    requires R.Inv(s) && R.Inv(t) && TreeRoot(s.objects) == s.manifest.rootHash && TreesDistinct(s, t)
    requires T.Has(s.objects, id) && !T.Has(t.objects, id)
    ensures TreeRoot(t.objects) != s.manifest.rootHash
  {
    hide M.RootOf, M.TreeHashed, G.NoCollision, M.AllFit, R.Inv, K.Find, Entries, M.LeavesOf;
    hide K.StrictlyOrdered, R.Addressed, ToHex;
    InvGives(s);
    InvGives(t);
    AddressedOrdered(s);
    AddressedOrdered(t);
    AddressedFits(s);
    AddressedFits(t);
    EntriesOrdered(s.objects);
    EntriesOrdered(t.objects);
    EntriesFind(s.objects, id);
    EntriesFind(t.objects, id);
    if TreeRoot(t.objects) == TreeRoot(s.objects) {
      M.RootDeterminesLeaves(Entries(s.objects), Entries(t.objects));
    }
  }

  /** At a tree off the committed root a right copy does not help: a corrupt object is given up. */
  lemma {:induction false} NoRepairAfterQuarantine(p: Progress, id: string, o: Options)
    requires R.Inv(p.store) && T.Has(p.store.objects, id) && !Intact(p.store, id)
    requires TreeRoot(p.store.objects) != p.store.manifest.rootHash
    ensures !FateOf(p, id, o).Healthy? && !FateOf(p, id, o).Repaired?
  {
    hide R.Inv, TreeRoot, Intact, R.Addressed, FindCopy, RestoreOf, QuarantineOf, K.Find;
    InvGives(p.store);
    CopyRefused(p.store, id, 0);
  }

  /** Only a copy with the right bytes is ever found. */
  lemma {:induction false} FoundIsCopy(s: Store, id: string, k: nat)
    requires k <= |s.replicas| && FindCopy(s, id, k).Some?
    ensures HasCopy(s, id)
    decreases |s.replicas| - k
  {
    hide Proves, Address;
    if id in s.replicas[k] && GoodCopy(s, id, s.replicas[k][id]) {
      assert Address(s.replicas[k][id]) == id;
    } else {
      FoundIsCopy(s, id, k + 1);
    }
  }

  /** The first `n` objects of the walk. */
  ghost function WalkedTo(s: Store, o: Options, n: nat): Progress
    requires n <= |s.objects|
  {
    ScrubAll(Begin(s), T.Keys(s.objects)[..n], o)
  }

  /** Every corrupt one of the first `n` objects has a right copy. */
  ghost predicate AllCopied(s: Store, n: nat)
    requires n <= |s.objects|
  {
    forall m: nat :: m < n ==> Intact(s, T.Keys(s.objects)[m]) || HasCopy(s, T.Keys(s.objects)[m])
  }

  /** Who is repaired: the corrupt with a right copy, until a quarantine takes the tree off the committed root. */
  ghost predicate Repairable(s: Store, o: Options, n: nat)
    requires n < |s.objects|
  {
    && !Intact(s, T.Keys(s.objects)[n]) && HasCopy(s, T.Keys(s.objects)[n])
    && (o.quarantine ==> AllCopied(s, n))
  }

  /** Trees met on the walk, and the one it starts from, are told apart by their roots. */
  ghost predicate WalkDistinct(s: Store, o: Options) {
    forall n: nat :: n <= |s.objects| ==> TreesDistinct(s, WalkedTo(s, o, n).store)
  }

  /** Who has been repaired among the first `n` objects. */
  ghost predicate RepairedAre(s: Store, o: Options, repaired: seq<string>, n: nat)
    requires n <= |s.objects|
  {
    forall k :: k in repaired <==> exists m: nat :: m < n && T.Keys(s.objects)[m] == k && Repairable(s, o, m)
  }

  /** The fate of the object whose turn it is. */
  lemma {:induction false} FateIs(s: Store, o: Options, n: nat)
    requires R.Inv(s) && o.repair && TreeRoot(s.objects) == s.manifest.rootHash && n < |s.objects|
    requires !o.quarantine || AllCopied(s, n) || TreesDistinct(s, WalkedTo(s, o, n).store)
    requires WalkedTo(s, o, n).report.unrepairable == [] <==> AllCopied(s, n)
    ensures var id, fate := T.Keys(s.objects)[n], FateOf(WalkedTo(s, o, n), T.Keys(s.objects)[n], o);
            && (fate.Healthy? <==> Intact(s, id)) && (fate.Repaired? <==> Repairable(s, o, n))
            && (fate.Gone? ==> o.quarantine) && (fate.Lost? ==> !o.quarantine)
  {
    hide R.Inv, ScrubAll, ScrubOne, IdsOf, Intact, K.Find, Entries, FindCopy, TreeRoot, R.Addressed, Address, Scrubbed;
    hide HasCopy, TreesDistinct, AllCopied;
    var ids := T.Keys(s.objects);
    var p := WalkedTo(s, o, n);
    IdsAre(s, ids);
    ScrubbedAfter(s, ids, n, o);
    StillHere(s, p, ids, n, o);
    Untouched(s, p, ids, n, o);
    InvGives(p.store);
    if FindCopy(p.store, ids[n], 0).Some? {
      FoundIsCopy(p.store, ids[n], 0);
    }
    if o.quarantine && !AllCopied(s, n) {
      var k := SomeLoss(s, p, ids, n, o);
      LossMovesTree(s, p.store, k);
      if !Intact(p.store, ids[n]) {
        NoRepairAfterQuarantine(p, ids[n], o);
      }
    } else {
      NoLoss(s, p, ids, n, o);
      TreeUnmoved(s, p, ids, n, o);
      if HasCopy(p.store, ids[n]) {
        CopyFound(p.store, ids[n]);
      }
    }
  }

  lemma {:induction false} SomeLoss(s: Store, p: Progress, ids: seq<string>, n: nat, o: Options) returns (k: string)
    requires R.Inv(s) && Scrubbed(s, p, ids, n, o) && IdsOf(s, ids) && o.quarantine && p.report.unrepairable != []
    ensures T.Has(s.objects, k) && !T.Has(p.store.objects, k)
  {
    hide R.Inv, Entries, K.Find, Intact, IdsOf;
    IdsDistinct(s, ids);
    k := p.report.unrepairable[0];
    assert k in ids[..n];
  }

  lemma {:induction false} NoLoss(s: Store, p: Progress, ids: seq<string>, n: nat, o: Options)
    requires Scrubbed(s, p, ids, n, o) && (o.quarantine ==> p.report.unrepairable == [])
    ensures p.report.quarantined == []
  {
    hide R.Inv, Entries, K.Find, Intact;
  }

  lemma {:induction false} WalkedNext(s: Store, o: Options, n: nat)
    requires n < |s.objects|
    ensures WalkedTo(s, o, n + 1) == ScrubOne(WalkedTo(s, o, n), T.Keys(s.objects)[n], o)
  {
    hide ScrubOne, ScrubAll;
    ScrubAllNext(Begin(s), T.Keys(s.objects), n, o);
  }

  lemma {:induction false} AllCopiedNext(s: Store, n: nat)
    requires n < |s.objects|
    ensures AllCopied(s, n + 1) <==>
            AllCopied(s, n) && (Intact(s, T.Keys(s.objects)[n]) || HasCopy(s, T.Keys(s.objects)[n]))
  {
    hide Intact, HasCopy, T.Keys;
  }

  /** How one object's fate enters the report. */
  lemma {:induction false} FateReport(p: Progress, id: string, o: Options)
    ensures ScrubOne(p, id, o).report.repaired == p.report.repaired + if FateOf(p, id, o).Repaired? then [id] else []
    ensures ScrubOne(p, id, o).report.unrepairable
            == p.report.unrepairable + if FateOf(p, id, o).Lost? || FateOf(p, id, o).Gone? then [id] else []
  {
    hide Intact, FindCopy, GoodCopy, RestoreOf, QuarantineOf;
  }

  /** Something is given up exactly when some corrupt object has no right copy. */
  lemma {:induction false} LossesAfter(s: Store, o: Options, n: nat)
    requires R.Inv(s) && o.repair && TreeRoot(s.objects) == s.manifest.rootHash && n <= |s.objects|
    ensures WalkedTo(s, o, n).report.unrepairable == [] <==> AllCopied(s, n)
  {
    hide R.Inv, ScrubAll, ScrubOne, Intact, TreeRoot, HasCopy, TreesDistinct, AllCopied, FateOf, T.Keys;
    if n == 0 {
      assert T.Keys(s.objects)[..0] == [];
      NothingScrubbed(s, o);
      NoneYet(s);
    } else {
      LossesAfter(s, o, n - 1);
      WalkedNext(s, o, n - 1);
      AllCopiedNext(s, n - 1);
      FateReport(WalkedTo(s, o, n - 1), T.Keys(s.objects)[n - 1], o);
      if AllCopied(s, n - 1) {
        FateIs(s, o, n - 1);
      }
    }
  }

  lemma {:induction false} RepairsAfter(s: Store, o: Options, n: nat)
    requires R.Inv(s) && o.repair && TreeRoot(s.objects) == s.manifest.rootHash && n <= |s.objects|
    requires o.quarantine ==> WalkDistinct(s, o)
    ensures RepairedAre(s, o, WalkedTo(s, o, n).report.repaired, n)
  {
    hide R.Inv, ScrubAll, ScrubOne, Intact, TreeRoot, HasCopy, TreesDistinct, AllCopied, FateOf, T.Keys, Repairable;
    if n == 0 {
      assert T.Keys(s.objects)[..0] == [];
      NothingScrubbed(s, o);
    } else {
      RepairsAfter(s, o, n - 1);
      LossesAfter(s, o, n - 1);
      FateIs(s, o, n - 1);
      WalkedNext(s, o, n - 1);
      FateReport(WalkedTo(s, o, n - 1), T.Keys(s.objects)[n - 1], o);
      var before, after, id := WalkedTo(s, o, n - 1).report, WalkedTo(s, o, n).report, T.Keys(s.objects)[n - 1];
      forall k
        ensures k in after.repaired <==> exists m: nat :: m < n && T.Keys(s.objects)[m] == k && Repairable(s, o, m)
      {
        assert k in after.repaired <==> k in before.repaired || (k == id && Repairable(s, o, n - 1));
      }
    }
  }

  lemma {:induction false} NoneYet(s: Store)
    ensures AllCopied(s, 0)
  {
  }

  /**
   The whole walk, from the committed root: a corrupt object is repaired exactly when it
   has a right copy and, with quarantining on, so has every corrupt object before it.
   One without takes the tree off the committed root, and no later copy proves itself.
   */
  lemma {:induction false} RepairedIff(s: Store, o: Options, n: nat)
    requires R.Inv(s) && o.repair && TreeRoot(s.objects) == s.manifest.rootHash
    requires (o.quarantine ==> WalkDistinct(s, o)) && n < |s.objects|
    ensures T.Keys(s.objects)[n] in Walked(s, o).report.repaired <==> Repairable(s, o, n)
  {
    hide R.Inv, ScrubAll, Intact, TreeRoot, HasCopy, TreesDistinct, AllCopied, Repairable, IdsOf, WalkDistinct;
    var ids := T.Keys(s.objects);
    RepairsAfter(s, o, |s.objects|);
    assert ids[..|s.objects|] == ids;
    IdsAre(s, ids);
    IdsDistinct(s, ids);
  }

  /** The walk gives nothing up exactly when every corrupt object has a right copy. */
  lemma {:induction false} FullRepairIff(s: Store, o: Options)
    requires R.Inv(s) && o.repair && TreeRoot(s.objects) == s.manifest.rootHash
    ensures Walked(s, o).report.unrepairable == [] <==> forall k :: T.Has(s.objects, k) ==> Intact(s, k) || HasCopy(s, k)
  {
    hide R.Inv, ScrubAll, Intact, TreeRoot, HasCopy, IdsOf;
    var ids := T.Keys(s.objects);
    LossesAfter(s, o, |s.objects|);
    assert ids[..|s.objects|] == ids;
    IdsAre(s, ids);
    IdsDistinct(s, ids);
    forall k | AllCopied(s, |s.objects|) && T.Has(s.objects, k) ensures Intact(s, k) || HasCopy(s, k) {
      var m: nat :| m < |ids| && ids[m] == k;
    }
    forall m: nat | m < |s.objects| ensures T.Has(s.objects, ids[m]) {
      assert ids[m] in ids;
    }
  }

  /** Sealing makes the manifest's root the tree's again, with every survivor intact. */
  lemma {:induction false} SealedScrub(s: Store, o: Options, signer: Option<Signer>)
    requires R.Inv(s) && o.quarantine && o.seal && ScrubOf(s, o, signer).1.Ok?
    ensures R.Inv(ScrubOf(s, o, signer).0)
    ensures forall k :: T.Has(ScrubOf(s, o, signer).0.objects, k) ==> Intact(ScrubOf(s, o, signer).0, k)
    ensures ScrubOf(s, o, signer).1.value.quarantined != [] ==>
              TreeRoot(ScrubOf(s, o, signer).0.objects) == ScrubOf(s, o, signer).0.manifest.rootHash
  {
    hide R.Inv, TreeRoot, Intact, CommitOf, Walked, K.Find;
    WalkIsSound(s, o);
    var p := Walked(s, o);
    if p.report.quarantined != [] {
      R.CommitKeepsInv(p.store, o.timestamp, signer);
      CommitEffect(p.store, o.timestamp, signer);
      var t := CommitOf(p.store, o.timestamp, signer).store;
      forall k | T.Has(t.objects, k) ensures Intact(t, k) {
        IntactSame(p.store, t, k);
      }
    }
  }

  /** A commit that succeeds leaves the objects alone and the roots agreeing. */
  lemma {:induction false} CommitEffect(s: Store, timestamp: nat, signer: Option<Signer>)
    requires R.Inv(s)
    ensures var t := CommitOf(s, timestamp, signer).store;
            t.objects == s.objects && t.disk.objects == s.disk.objects
    ensures CommitOf(s, timestamp, signer).result.Ok? ==>
              TreeRoot(s.objects) == CommitOf(s, timestamp, signer).store.manifest.rootHash
  {
    hide R.Inv, TreeRoot, ApplyAll, NextCheckpoint, PolicyHash, CommitWrites;
    if !Idle(s) {
      var n := ManifestAt(signer) + 2;
    R.InvHasHistory(s);
      var d := R.CommitDisk(s, timestamp, signer, n);
      var first := R.CommitWindow(s, timestamp, signer, 1);
      WholeCommit(s, timestamp, signer, n);
    }
  }

  lemma {:induction false} WholeCommit(s: Store, timestamp: nat, signer: Option<Signer>, n: nat)
    requires n == ManifestAt(signer) + 2
    ensures R.CommittedDisk(s, timestamp, signer, n) == ApplyAll(s.disk, CommitWrites(s, timestamp, signer))
    ensures R.WindowWrites(s, timestamp, 1) == [WriteCheckpoint(NextCheckpoint(s, timestamp))]
  {
    hide ApplyAll, NextCheckpoint, NextManifest, MarkOf;
    var ws := CommitWrites(s, timestamp, signer);
    assert ws[..n] == ws;
  }

  // ---- a rescue, end to end -----------------------------------------------

  /** A first put files the object, its sidecar, and a right copy in every replica. */
  lemma {:induction false} PutPlaces(s: Store, record: O.ObjectRecord, id: string)
    requires PutOf(s, record).result == Ok(id) && !T.Has(s.objects, id)
    ensures var t := PutOf(s, record).store;
      && T.Has(t.objects, id) && id in t.disk.sidecars && |t.replicas| == |s.replicas|
      && forall i: nat :: i < |t.replicas| ==>
           && id in t.replicas[i] && Address(t.replicas[i][id]) == id
           && forall k :: k in s.replicas[i] && k != id ==> k in t.replicas[i] && t.replicas[i][k] == s.replicas[i][k]
  {
    hide T.Put, K.Find, O.CanonicalBytes, ToHex, Stamped, ApplyAll;
    var r := Stamped(s, record);
    var bytes, meta := O.CanonicalBytes(r), Meta(O.ContentHash(r), |O.CanonicalBytes(r)|, s.manifest.highestGeneration + 1, Unsigned);
    R.TwoWrites(s.disk, id, bytes, meta);
    T.PutFind(s.objects, id, meta, id);
  }

  lemma {:induction false} SidecarsStay(d: Disk, ws: seq<Write>, n: nat, id: string)
    requires n <= |ws| && id in d.sidecars && forall i: nat :: i < |ws| ==> !ws[i].RemoveSidecar?
    ensures id in ApplyAll(d, ws[..n]).sidecars
  {
    hide ApplyAll, T.Put, T.Without, K.Find;
    if n == 0 {
      assert ws[..0] == [];
      R.ApplyNone(d);
    } else {
      SidecarsStay(d, ws, n - 1, id);
      R.ApplyPrefix(d, ws, n - 1);
    }
  }

  /** A commit leaves sidecars and replicas in place. */
  lemma {:induction false} CommitKeepsCopies(s: Store, timestamp: nat, signer: Option<Signer>, id: string)
    requires id in s.disk.sidecars
    ensures var t := CommitOf(s, timestamp, signer).store; id in t.disk.sidecars && t.replicas == s.replicas
  {
    hide ApplyAll, NextCheckpoint, NextManifest, Idle, MarkOf;
    var ws := CommitOf(s, timestamp, signer).writes;
    SidecarsStay(s.disk, ws, |ws|, id);
    assert ws[..|ws|] == ws;
  }

  /**
   An object put once, committed, and then rotted in whatever way is repaired by a scrub
   from any one of the replicas there were, whatever became of the others, when every other
   object is intact or has a right copy somewhere.
   */
  lemma {:induction false} CopiedIsRepaired(
    s: Store, record: O.ObjectRecord, id: string, timestamp: nat, signer: Option<Signer>, found: Option<seq<u8>>,
    i: nat, replicas: seq<map<string, seq<u8>>>, o: Options)
    requires R.Inv(s) && PutOf(s, record).result == Ok(id) && !T.Has(s.objects, id)
    requires CommitOf(PutOf(s, record).store, timestamp, signer).result.Ok?
    requires i < |s.replicas| && i < |replicas|
    requires replicas[i] == CommitOf(PutOf(s, record).store, timestamp, signer).store.replicas[i]
    requires o.repair
    requires var t := Struck(s, record, timestamp, signer, id, found, replicas);
      forall k :: k != id && T.Has(t.objects, k) ==> Intact(t, k) || HasCopy(t, k)
    ensures var t := Struck(s, record, timestamp, signer, id, found, replicas);
      && Walked(t, o).report.unrepairable == [] && Walked(t, o).report.quarantined == []
      && T.Has(Walked(t, o).store.objects, id) && Intact(Walked(t, o).store, id)
  {
    hide R.Inv, PutOf, CommitOf, ScrubAll, Intact, HasCopy, TreeRoot, K.Find, R.Rotten, Address, Walked;
    var put := PutOf(s, record).store;
    var sealed := CommitOf(put, timestamp, signer).store;
    var t := Struck(s, record, timestamp, signer, id, found, replicas);
    PutPlaces(s, record, id);
    PutKeepsInv(s, record);
    CommitKeepsCopies(put, timestamp, signer, id);
    CommitEffect(put, timestamp, signer);
    R.CommitKeepsInv(put, timestamp, signer);
    StruckFits(sealed, id, found, replicas);
    HasCopyAt(t, id, i);
    FullRepairIff(t, o);
    WalkIsSound(t, o);
    SurvivorIntact(t, o, id);
  }

  /** The put, the commit, the rot, and what has become of the replicas. */
  ghost function Struck(
    s: Store, record: O.ObjectRecord, timestamp: nat, signer: Option<Signer>, id: string, found: Option<seq<u8>>,
    replicas: seq<map<string, seq<u8>>>): Store
  {
    R.Rotten(CommitOf(PutOf(s, record).store, timestamp, signer).store, id, found).(replicas := replicas)
  }

  lemma {:induction false} PutKeepsInv(s: Store, record: O.ObjectRecord)
    requires R.Inv(s)
    ensures R.Inv(PutOf(s, record).store)
  {
    hide R.Inv, RestoreOf, PutOf, QuarantineOf, CommitOf;
    R.StepKeepsInv(s, R.Put(record));
  }

  lemma {:induction false} StruckFits(s: Store, id: string, found: Option<seq<u8>>, replicas: seq<map<string, seq<u8>>>)
    requires R.Inv(s) && id in s.disk.sidecars
    ensures var t := R.Rotten(s, id, found).(replicas := replicas);
      R.Inv(t) && t.objects == s.objects && t.manifest == s.manifest && t.replicas == replicas
  {
    hide RestoreOf, PutOf, QuarantineOf, CommitOf, T.Put, T.Without;
    hide R.ManifestFits, R.DiskFits, R.Honest, R.Addressed;
    R.StepKeepsInv(s, R.Rot(id, found));
  }

  lemma {:induction false} HasCopyAt(s: Store, id: string, i: nat)
    requires i < |s.replicas| && id in s.replicas[i] && Address(s.replicas[i][id]) == id
    ensures HasCopy(s, id)
  {
    hide Address;
  }

  /** What the walk does not give up is intact after it. */
  lemma {:induction false} SurvivorIntact(s: Store, o: Options, id: string)
    requires R.Inv(s) && T.Has(s.objects, id) && id !in Walked(s, o).report.unrepairable
    ensures Intact(Walked(s, o).store, id)
  {
    hide R.Inv, ScrubAll, IdsOf, Intact, K.Find, Entries;
    var ids := T.Keys(s.objects);
    IdsAre(s, ids);
    IdsDistinct(s, ids);
    ScrubbedAfter(s, ids, |ids|, o);
    assert ids[..|ids|] == ids;
    var n: nat :| n < |ids| && ids[n] == id;
  }
}
