/** `scrub` and `repair_from_replica` (src/scrub.rs): loops over ids and replicas that change the store as they go. */
module Scrubber {
  import opened Bytes
  import opened ContextStoreClass
  import opened ScrubSpec
  import opened StoreSpec
  import K = Keyed
  import S = Sha256
  import T = Tables
  import opened Wrappers

  /** Every replica in turn; the first copy that proves itself repairs the primary. */
  method RepairFromReplica(store: ContextStore, id: string) returns (repaired: bool)
    modifies store
    ensures var copy := FindCopy(old(store.State()), id, 0);
            && repaired == copy.Some?
            && store.State() == if copy.Some? then RestoreOf(old(store.State()), id, copy.value).store
                                else old(store.State())
  {
    hide RestoreOf, GoodCopy;
    var k := 0;
    while k < |store.replicas|
      invariant k <= |store.replicas| && store.State() == old(store.State())
      invariant FindCopy(store.State(), id, k) == FindCopy(store.State(), id, 0)
    {
      if id in store.replicas[k] {
        var bytes := store.replicas[k][id];
        var good := Trusted(store, id, bytes);
        if good {
          var done := store.RestoreObject(id, bytes);
          return true;
        }
      }
      k := k + 1;
    }
    repaired := false;
  }

  /** Two independent checks: the bytes are what the address means, and the committed root vouches for the pair. */
  method Trusted(store: ContextStore, id: string, bytes: seq<u8>) returns (good: bool)
    ensures good == GoodCopy(store.State(), id, bytes)
  {
    hide Proves, ToHex;
    var hash := S.SHA256(bytes);
    good := ToHex(hash) == id && Proves(
      Store(store.disk, store.manifest, store.objects, store.checkpoints, store.pending, store.replicas,
            store.requireSignature), id, hash);
  }

  /** One object. */
  method ScrubObject(store: ContextStore, id: string, o: Options, before: Report) returns (report: Report)
    modifies store
    ensures Progress(store.State(), report) == ScrubOne(Progress(old(store.State()), before), id, o)
  {
    hide RestoreOf, QuarantineOf, FindCopy, GoodCopy, K.Find, Address;
    report := before.(checked := before.checked + 1);
    var found := K.Find(store.disk.objects, id);
    if found.Some? && Address(found.value) == id {
      report := report.(healthy := report.healthy + 1);
      return;
    }
    report := report.(corrupt := report.corrupt + [id]);
    if o.repair {
      var repaired := RepairFromReplica(store, id);
      if repaired {
        report := report.(repaired := report.repaired + [id]);
        return;
      }
    }
    report := report.(unrepairable := report.unrepairable + [id]);
    if o.quarantine {
      store.Quarantine(id, REASON);
      report := report.(quarantined := report.quarantined + [id]);
    }
  }

  method Scrub(store: ContextStore, o: Options, signer: Option<Signer>) returns (r: Result<Report, StoreError>)
    modifies store
    ensures store.State() == ScrubOf(old(store.State()), o, signer).0
    ensures r == ScrubOf(old(store.State()), o, signer).1
  {
    hide ScrubOne, CommitOf;
    var report := Report(0, 0, [], [], [], [], |store.replicas|, None);
    var ids := T.Keys(store.objects);
    NothingScrubbed(store.State(), o);
    assert ids[..0] == [];
    for n := 0 to |ids|
      invariant Progress(store.State(), report) == ScrubAll(Begin(old(store.State())), ids[..n], o)
    {
      ScrubAllNext(Begin(old(store.State())), ids, n, o);
      report := ScrubObject(store, ids[n], o, report);
    }
    assert ids[..|ids|] == ids;
    if o.seal && report.quarantined != [] {
      var sealed := store.Commit(o.timestamp, signer);
      if sealed.Err? {
        return Err(sealed.error);
      }
      report := report.(sealed := Some(sealed.value.generation));
    }
    r := Ok(report);
  }
}
