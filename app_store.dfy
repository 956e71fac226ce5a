/** `OptimisticAppStore`: a committed ("gold") snapshot, absent until the
    store is initialized, and an ordered list of pending optimistic batches;
    readers see the committed snapshot with the pending batches replayed. */
module AppStore {
  import opened AppData
  import opened RowUpdates
  import opened PendingLayer
  import opened Derivation

  class OptimisticAppStore {
    /** The committed snapshot, `None` until `Initialize`. */
    var goldStore: Option<StoreData>
    /** The pending batches, oldest first. */
    var optimisticStore: seq<Batch>

    constructor ()
      ensures goldStore == None && optimisticStore == []
    {
      goldStore := None;
      optimisticStore := [];
    }

    /** Sets the committed snapshot, overwriting any earlier one. */
    method Initialize(data: StoreData)
      modifies this`goldStore
      ensures goldStore == Some(data)
      ensures optimisticStore == old(optimisticStore)
    {
      goldStore := Some(data);
    }

    /** The derived `store`: replays every pending update, batch by batch,
        over the committed snapshot. */
    method Store() returns (r: Option<StoreData>)
      ensures r == Effective(goldStore, optimisticStore)
    {
      if goldStore.None? {
        return None;
      }
      var gold := goldStore.value;
      var optimistic := optimisticStore;
      var data := gold;
      for i := 0 to |optimistic|
        invariant data == Replay(gold, optimistic[..i])
      {
        var updates := optimistic[i].updates;
        for j := 0 to |updates|
          invariant data == ApplyAll(Replay(gold, optimistic[..i]), updates[..j])
        {
          assert updates[..j + 1][..j] == updates[..j];
          data := ApplyUpdate(data, updates[j]);
        }
        assert updates[..|updates|] == updates;
        assert optimistic[..i + 1][..i] == optimistic[..i];
      }
      assert optimistic[..|optimistic|] == optimistic;
      return Some(data);
    }

    method GetCommittedData() returns (r: Option<StoreData>)
      ensures r == goldStore
    {
      r := goldStore;
    }

    /** Applies a confirmed update to the committed snapshot; does nothing
        while there is none. */
    method UpdateCommittedData(u: RowUpdate)
      modifies this`goldStore
      ensures old(goldStore).None? ==> goldStore == None
      ensures old(goldStore).Some? ==> goldStore == Some(ApplyUpdate(old(goldStore).value, u))
      ensures optimisticStore == old(optimisticStore)
    {
      if goldStore.Some? {
        goldStore := Some(ApplyUpdate(goldStore.value, u));
      }
    }

    method GetFullData() returns (r: Option<StoreData>)
      ensures r == Effective(goldStore, optimisticStore)
    {
      r := Store();
    }

    /** Pushes one batch at the end of the pending list. */
    method UpdateOptimisticData(updates: seq<RowUpdate>, mutationId: MutationId)
      modifies this`optimisticStore
      ensures optimisticStore == old(optimisticStore) + [Batch(updates, mutationId)]
      ensures goldStore == old(goldStore)
    {
      optimisticStore := optimisticStore + [Batch(updates, mutationId)];
    }

    /** Drops every pending batch whose id is among `mutationIds`. */
    method CommitMutations(mutationIds: seq<MutationId>)
      modifies this`optimisticStore
      ensures optimisticStore == Commit(old(optimisticStore), mutationIds)
      ensures goldStore == old(goldStore)
    {
      optimisticStore := Commit(optimisticStore, mutationIds);
    }

    /** Drops every pending batch with id `mutationId`. */
    method RejectMutation(mutationId: MutationId)
      modifies this`optimisticStore
      ensures optimisticStore == Reject(old(optimisticStore), mutationId)
      ensures goldStore == old(goldStore)
    {
      optimisticStore := Reject(optimisticStore, mutationId);
    }
  }

  /** A client: on a store with nothing pending, pushing a batch
      under a fresh id and rejecting it leaves the full data equal to the
      committed data, and the store as it was. */
  method PushThenReject(store: OptimisticAppStore, updates: seq<RowUpdate>, m: MutationId)
    returns (full: Option<StoreData>, committed: Option<StoreData>)
    requires store.optimisticStore == []
    modifies store
    ensures full == committed == old(store.goldStore)
    ensures store.goldStore == old(store.goldStore) && store.optimisticStore == []
  {
    store.UpdateOptimisticData(updates, m);
    store.RejectMutation(m);
    RejectUndoesPush([], updates, m);
    full := store.GetFullData();
    committed := store.GetCommittedData();
  }

  /** A client session: an optimistic insert is visible at once, its
      confirmation and commit leave nothing to flicker, and a rejected rename
      disappears again. */
  method InsertCommitRejectSession() {
    var store := new OptimisticAppStore();
    var f1 := File("f1", "A");
    var renamed := File("f1", "B");
    var none := store.GetFullData();
    assert none == None;

    store.Initialize(StoreData(None, [], []));
    store.UpdateOptimisticData([RowUpdate(Insert, FileRow(f1))], "m1");
    var full := store.GetFullData();
    var committed := store.GetCommittedData();
    ReplayOne(StoreData(None, [], []), Batch([RowUpdate(Insert, FileRow(f1))], "m1"));
    ApplyAllOne(StoreData(None, [], []), RowUpdate(Insert, FileRow(f1)));
    assert full == Some(StoreData(None, [f1], []));
    assert committed == Some(StoreData(None, [], []));

    store.UpdateCommittedData(RowUpdate(Insert, FileRow(f1)));
    store.CommitMutations(["m1"]);
    assert store.optimisticStore == [];
    full := store.GetFullData();
    committed := store.GetCommittedData();
    assert full == committed == Some(StoreData(None, [f1], []));

    store.UpdateOptimisticData([RowUpdate(Update, FileRow(renamed))], "m2");
    store.RejectMutation("m2");
    RejectUndoesPush([], [RowUpdate(Update, FileRow(renamed))], "m2");
    full := store.GetFullData();
    assert full == Some(StoreData(None, [f1], []));
  }
}
