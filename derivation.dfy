/** The effective snapshot (`store` / `getFullData`): the committed snapshot
    with every pending batch replayed over it, batches in push order and the
    updates of a batch in list order. */
module Derivation {
  import opened KeyedSeq
  import opened AppData
  import opened RowUpdates
  import opened PendingLayer

  /** The left fold of `ApplyUpdate` over `us`. */
  function ApplyAll(d: StoreData, us: seq<RowUpdate>): StoreData
    decreases |us|
  {
    if us == [] then d else ApplyUpdate(ApplyAll(d, us[..|us| - 1]), us[|us| - 1])
  }

  /** Replays `bs` batch by batch over `d`, as the two nested loops do. */
  function Replay(d: StoreData, bs: seq<Batch>): StoreData
    decreases |bs|
  {
    if bs == [] then d else ApplyAll(Replay(d, bs[..|bs| - 1]), bs[|bs| - 1].updates)
  }

  /** All updates of `bs`, batch after batch. */
  function Flatten(bs: seq<Batch>): seq<RowUpdate>
    decreases |bs|
  {
    if bs == [] then [] else Flatten(bs[..|bs| - 1]) + bs[|bs| - 1].updates
  }

  /** The effective snapshot: absent exactly while the committed one is,
      whatever is pending, and the committed one when nothing is pending. */
  function Effective(gold: Option<StoreData>, pending: seq<Batch>): (r: Option<StoreData>)
    ensures r.Some? <==> gold.Some?
    ensures pending == [] ==> r == gold
  {
    match gold
    case None => None
    case Some(g) => Some(Replay(g, pending))
  }

  lemma {:induction false} ApplyAllAppend(d: StoreData, a: seq<RowUpdate>, b: seq<RowUpdate>)
    ensures ApplyAll(d, a + b) == ApplyAll(ApplyAll(d, a), b)
    decreases |b|
  {
    if b == [] {
      assert a + b == a;
    } else {
      assert (a + b)[..|a + b| - 1] == a + b[..|b| - 1];
      ApplyAllAppend(d, a, b[..|b| - 1]);
    }
  }

  /** Replaying batch by batch is folding over all their updates in one list. */
  lemma {:induction false} ReplayIsFoldOfFlatten(d: StoreData, bs: seq<Batch>)
    ensures Replay(d, bs) == ApplyAll(d, Flatten(bs))
    decreases |bs|
  {
    if bs != [] {
      ReplayIsFoldOfFlatten(d, bs[..|bs| - 1]);
      ApplyAllAppend(d, Flatten(bs[..|bs| - 1]), bs[|bs| - 1].updates);
    }
  }

  lemma {:induction false} ReplayAppend(d: StoreData, a: seq<Batch>, b: seq<Batch>)
    ensures Replay(d, a + b) == Replay(Replay(d, a), b)
    decreases |b|
  {
    if b == [] {
      assert a + b == a;
    } else {
      assert (a + b)[..|a + b| - 1] == a + b[..|b| - 1];
      ReplayAppend(d, a, b[..|b| - 1]);
    }
  }

  /** The row of the last `user` update in `us`, if there is one. */
  function LastUser(us: seq<RowUpdate>): Option<User>
    decreases |us|
  {
    if us == [] then None
    else if us[|us| - 1].row.UserRow? then Some(us[|us| - 1].row.user)
    else LastUser(us[..|us| - 1])
  }

  /** After a fold the user slot holds the last user row written, or the
      starting user when no update wrote one. */
  lemma {:induction false} LastUserWins(d: StoreData, us: seq<RowUpdate>)
    ensures ApplyAll(d, us).user == if LastUser(us).Some? then LastUser(us) else d.user
    decreases |us|
  {
    if us != [] {
      LastUserWins(d, us[..|us| - 1]);
    }
  }

  lemma {:induction false} AgreeOffWriteFold(a: StoreData, b: StoreData, later: RowUpdate,
                                             us: seq<RowUpdate>)
    requires AgreeOffWrite(a, b, later)
    ensures AgreeOffWrite(ApplyAll(a, us), ApplyAll(b, us), later)
    decreases |us|
  {
    if us != [] {
      AgreeOffWriteFold(a, b, later, us[..|us| - 1]);
      AgreeOffWriteStep(ApplyAll(a, us[..|us| - 1]), ApplyAll(b, us[..|us| - 1]), later, us[|us| - 1]);
    }
  }

  /** Last write wins across any updates in between: an update overridden by
      a later one (a later user row, a later delete of its key, a later
      update after an update of its key) leaves no trace, whatever was
      applied between the two. */
  lemma LaterWriteWinsAcross(d: StoreData, earlier: RowUpdate, mid: seq<RowUpdate>, later: RowUpdate)
    requires Overrides(earlier, later)
    ensures ApplyAll(ApplyUpdate(d, earlier), mid + [later]) == ApplyAll(d, mid + [later])
  {
    AgreeOffWriteStart(d, earlier, later);
    AgreeOffWriteFold(ApplyUpdate(d, earlier), d, later, mid);
    AgreeOffWriteFinish(ApplyAll(ApplyUpdate(d, earlier), mid), ApplyAll(d, mid), later);
    assert (mid + [later])[..|mid|] == mid;
  }

  /** Pushing a batch under a fresh id and rejecting it leaves the effective
      snapshot as it was before the push. */
  lemma PushThenRejectRestoresView(gold: Option<StoreData>, pending: seq<Batch>,
                                   updates: seq<RowUpdate>, m: MutationId)
    requires forall b :: b in pending ==> b.mutationId != m
    ensures Effective(gold, Reject(pending + [Batch(updates, m)], m)) == Effective(gold, pending)
  {
    RejectUndoesPush(pending, updates, m);
  }

  lemma ReplayOne(d: StoreData, b: Batch)
    ensures Replay(d, [b]) == ApplyAll(d, b.updates)
  {
  }

  lemma ApplyAllOne(d: StoreData, u: RowUpdate)
    ensures ApplyAll(d, [u]) == ApplyUpdate(d, u)
  {
  }

  /** Replaying two one-update batches applies their two updates in order. */
  lemma ReplayTwo(d: StoreData, b1: Batch, b2: Batch)
    requires |b1.updates| == 1 && |b2.updates| == 1
    ensures Replay(d, [b1, b2]) == ApplyUpdate(ApplyUpdate(d, b1.updates[0]), b2.updates[0])
  {
    ReplayAppend(d, [b1], [b2]);
    assert [b1] + [b2] == [b1, b2];
    ReplayOne(d, b1);
    ReplayOne(Replay(d, [b1]), b2);
    assert b1.updates == [b1.updates[0]] && b2.updates == [b2.updates[0]];
    ApplyAllOne(d, b1.updates[0]);
    ApplyAllOne(ApplyUpdate(d, b1.updates[0]), b2.updates[0]);
  }

  /** Committing the oldest pending batch once its updates have reached the
      committed snapshot leaves the effective snapshot unchanged. */
  lemma CommitIsInvisible(g: StoreData, b: Batch, rest: seq<Batch>)
    requires forall x :: x in rest ==> x.mutationId != b.mutationId
    ensures Effective(Some(ApplyAll(g, b.updates)), Commit([b] + rest, [b.mutationId]))
         == Effective(Some(g), [b] + rest)
  {
    var ids := [b.mutationId];
    CommitKeepsOrder([b], rest, ids);
    assert forall i :: 0 <= i < |rest| ==> rest[i] in rest;
    assert Commit(rest, ids) == rest;
    assert Commit([b] + rest, ids) == rest;
    ReplayAppend(g, [b], rest);
    ReplayOne(g, b);
  }

  /** Two adjacent one-update batches whose updates are independent can be
      pushed in either order. */
  lemma IndependentBatchesCommute(g: StoreData, before: seq<Batch>, b1: Batch, b2: Batch,
                                  after: seq<Batch>)
    requires |b1.updates| == 1 && |b2.updates| == 1
    requires Independent(b1.updates[0], b2.updates[0])
    ensures Effective(Some(g), before + [b1, b2] + after) == Effective(Some(g), before + [b2, b1] + after)
  {
    var d := Replay(g, before);
    ReplayAppend(g, before + [b1, b2], after);
    ReplayAppend(g, before + [b2, b1], after);
    ReplayAppend(g, before, [b1, b2]);
    ReplayAppend(g, before, [b2, b1]);
    ReplayTwo(d, b1, b2);
    ReplayTwo(d, b2, b1);
    IndependentUpdatesCommute(d, b1.updates[0], b2.updates[0]);
  }

  /** The step of `LaterBatchWins` that starts right at the overridden batch. */
  lemma ReplayPastOverride(d: StoreData, b1: Batch, mid: seq<Batch>, b2: Batch)
    requires |b1.updates| == 1 && |b2.updates| >= 1
    requires Overrides(b1.updates[0], b2.updates[|b2.updates| - 1])
    ensures Replay(d, [b1] + (mid + [b2])) == Replay(d, mid + [b2])
  {
    var e := b1.updates[0];
    var n := |b2.updates|;
    var between := Flatten(mid) + b2.updates[..n - 1];
    ReplayAppend(d, [b1], mid + [b2]);
    ReplayOne(d, b1);
    assert b1.updates == [e];
    ApplyAllOne(d, e);
    ReplayIsFoldOfFlatten(ApplyUpdate(d, e), mid + [b2]);
    ReplayIsFoldOfFlatten(d, mid + [b2]);
    assert (mid + [b2])[..|mid|] == mid;
    assert Flatten(mid + [b2]) == between + [b2.updates[n - 1]];
    LaterWriteWinsAcross(d, e, between, b2.updates[n - 1]);
  }

  /** Writing more updates at the end of the last batch is applying them to
      the replay of the shorter batch. */
  lemma ReplayExtendLast(d: StoreData, bs: seq<Batch>, b: Batch, tail: seq<RowUpdate>)
    ensures Replay(d, bs + [Batch(b.updates + tail, b.mutationId)]) == ApplyAll(Replay(d, bs + [b]), tail)
  {
    var longer := Batch(b.updates + tail, b.mutationId);
    assert (bs + [longer])[..|bs|] == bs;
    assert (bs + [b])[..|bs|] == bs;
    ApplyAllAppend(Replay(d, bs), b.updates, tail);
  }

  /** `ReplayPastOverride` where the overriding update sits anywhere in `b2`. */
  lemma ReplayPastOverrideAt(d: StoreData, b1: Batch, mid: seq<Batch>, b2: Batch, j: nat)
    requires |b1.updates| == 1 && j < |b2.updates|
    requires Overrides(b1.updates[0], b2.updates[j])
    ensures Replay(d, [b1] + mid + [b2]) == Replay(d, mid + [b2])
  {
    var upTo := Batch(b2.updates[..j + 1], b2.mutationId);
    var tail := b2.updates[j + 1..];
    assert b2 == Batch(upTo.updates + tail, upTo.mutationId);
    ReplayPastOverride(d, b1, mid, upTo);
    assert [b1] + (mid + [upTo]) == [b1] + mid + [upTo];
    ReplayExtendLast(d, [b1] + mid, upTo, tail);
    ReplayExtendLast(d, mid, upTo, tail);
  }

  /** A one-update batch is invisible once any later batch holds an update
      that overrides it (last write wins), whatever is pending in between and
      whatever that batch writes after the overriding update. */
  lemma LaterBatchWins(g: StoreData, before: seq<Batch>, b1: Batch, mid: seq<Batch>, b2: Batch,
                       j: nat, after: seq<Batch>)
    requires |b1.updates| == 1 && j < |b2.updates|
    requires Overrides(b1.updates[0], b2.updates[j])
    ensures Effective(Some(g), before + [b1] + mid + [b2] + after)
         == Effective(Some(g), before + mid + [b2] + after)
  {
    assert before + [b1] + mid + [b2] + after == before + ([b1] + mid + [b2]) + after;
    assert before + mid + [b2] + after == before + (mid + [b2]) + after;
    ReplayAppend(g, before + ([b1] + mid + [b2]), after);
    ReplayAppend(g, before + (mid + [b2]), after);
    ReplayAppend(g, before, [b1] + mid + [b2]);
    ReplayAppend(g, before, mid + [b2]);
    ReplayPastOverrideAt(Replay(g, before), b1, mid, b2, j);
  }

  /** Commit is invisible only for the oldest batch: folding a newer batch's
      update into the committed snapshot and committing it lets an older
      pending update of the same file show through again. */
  lemma CommitOfNewerBatchIsVisible(g: StoreData, older: Batch, newer: Batch, x: File, y: File)
    requires HasKey(g.files, FileKey, x.id) && x.id == y.id && x != y
    requires older.updates == [RowUpdate(Update, FileRow(x))]
    requires newer.updates == [RowUpdate(Update, FileRow(y))]
    requires older.mutationId != newer.mutationId
    ensures Effective(Some(ApplyAll(g, newer.updates)), Commit([older, newer], [newer.mutationId]))
         != Effective(Some(g), [older, newer])
  {
    CommitNewerLeavesOlder(older, newer);
    ReplayOne(ApplyAll(g, newer.updates), older);
    ApplyAllOne(ApplyAll(g, newer.updates), older.updates[0]);
    ApplyAllOne(g, newer.updates[0]);
    ReplayTwo(g, older, newer);
    UpdatesOfOneFileDoNotCommute(g, x, y);
  }

  lemma CommitNewerLeavesOlder(older: Batch, newer: Batch)
    requires older.mutationId != newer.mutationId
    ensures Commit([older, newer], [newer.mutationId]) == [older]
  {
    CommitKeepsOrder([older], [newer], [newer.mutationId]);
    assert [older] + [newer] == [older, newer];
  }

}
