/** The pending ("optimistic") layer: batches of row updates, each tagged
    with the mutation that produced it, kept in the order they were pushed. */
module PendingLayer {
  import opened KeyedSeq
  import opened AppData

  /** One speculative mutation: its row updates, in order, and its id. */
  datatype Batch = Batch(updates: seq<RowUpdate>, mutationId: MutationId)

  function BatchId(b: Batch): MutationId { b.mutationId }

  /** `commitMutations`: the batches whose id is not among `ids`. */
  function Commit(pending: seq<Batch>, ids: seq<MutationId>): (r: seq<Batch>)
    ensures forall b :: b in r <==> b in pending && b.mutationId !in ids
    ensures (forall i :: 0 <= i < |pending| ==> pending[i].mutationId !in ids) ==> r == pending
  {
    Without(pending, BatchId, set id | id in ids)
  }

  /** `rejectMutation`: the batches whose id is not `id`. */
  function Reject(pending: seq<Batch>, id: MutationId): (r: seq<Batch>)
    ensures forall b :: b in r <==> b in pending && b.mutationId != id
    ensures (forall i :: 0 <= i < |pending| ==> pending[i].mutationId != id) ==> r == pending
  {
    Without(pending, BatchId, {id})
  }

  /** Commit keeps the survivors in push order: it distributes over
      concatenation and keeps or drops a single batch by its id. */
  lemma CommitKeepsOrder(a: seq<Batch>, b: seq<Batch>, ids: seq<MutationId>)
    ensures Commit(a + b, ids) == Commit(a, ids) + Commit(b, ids)
    ensures forall x: Batch :: Commit([x], ids) == if x.mutationId in ids then [] else [x]
  {
    WithoutAppend(a, b, BatchId, set id | id in ids);
    forall x: Batch ensures Commit([x], ids) == if x.mutationId in ids then [] else [x] {
      assert [x][1..] == [];
    }
  }

  /** Rejecting a mutation is committing just that one id. */
  lemma RejectIsCommitOfOne(pending: seq<Batch>, id: MutationId)
    ensures Reject(pending, id) == Commit(pending, [id])
  {
    assert (set x | x in [id]) == {id};
  }

  /** Committing the same ids again changes nothing. */
  lemma CommitIdempotent(pending: seq<Batch>, ids: seq<MutationId>)
    ensures Commit(Commit(pending, ids), ids) == Commit(pending, ids)
  {
  }

  /** Rejecting the same id again changes nothing. */
  lemma RejectIdempotent(pending: seq<Batch>, id: MutationId)
    ensures Reject(Reject(pending, id), id) == Reject(pending, id)
  {
  }

  /** Pushing a batch under a fresh id and rejecting that id gives back the
      pending list as it was. */
  lemma RejectUndoesPush(pending: seq<Batch>, updates: seq<RowUpdate>, m: MutationId)
    requires forall b :: b in pending ==> b.mutationId != m
    ensures Reject(pending + [Batch(updates, m)], m) == pending
  {
    WithoutAppend(pending, [Batch(updates, m)], BatchId, {m});
    assert Without([Batch(updates, m)], BatchId, {m}) == [];
    assert forall i :: 0 <= i < |pending| ==> pending[i] in pending;
  }
}
