# OptimisticAppStore, modelled in Dafny

A model of the client-side optimistic store in
`packages/dotcom-shared/src/OptimisticAppStore.ts`. The store holds:

- a committed ("gold") snapshot of the user, files and file states, absent
  until `initialize`;
- an ordered list of pending optimistic batches, each a list of row updates
  tagged with a mutation id.

Readers see the effective snapshot: the committed snapshot with every pending
update replayed over it by `applyUpdate`. Batches are replayed in push order,
and the updates of a batch in list order.

Layout, leaves first:

- `keyed_seq.dfy`, module `KeyedSeq`: the two list operations the store uses.
  `Without` is an order-preserving filter by key; `Replace` replaces every
  entry that carries a given key. Both are generic in the row type and the key.
- `app_data.dfy`, module `AppData`: users, files, file states, `Table`,
  `Event`, `RowUpdate` and the snapshot `StoreData`. A row keeps only its key
  fields plus an opaque payload. Files are keyed by `id`; file states by
  `(fileId, userId)`.
- `row_updates.dfy`, module `RowUpdates`: `applyUpdate` as the function
  `ApplyUpdate`, with lemmas on key uniqueness, last-write-wins and which
  updates commute.
- `pending_layer.dfy`, module `PendingLayer`: batches, `Commit` and `Reject`.
- `derivation.dfy`, module `Derivation`: the fold over pending batches
  (`Replay`), the effective snapshot (`Effective`), and what commit, reject and
  push order do to it.
- `app_store.dfy`, module `AppStore`: the class `OptimisticAppStore`. Its
  fields `goldStore` and `optimisticStore` are updated in place by its
  methods. Its method `Store` runs the two nested loops of the derived `store`
  and is proved equal to `Effective`. Two client methods show the class
  contracts composing.

A `RowUpdate` is `RowUpdate(event, row)`. The constructor of `row`
(`UserRow`, `FileRow`, `FileStateRow`) is the table, and `table()` reads it
back. So a table outside the three, or a row of the wrong table, cannot be
written down. `Event` has exactly `Insert`, `Update` and `Delete`. The
`assert`s of the source can therefore never fail in the model, and their
branches have no counterpart.

Behaviour of the code worth noting:

- Rejecting an id removes every pending batch with that id, not a single one.
- Two inserts into the same table do not commute, even on different keys:
  the list records the append order. So pushes on disjoint keys commute only
  when they are not both inserts (`RowUpdates.InsertsDoNotCommute`,
  `RowUpdates.IndependentUpdatesCommute`).
- A `user` row replaces the user slot for every event, `delete` included. The
  model keeps this.
- Unique keys are not enforced. An insert of a present key creates a
  duplicate, and an update or delete of a missing key changes nothing.
  `RowUpdates.ApplyUpdateKeepsWellKeyed` states exactly when uniqueness
  survives.
- Committing a batch leaves the view unchanged only for the OLDEST pending
  batch. If a newer batch's update is folded into the committed snapshot and
  that batch is committed while an older batch still updates the same file,
  the older update shows through again (`Derivation.CommitIsInvisible`,
  `Derivation.CommitOfNewerBatchIsVisible`).

## Model

| member | source | states |
|---|---|---|
| KeyedSeq.Without | packages/dotcom-shared/src/OptimisticAppStore.ts:82-86 | the result holds exactly the entries whose key is not dropped; it is never longer; with nothing to drop it is the input unchanged |
| KeyedSeq.Replace | packages/dotcom-shared/src/OptimisticAppStore.ts:87-91 | same length and same keys position by position; exactly the entries with the row's key become the row, all others are untouched |
| KeyedSeq.WithoutAppend | packages/dotcom-shared/src/OptimisticAppStore.ts:85 | filtering distributes over concatenation, so survivors keep their relative order |
| KeyedSeq.WithoutWithout | packages/dotcom-shared/src/OptimisticAppStore.ts:106 | two filters in a row are one filter by the union of keys: filters commute and repeating one changes nothing |
| KeyedSeq.WithoutReplace | packages/dotcom-shared/src/OptimisticAppStore.ts:83-91 | a delete after a replace undoes the replace on the same key and commutes with it on another key |
| KeyedSeq.ReplaceReplace | packages/dotcom-shared/src/OptimisticAppStore.ts:87-91 | of two replaces on one key the later wins; on different keys they commute |
| KeyedSeq.WithoutKeepsUniqueKeys | packages/dotcom-shared/src/OptimisticAppStore.ts:82-86 | deleting never creates a duplicate key |
| KeyedSeq.AppendUniqueKeys | packages/dotcom-shared/src/OptimisticAppStore.ts:92-97 | appending a row keeps keys unique if and only if its key was absent |
| RowUpdates.ApplyKeyed | packages/dotcom-shared/src/OptimisticAppStore.ts:82-97 | delete keeps exactly the entries with another key; update keeps the length and turns exactly the matching entries into the row; insert appends the row last; delete and update of a missing key are no-ops |
| RowUpdates.ApplyUpdate | packages/dotcom-shared/src/OptimisticAppStore.ts:76-125 | a user row fills the user slot for every event, delete included, and changes nothing else; file rows change only the files, by id; file-state rows change only the file states, by file id and user id together |
| RowUpdates.FileStateMatchNeedsBothIds | packages/dotcom-shared/src/OptimisticAppStore.ts:103-117 | a file state that matches the row on only one of the two ids survives a delete and is untouched by an update |
| RowUpdates.ApplyUpdateKeepsWellKeyed | packages/dotcom-shared/src/OptimisticAppStore.ts:76-125 | on a snapshot with unique keys, an update keeps keys unique if and only if it is not an insert of a key already present |
| RowUpdates.LaterWriteWins | packages/dotcom-shared/src/OptimisticAppStore.ts:76-125 | last write wins for an immediately following update: a later user row, a later delete of the same key, or a later update after an update of the same key erases the earlier update |
| RowUpdates.AgreeOffWriteStep | packages/dotcom-shared/src/OptimisticAppStore.ts:76-125 | two snapshots that differ only in what a later overriding update will overwrite (the user slot, or the entries of its key) still differ only there after any further update is applied to both |
| RowUpdates.AgreeOffWriteFinish | packages/dotcom-shared/src/OptimisticAppStore.ts:76-125 | applying the overriding update (a user row, a delete, or an update) to two such snapshots makes them equal |
| RowUpdates.IndependentUpdatesCommute | packages/dotcom-shared/src/OptimisticAppStore.ts:76-125 | updates on different tables, or on different keys that are not both inserts, give the same snapshot in either order |
| RowUpdates.InsertsDoNotCommute | packages/dotcom-shared/src/OptimisticAppStore.ts:92-97 | two different inserted files end up in the order they were inserted, so swapping the inserts changes the snapshot |
| RowUpdates.UpdatesOfOneFileDoNotCommute | packages/dotcom-shared/src/OptimisticAppStore.ts:88-91 | two different updates of a present file give different snapshots in the two orders: the one applied last stays |
| RowUpdates.InsertDeleteOrderMatters | packages/dotcom-shared/src/OptimisticAppStore.ts:82-97 | for a new file, insert then delete restores the files; delete then insert leaves the file appended |
| PendingLayer.Commit | packages/dotcom-shared/src/OptimisticAppStore.ts:58-65 | keeps exactly the batches whose id is not among the ids; unknown ids leave the list unchanged |
| PendingLayer.Reject | packages/dotcom-shared/src/OptimisticAppStore.ts:67-74 | keeps exactly the batches whose id differs; an unknown id leaves the list unchanged |
| PendingLayer.CommitKeepsOrder | packages/dotcom-shared/src/OptimisticAppStore.ts:61-63 | commit distributes over concatenation and keeps or drops a single batch by its id, so the survivors stay in push order |
| PendingLayer.RejectIsCommitOfOne | packages/dotcom-shared/src/OptimisticAppStore.ts:58-74 | rejecting an id is committing the one-element id list |
| PendingLayer.CommitIdempotent | packages/dotcom-shared/src/OptimisticAppStore.ts:58-65 | committing the same ids twice is committing them once |
| PendingLayer.RejectIdempotent | packages/dotcom-shared/src/OptimisticAppStore.ts:67-74 | rejecting the same id twice is rejecting it once |
| PendingLayer.RejectUndoesPush | packages/dotcom-shared/src/OptimisticAppStore.ts:51-74 | pushing a batch under a fresh id and rejecting that id gives back the pending list as it was |
| Derivation.Effective | packages/dotcom-shared/src/OptimisticAppStore.ts:23-34 | the effective snapshot is absent exactly when the committed one is, whatever is pending, and equals the committed one when nothing is pending; otherwise it is `Replay`, the batch-by-batch fold of `ApplyAll` (the left fold of `ApplyUpdate`), whose properties are the Derivation lemmas below |
| Derivation.ApplyAllAppend | packages/dotcom-shared/src/OptimisticAppStore.ts:28-32 | folding over two update lists in sequence is folding over their concatenation |
| Derivation.ReplayIsFoldOfFlatten | packages/dotcom-shared/src/OptimisticAppStore.ts:28-32 | replaying batch by batch equals the left fold of ApplyUpdate over all batches' updates concatenated in push order |
| Derivation.LaterWriteWinsAcross | packages/dotcom-shared/src/OptimisticAppStore.ts:28-32 | last write wins across any updates in between: an update overridden by a later one leaves the fold unchanged whatever is applied between the two |
| Derivation.LastUserWins | packages/dotcom-shared/src/OptimisticAppStore.ts:28-32 | after replay the user slot holds the last user row written, or the starting user if no update wrote one |
| Derivation.PushThenRejectRestoresView | packages/dotcom-shared/src/OptimisticAppStore.ts:51-74 | pushing a batch under a fresh id and rejecting it leaves the effective snapshot as before the push |
| Derivation.CommitIsInvisible | packages/dotcom-shared/src/OptimisticAppStore.ts:40-65 | when the oldest batch's updates have been applied to the committed snapshot, committing that batch leaves the effective snapshot unchanged |
| Derivation.CommitOfNewerBatchIsVisible | packages/dotcom-shared/src/OptimisticAppStore.ts:40-65 | folding a newer batch's file update into the committed snapshot and committing that batch changes the effective snapshot when an older pending batch updates the same file differently |
| Derivation.IndependentBatchesCommute | packages/dotcom-shared/src/OptimisticAppStore.ts:23-34 | two adjacent one-update batches with independent updates give the same effective snapshot in either push order |
| Derivation.LaterBatchWins | packages/dotcom-shared/src/OptimisticAppStore.ts:23-34 | a one-update batch is invisible in the effective snapshot once a later batch, anywhere after it, holds an update that overrides it, wherever that update sits in the batch and whatever the batch writes after it |
| AppStore.OptimisticAppStore.constructor | packages/dotcom-shared/src/OptimisticAppStore.ts:8-17 | a new store has no committed snapshot and nothing pending |
| AppStore.OptimisticAppStore.Initialize | packages/dotcom-shared/src/OptimisticAppStore.ts:19-21 | the committed snapshot becomes the given data, overwriting any earlier one; the pending list is untouched |
| AppStore.OptimisticAppStore.Store | packages/dotcom-shared/src/OptimisticAppStore.ts:23-34 | the nested loops return the effective snapshot of the current fields |
| AppStore.OptimisticAppStore.GetCommittedData | packages/dotcom-shared/src/OptimisticAppStore.ts:36-38 | returns the committed snapshot |
| AppStore.OptimisticAppStore.UpdateCommittedData | packages/dotcom-shared/src/OptimisticAppStore.ts:40-45 | no-op while there is no committed snapshot; otherwise applies the update to it; the pending list is untouched |
| AppStore.OptimisticAppStore.GetFullData | packages/dotcom-shared/src/OptimisticAppStore.ts:47-49 | returns the effective snapshot |
| AppStore.OptimisticAppStore.UpdateOptimisticData | packages/dotcom-shared/src/OptimisticAppStore.ts:51-56 | appends exactly one batch at the end of the pending list; the committed snapshot is untouched |
| AppStore.OptimisticAppStore.CommitMutations | packages/dotcom-shared/src/OptimisticAppStore.ts:58-65 | the pending list becomes its commit by the given ids; the committed snapshot is untouched |
| AppStore.OptimisticAppStore.RejectMutation | packages/dotcom-shared/src/OptimisticAppStore.ts:67-74 | the pending list becomes its rejection of the given id; the committed snapshot is untouched |
| AppStore.PushThenReject | packages/dotcom-shared/src/OptimisticAppStore.ts:51-74 | on a store with nothing pending, initialized or not, push then reject of a fresh id makes the full data equal the committed data and leaves the store as it was |

## Left out

- The reactive machinery (`atom`, `computed`, dependency tracking, memoized recomputation). `Store` recomputes on every read, which is observably the same.
- `lodash.isequal` as the committed atom's equality test. It only suppresses change notifications, and notifications are not modelled.
- `assert` from `@tldraw/utils`. An unknown table or event is unrepresentable (see above), so the asserts at lines 93, 100 and 119 cannot fail.
- The `if (!prev)` branches on the pending list (lines 53, 60, 69). That list starts as `[]` and is never set to null, so the branches are dead.
- Row schemas (`TlaUser`, `TlaFile`, `TlaFileState`, `ZRowUpdate`, `ZStoreData`) are not part of this model. Rows keep their key fields and an opaque string payload.
- Object identity: the source returns new records that share untouched parts. The model compares snapshots as values.
- The transport, acknowledgement and notification layers that call the store.
- Derivation.IndependentBatchesCommute: stated for one-update batches only; longer batches commute when every pair of their updates is independent, which is not proved here.
- Derivation.LaterBatchWins: the overridden batch must hold one update; a longer batch is overridden only when each of its updates is, which is not proved here.
- Snapshots and batches are taken as values. The source stores the caller's `data` object (line 20) and `updates` array (line 54) by reference, so a caller mutating them afterwards would change the store; the model does not capture that aliasing.
