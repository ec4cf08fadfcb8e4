# Change tables and replication configuration of DAWA

DAWA (Danmarks Adressers Web API) publishes Danish address data and lets
clients replicate it. Two parts of it are modelled here.

**Change tables** (`packages/import-util/src/table-diff.js`). Every
replicated table `T` has a change table `T_changes`. It logs every change as
a row `(txid, changeid, operation, public, <the table's columns>)`.
- An import diffs a source table or view against `T`. It appends one
  `insert` row per new key, one `update` row per key whose non-key columns
  differ, and one `delete` row per vanished key. Each can be restricted to a
  set of "dirty" keys or a list of columns.
- `applyChanges` then replays the transaction onto `T`: deletes, then
  updates, then inserts.
- Further operations write single change rows, seed a change table from the
  live table, count a transaction's rows, copy live values back into the
  latest change rows, and number the rows of one transaction across
  dependent tables so that foreign keys are never violated.

The model is:
- `TableDiff`: tables as maps from primary key to row, and each SQL statement
  as a function on them. Its properties are proved in `TableDiffLemmas`,
  `ApplyLemmas`, `ChangeLogLemmas` and `ChangeTables`.
- `ChangeTables.ChangeTrackedTable`: a class holding a live table and its
  change log. Its methods update both in place and are proved against those
  functions.
- `Sequencing`: the numbering.
- `EjerlavScenario`: three replication transactions on the `ejerlav` table
  (insert, update, delete), replayed through the class.

**Replication configuration** (`dar10/replikeringModels.js`,
`apiSpecification/replikering/dbBindings.js`,
`apiSpecification/replikering/datamodel.js`).
- Replication models (key and attributes with types and schemas) are derived
  for the DAR 1.0 entities from their table models.
- Every entity's database binding (column, formatter, select transform per
  attribute) is normalised.
- Every attribute without a JSON schema gets the default schema of its type.

These are pure functions over records, except the final schema loop. That
loop updates attribute objects in place and is a method over a class.

## Model

| member | source | states |
|---|---|---|
| TableModelUtil.KeyOf | psql/tableModel.js:68-89 | the key of a row is the row's values of the primary-key columns, in key order |
| TableModelUtil.Uniq | packages/import-util/src/table-diff.js:23 | `_.union` lists each column once, and lists exactly the columns of its input |
| TableModelUtil.Union | packages/import-util/src/table-diff.js:23 | `_.union` holds exactly the columns of either list |
| TableModelUtil.Difference | packages/import-util/src/table-diff.js:68 | `_.difference` keeps exactly the columns of the first list absent from the second |
| TableModelUtil.NonDerivedColumn | packages/import-util/src/table-diff.js:254 | a column is non-derived exactly when it is a column of the model not marked derived |
| TableDiff.ApplyDeletes | packages/import-util/src/table-diff.js:191-194 | the live table loses exactly the keys of the transaction's delete rows, other rows unchanged |
| TableDiff.LastRowFor | packages/import-util/src/table-diff.js:201 | the change row an update joins to is a row of the transaction with that key, and there is none exactly when no such row exists |
| TableDiff.OnlyOperation | packages/import-util/src/table-diff.js:188 | the `operation = ...` filter keeps exactly the rows with that operation |
| TableDiff.LatestStamp | packages/import-util/src/table-diff.js:13-15 | the `ORDER BY txid DESC, changeid DESC LIMIT 1` row of a key: absent exactly when the key has no change row, otherwise the greatest stamp among that key's rows |
| TableDiffLemmas.KeyOfFullImage | packages/import-util/src/table-diff.js:26 | the selected image of a row keeps its key |
| TableDiffLemmas.KeyOfSelectImage | packages/import-util/src/table-diff.js:23-26 | a column list that covers the key keeps the row's key |
| TableDiffLemmas.AfterImageColumns | packages/import-util/src/table-diff.js:112-122 | the after image takes non-preserved columns from the source, preserved ones from the live row, derived ones as NULL |
| TableDiffLemmas.KeyOfAfterImage | packages/import-util/src/table-diff.js:119-122 | the after image is joined on the key and keeps it |
| TableDiffLemmas.KeyedRowsCard | packages/import-util/src/table-diff.js:27-31 | a set of rows with one row per key has as many rows as keys |
| TableDiffLemmas.InsertRowKey | packages/import-util/src/table-diff.js:29-31 | every insert row carries a key present in the source and absent from the destination |
| TableDiffLemmas.UpdateRowKey | packages/import-util/src/table-diff.js:117-126 | every update row carries a key present in both tables whose row changed |
| TableDiffLemmas.DeleteRowKey | packages/import-util/src/table-diff.js:141-144 | every delete row is the destination row of a key absent from the source |
| TableDiffLemmas.InsertRowsExactlyOnePerKey | packages/import-util/src/table-diff.js:20-33 | the inserts have exactly one row per source-only key |
| TableDiffLemmas.DeleteRowsExactlyOnePerKey | packages/import-util/src/table-diff.js:137-146 | the deletes have exactly one row per destination-only key |
| TableDiffLemmas.UpdateRowsExactlyOnePerChangedKey | packages/import-util/src/table-diff.js:101-129 | the updates have exactly one row per common key whose non-key columns differ |
| TableDiffLemmas.PublicFlagMeaning | packages/import-util/src/table-diff.js:53-64 | a change is public when the model has no non-public column, and otherwise exactly when a public non-key column differs |
| TableDiffLemmas.SubsetIsDiffOfRestrictions | packages/import-util/src/table-diff.js:41-51 | each subset diff is the full diff of both tables restricted to the dirty keys |
| TableDiffLemmas.InsertSubsetIsFullOnDirtyKeys | packages/import-util/src/table-diff.js:41-51 | the subset inserts are exactly the full inserts whose key is dirty |
| TableDiffLemmas.UpdateSubsetIsFullOnDirtyKeys | packages/import-util/src/table-diff.js:66-99 | the subset updates are exactly the full updates whose key is dirty |
| TableDiffLemmas.DeleteSubsetIsFullOnDirtyKeys | packages/import-util/src/table-diff.js:152-162 | the subset deletes are exactly the full deletes whose key is dirty |
| TableDiffLemmas.AgreeingRelationsHaveNoDifferences | packages/import-util/src/table-diff.js:165-177 | two tables with the same keys and non-derived columns have no differences, whatever column list is taken from the source |
| TableDiffLemmas.SubsetDiffEmptyWhenDirtyRowsAgree | packages/import-util/src/table-diff.js:179-183 | the subset diff is empty when the dirty rows already agree, whatever column list is taken from the source |
| ApplyLemmas.InsertedRows | packages/import-util/src/table-diff.js:188 | the rows `applyInserts` adds are keyed by exactly the keys of the transaction's insert rows |
| ApplyLemmas.InsertedKeysMembers | packages/import-util/src/table-diff.js:188 | the inserted keys are exactly the keys of the transaction's insert rows |
| ApplyLemmas.InsertedRowsValues | packages/import-util/src/table-diff.js:187-188 | each inserted row is the full image of an insert row with that key |
| ApplyLemmas.NoDuplicateKeysCons | packages/import-util/src/table-diff.js:188 | a key list is duplicate-free exactly when its head is not in its duplicate-free tail |
| ApplyLemmas.ApplyInsertsSucceedsIff | packages/import-util/src/table-diff.js:185-189 | `applyInserts` succeeds exactly when the insert keys are distinct and none is live, and then adds exactly those rows |
| ApplyLemmas.InsertStepCondition | packages/import-util/src/table-diff.js:188 | after inserting a fresh key, the remaining keys must be distinct and not live, the new key counting as live |
| ApplyLemmas.UpdateThenUnion | packages/import-util/src/table-diff.js:188 | adding a key before the other inserted rows gives the same table as adding it with them |
| ApplyLemmas.AppendedDiffIsDiffBatch | packages/import-util/src/table-diff.js:165-170 | a diff appended to a log without rows of its transaction makes that transaction's rows exactly the diff |
| ApplyLemmas.InsertedKeysDistinct | packages/import-util/src/table-diff.js:20-33 | a diff's insert rows have pairwise distinct keys |
| ApplyLemmas.DiffBatchDeleteKeys | packages/import-util/src/table-diff.js:191-194 | applying a diff deletes exactly the destination-only keys |
| ApplyLemmas.KeyColumnsAgree | packages/import-util/src/table-diff.js:193 | rows with the same key agree on every key column |
| ApplyLemmas.UnchangedRowAgrees | packages/import-util/src/table-diff.js:125 | a row with no update row already agrees with the source on its non-derived columns |
| ApplyLemmas.UpdatedRowAgrees | packages/import-util/src/table-diff.js:196-203 | an updated row agrees with the source on its non-derived columns |
| ApplyLemmas.UpdatedColumn | packages/import-util/src/table-diff.js:196-203 | each non-derived column of an updated row holds the source's value |
| ApplyLemmas.DiffBatchLastRow | packages/import-util/src/table-diff.js:196-203 | a common key finds an update row exactly when its row changed, and that row is its update row |
| ApplyLemmas.DiffBatchUpdatedRow | packages/import-util/src/table-diff.js:196-203 | after the updates, a common key's row agrees with the source |
| ApplyLemmas.DiffBatchUpdates | packages/import-util/src/table-diff.js:207-208 | deletes then updates leave exactly the common keys, each agreeing with the source |
| ApplyLemmas.DiffBatchInserts | packages/import-util/src/table-diff.js:185-189 | a diff's inserts have distinct keys, exactly the source-only keys, with the source's values |
| ApplyLemmas.DiffThenApplyReachesSource | packages/import-util/src/table-diff.js:205-210 | applying a diff succeeds and yields the source: same keys, same non-derived columns |
| ApplyLemmas.DisjointPartsAgree | packages/import-util/src/table-diff.js:205-210 | the kept rows together with the inserted rows make up the source |
| ApplyLemmas.ReapplyingDiffBatchFails | packages/import-util/src/table-diff.js:188 | applying a diff with inserts a second time fails on the primary key |
| ApplyLemmas.LastRowIgnoresOtherOperations | packages/import-util/src/table-diff.js:201 | when a key's rows in the transaction are all updates, the operation filter makes no difference to the joined row |
| ApplyLemmas.UpdatesNeedNoOperationFilter | packages/import-util/src/table-diff.js:201 | `applyUpdates` equals an update-only version when no insert or delete row has a live key |
| ApplyLemmas.DiffBatchUpdatesNeedNoOperationFilter | packages/import-util/src/table-diff.js:205-210 | within `applyChanges` on a diff, the missing operation filter is harmless |
| ApplyLemmas.InsertRowOfLiveKeyUpdatesIt | packages/import-util/src/table-diff.js:201 | outside that ordering, an insert row with a live key overwrites the live row, which a filtered update would not |
| ChangeTables.SetNonKeyColumnsKeepsKey | packages/import-util/src/table-diff.js:198-201 | `UPDATE ... SET` of the non-key columns keeps the key |
| ChangeTables.ApplyUpdatesKeepsKeyed | packages/import-util/src/table-diff.js:196-203 | `applyUpdates` keeps the keys and leaves every row under its key |
| ChangeTables.ApplyInsertsKeepsKeyed | packages/import-util/src/table-diff.js:185-189 | a successful `applyInserts` leaves every row under its key |
| ChangeTables.DifferencesThenApplyChanges | packages/import-util/src/table-diff.js:165-210 | diff then apply reproduces the source, and a second diff is empty |
| ChangeTables.AppendedThree | packages/import-util/src/table-diff.js:165-170 | three appends of disjoint row sets append their union |
| ChangeTables.AppendedTwice | packages/import-util/src/table-diff.js:165-170 | two appends in a row list the union of two disjoint sets of rows, after the old log |
| ChangeTables.EnumeratesConcat | packages/import-util/src/table-diff.js:165-170 | listing two disjoint sets one after the other lists each row of their union exactly once |
| ChangeTables.ChangeTrackedTable.constructor | packages/import-util/src/table-diff.js:224-226 | a new change table is empty and the live table is unchanged |
| ChangeTables.ChangeTrackedTable.AppendRows | packages/import-util/src/table-diff.js:31 | `INSERT INTO T_changes (SELECT ...)` appends every row of the selected set once, keeping the earlier log |
| ChangeTables.ChangeTrackedTable.ComputeInsertsView | packages/import-util/src/table-diff.js:20-33 | appends exactly the insert rows of source against destination |
| ChangeTables.ChangeTrackedTable.ComputeInserts | packages/import-util/src/table-diff.js:38-39 | appends exactly the insert rows of source against the live table |
| ChangeTables.ChangeTrackedTable.ComputeInsertsSubset | packages/import-util/src/table-diff.js:41-51 | appends exactly the insert rows on the dirty keys |
| ChangeTables.ChangeTrackedTable.ComputeUpdatesView | packages/import-util/src/table-diff.js:101-129 | appends exactly the update rows of source against destination |
| ChangeTables.ChangeTrackedTable.ComputeUpdates | packages/import-util/src/table-diff.js:134-135 | appends exactly the update rows of source against the live table |
| ChangeTables.ChangeTrackedTable.ComputeUpdatesSubset | packages/import-util/src/table-diff.js:66-99 | appends exactly the update rows on the dirty keys |
| ChangeTables.ChangeTrackedTable.ComputeDeletesView | packages/import-util/src/table-diff.js:137-146 | appends exactly the delete rows of source against destination |
| ChangeTables.ChangeTrackedTable.ComputeDeletes | packages/import-util/src/table-diff.js:149-150 | appends exactly the delete rows of source against the live table |
| ChangeTables.ChangeTrackedTable.ComputeDeletesSubset | packages/import-util/src/table-diff.js:152-162 | appends exactly the delete rows on the dirty keys |
| ChangeTables.ChangeTrackedTable.ComputeDifferencesView | packages/import-util/src/table-diff.js:165-170 | appends the inserts, updates and deletes, each once |
| ChangeTables.ChangeTrackedTable.ComputeDifferences | packages/import-util/src/table-diff.js:172-177 | appends the full diff against the live table |
| ChangeTables.ChangeTrackedTable.ComputeDifferencesSubset | packages/import-util/src/table-diff.js:179-183 | appends the diff on the dirty keys |
| ChangeTables.ChangeTrackedTable.ApplyDeletes | packages/import-util/src/table-diff.js:191-194 | the live table becomes the delete function of the old one; the log is unchanged |
| ChangeTables.ChangeTrackedTable.ApplyUpdates | packages/import-util/src/table-diff.js:196-203 | the live table becomes the update function of the old one, still keyed |
| ChangeTables.ChangeTrackedTable.ApplyInserts | packages/import-util/src/table-diff.js:185-189 | inserts the rows, or reports the colliding key and changes nothing |
| ChangeTables.ChangeTrackedTable.ApplyChanges | packages/import-util/src/table-diff.js:205-210 | deletes, updates, then inserts; on an insert failure the deletes and updates stay done |
| ChangeTables.ChangeTrackedTable.ClearHistory | packages/import-util/src/table-diff.js:237-244 | the log becomes exactly one non-public insert row per live row |
| ChangeTables.ChangeTrackedTable.InitializeChangeTable | packages/import-util/src/table-diff.js:246-251 | appends one non-public insert row per live row |
| ChangeTables.ChangeTrackedTable.DeriveColumnsForChange | packages/import-util/src/table-diff.js:234 | the transaction's change rows get their derived columns; other rows are unchanged |
| ChangeTables.ChangeTrackedTable.InitChangeTable | packages/import-util/src/table-diff.js:228-235 | appends one insert row per live row with no public flag, then derives |
| ChangeTables.ChangeTrackedTable.InitializeFromScratch | packages/import-util/src/table-diff.js:253-264 | appends one non-public insert per source row, derives, then applies the transaction |
| ChangeTables.ChangeTrackedTable.Insert | packages/import-util/src/table-diff.js:273-280 | appends one non-public insert row over all columns |
| ChangeTables.ChangeTrackedTable.Update | packages/import-util/src/table-diff.js:289-296 | appends one non-public update row over the non-derived columns |
| ChangeTables.ChangeTrackedTable.Del | packages/import-util/src/table-diff.js:298-305 | appends one non-public delete row over the non-derived columns |
| ChangeTables.ChangeTrackedTable.CountChanges | packages/import-util/src/table-diff.js:326-328 | returns the number of change rows of the transaction |
| ChangeTables.ChangeTrackedTable.ApplyCurrentTableToChangeTable | packages/import-util/src/table-diff.js:11-18 | the latest change row of each live key takes the live values of the given columns |
| ChangeLogLemmas.CountTxAppend | packages/import-util/src/table-diff.js:327 | the count of a transaction's rows adds up over concatenated logs |
| ChangeLogLemmas.EnumerationLength | packages/import-util/src/table-diff.js:31 | a set-based insert writes as many rows as the set has |
| ChangeLogLemmas.CountTxAllOfTx | packages/import-util/src/table-diff.js:327 | a log of one transaction's rows counts all of them |
| ChangeLogLemmas.CountAfterAppend | packages/import-util/src/table-diff.js:326-328 | after one batch of a new transaction, the count is the batch's size |
| ChangeLogLemmas.CountTxNone | packages/import-util/src/table-diff.js:327 | a log without the transaction's rows counts zero |
| ChangeLogLemmas.DifferencesCount | packages/import-util/src/table-diff.js:172-177 | a full diff has one row per source-only key, per changed common key and per destination-only key |
| ChangeLogLemmas.DiffRowKinds | packages/import-util/src/table-diff.js:31 | insert, update and delete rows carry their operation and transaction, and the three sets are disjoint |
| ChangeLogLemmas.InsertCount | packages/import-util/src/table-diff.js:20-33 | the number of insert rows is the number of source-only keys |
| ChangeLogLemmas.UpdateCount | packages/import-util/src/table-diff.js:101-129 | the number of update rows is the number of changed common keys |
| ChangeLogLemmas.DeleteCount | packages/import-util/src/table-diff.js:137-146 | the number of delete rows is the number of destination-only keys |
| ChangeLogLemmas.DisjointUnionCard | packages/import-util/src/table-diff.js:165-170 | three disjoint batches have as many rows together as apart |
| ChangeLogLemmas.HistoryAppend | packages/import-util/src/table-diff.js:31 | a key's history in concatenated logs is the concatenation of its histories |
| ChangeLogLemmas.HistoryMembers | packages/import-util/src/table-diff.js:31 | a key's history holds exactly the log's rows with that key |
| ChangeLogLemmas.SingleRowChangeColumns | packages/import-util/src/table-diff.js:273-305 | a single-row change writes each given column's value, a falsy value as NULL, and NULL for derived columns of an update or delete |
| ChangeLogLemmas.ZeroIsRecordedAsNull | packages/import-util/src/table-diff.js:292 | `row[column] \|\| null` records a 0 as NULL |
| ChangeLogLemmas.DeriveChangesEffect | packages/import-util/src/table-diff.js:234 | derivation fills exactly the derived columns of the transaction's rows and leaves everything else |
| ChangeLogLemmas.SnapshotOnePerKey | packages/import-util/src/table-diff.js:237-251 | a snapshot has one insert row per live row, carrying its full image |
| ChangeLogLemmas.ApplyCurrentToChangesEffect | packages/import-util/src/table-diff.js:11-18 | only the latest change row of a live key changes, and only in the given columns, which take the live values |
| ChangeLogLemmas.ColumnsOverwritten | packages/import-util/src/table-diff.js:11-18 | the listed columns take the other row's values and every other column keeps its own |
| Sequencing.NumberRows | packages/import-util/src/table-diff.js:318-322 | one numbering pass keeps the log's length and never moves the counter back |
| Sequencing.NumberRowsStamps | packages/import-util/src/table-diff.js:318-322 | one numbering pass stamps exactly the rows of its transaction and operation that have no `changeid`, with numbers from the counter's range, and leaves every other row, a numbered one included, as it was |
| Sequencing.NumberRowsIncreasing | packages/import-util/src/table-diff.js:318-322 | the numbers of one pass increase in log order |
| Sequencing.PassStep | packages/import-util/src/table-diff.js:317-323 | each further pass keeps the rows numbered so far ordered, with its numbers above theirs |
| Sequencing.StampedStep | packages/import-util/src/table-diff.js:317-323 | after one more pass, its rows also carry numbers from the range and every row not yet reached is unchanged |
| Sequencing.OrderedStep | packages/import-util/src/table-diff.js:317-323 | after one more pass, an earlier pass, or an earlier row of the same pass, still has the smaller number |
| Sequencing.NumberPass | packages/import-util/src/table-diff.js:318-322 | one `assignSequenceNumbers` call renumbers one table's log, and the rows numbered so far stay sequenced with its numbers above theirs |
| Sequencing.AssignSequenceNumbersToDependentTables | packages/import-util/src/table-diff.js:315-324 | every row of the transaction without a `changeid` gets a fresh distinct number: deletes of later tables first, then inserts and updates of earlier tables first, inserts before updates; rows of other transactions and rows already numbered keep their values |
| Sequencing.SequencedComplete | packages/import-util/src/table-diff.js:315-324 | after every pass, the transaction's rows that had no number hold distinct fresh numbers in the given range, ordered by their dependencies, and every other row is unchanged |
| Sequencing.PrecedesTotal | packages/import-util/src/table-diff.js:307-310 | of two different rows one precedes the other, so numbers are never shared |
| Sequencing.SequencedRespectsDependencies | packages/import-util/src/table-diff.js:307-310 | after all passes, of two newly numbered rows the one that must come first has the smaller number |
| EjerlavScenario.EjerlavColumns | psql/tableModel.js:68-89 | `ejerlav` has key `kode`, non-key columns `navn` and `tsv`, and `tsv` is derived |
| EjerlavScenario.EjerlavRowKey | psql/tableModel.js:68-89 | an `ejerlav` row is keyed by its `kode` |
| EjerlavScenario.EjerlavRowChanged | packages/server/test/integration/replikeringSpec.js:48-52 | an `ejerlav` row changed exactly when its `navn` did |
| EjerlavScenario.AppendedTxids | packages/server/test/integration/replikeringSpec.js:39-81 | after a diff of a newer transaction, no row has a later transaction |
| EjerlavScenario.HistoryOfBatch | packages/server/test/integration/replikeringSpec.js:39-81 | a key with one row in a batch has that row as its history |
| EjerlavScenario.HistoryOfNoRow | packages/server/test/integration/replikeringSpec.js:39-81 | a key with no row in a batch has an empty history |
| EjerlavScenario.HistoryOfAppendedBatch | packages/server/test/integration/replikeringSpec.js:39-81 | a batch extends a key's history by the key's one row in it |
| EjerlavScenario.HistoryOfDiffKey | packages/import-util/src/table-diff.js:165-170 | a diff holds one row per key, so appending it extends a key's history by exactly that row |
| EjerlavScenario.InsertedKeyHistory | packages/import-util/src/table-diff.js:20-33 | a source-only key's history gains its insert row, the selected image of its source row |
| EjerlavScenario.UpdatedKeyHistory | packages/import-util/src/table-diff.js:101-133 | a common key whose row changed gains its update row |
| EjerlavScenario.DeletedKeyHistory | packages/import-util/src/table-diff.js:137-148 | a destination-only key's history gains its delete row, the full image of its live row |
| EjerlavScenario.UnchangedKeyHistory | packages/import-util/src/table-diff.js:101-129 | a common key whose row did not change gets no change row, so its history stays as it was |
| EjerlavScenario.ChangeRowNames | psql/tableModel.js:68-89 | an insert or update row of `ejerlav` carries the staged `navn`, a delete row the old one |
| EjerlavScenario.NavnAgrees | packages/server/test/integration/replikeringSpec.js:59-63 | tables that agree hold the same `navn` under each key |
| EjerlavScenario.StagedRows | packages/server/test/integration/replikeringSpec.js:41-57 | the keys and names the three transactions stage |
| EjerlavScenario.Transaction | packages/server/test/integration/replikeringSpec.js:39-81 | one diff-and-apply transaction reaches its source, counting one row per changed key, and the log grows by exactly those rows |
| EjerlavScenario.StagedRowsKeyed | packages/server/test/integration/replikeringSpec.js:41-53 | the staged source tables are keyed |
| EjerlavScenario.ChangedKeysAre | packages/import-util/src/table-diff.js:123-125 | the changed keys are exactly the common keys whose row changed |
| EjerlavScenario.Keys1 | packages/server/test/integration/replikeringSpec.js:41-47 | the first transaction has two source-only keys and no others |
| EjerlavScenario.History1 | packages/server/test/integration/replikeringSpec.js:41-47 | after it, each staged key has one insert row carrying its staged name |
| EjerlavScenario.Transaction1 | packages/server/test/integration/replikeringSpec.js:41-47 | the first transaction applies, reaches its source and writes two rows, the whole log so far |
| EjerlavScenario.Kode2History1 | packages/server/test/integration/replikeringSpec.js:43-47 | after the first transaction, `kode` 2 has one insert row named foobar |
| EjerlavScenario.Keys2 | packages/server/test/integration/replikeringSpec.js:48-52 | the second transaction changes exactly `kode` 1 |
| EjerlavScenario.Kode2History2 | packages/server/test/integration/replikeringSpec.js:48-52 | the second transaction writes no row for `kode` 2 |
| EjerlavScenario.ChangedKeysOfTwo | packages/import-util/src/table-diff.js:123-125 | of two common keys, the one whose row changed is the only changed key |
| EjerlavScenario.History2 | packages/server/test/integration/replikeringSpec.js:48-52 | it adds one update row named bar to `kode` 1's history |
| EjerlavScenario.Transaction2 | packages/server/test/integration/replikeringSpec.js:48-52 | the second transaction applies, reaches its source and writes one row, growing the log by one |
| EjerlavScenario.Keys3 | packages/server/test/integration/replikeringSpec.js:53-57 | the third transaction deletes exactly one key |
| EjerlavScenario.KeysLeft | packages/server/test/integration/replikeringSpec.js:53-57 | of keys 1 and 2, only `kode` 1 is gone from the third source |
| EjerlavScenario.History3 | packages/server/test/integration/replikeringSpec.js:53-57 | it adds one delete row named bar to `kode` 1's history |
| EjerlavScenario.Transaction3 | packages/server/test/integration/replikeringSpec.js:53-57 | the third transaction applies, reaches its source and writes one row, growing the log by one |
| EjerlavScenario.Kode2History3 | packages/server/test/integration/replikeringSpec.js:53-57 | the third transaction writes no row for `kode` 2 |
| EjerlavScenario.FinalTable | packages/server/test/integration/replikeringSpec.js:59-63 | what is left is `kode` 2, named foobar |
| EjerlavScenario.HistoryOfKey1 | packages/server/test/integration/replikeringSpec.js:70-81 | `kode` 1's history is insert foo, update bar, delete bar |
| EjerlavScenario.ThreeRows | packages/server/test/integration/replikeringSpec.js:70-81 | a one-row history extended twice holds the three rows in order |
| EjerlavScenario.ReplicationScenario | packages/server/test/integration/replikeringSpec.js:39-81 | the three transactions write 2, 1 and 1 rows, four in all; they leave `kode` 2; `kode` 1 gets the history insert, update, delete named foo, bar, bar; `kode` 2 gets one insert named foobar |
| DbBindings.NormalizeAttr | apiSpecification/replikering/dbBindings.js:8-15 | the column defaults to the attribute name, formatter and select transform to the identity; every field the binding gives wins |
| DbBindings.NormalizeBinding | apiSpecification/replikering/dbBindings.js:24-28 | the binding's other fields are kept; the attributes are exactly the model's, each normalised |
| DbBindings.NormalizeFromFails | apiSpecification/replikering/dbBindings.js:17-23 | the fold fails exactly when some entity lacks a binding, with the message naming the first such entity |
| DbBindings.NormalizeFromContents | apiSpecification/replikering/dbBindings.js:17-31 | when every entity has a binding, the fold succeeds and adds exactly the entities, each with its last entry's normalised binding, keeping the memo's other entries |
| DbBindings.NormalizeOutcome | apiSpecification/replikering/dbBindings.js:17-31 | `normalize` throws `No db replication binding for <entity>` exactly when an entity has no binding; otherwise it maps exactly the data model's entities |
| DbBindings.AdgangsadresseStatusColumn | apiSpecification/replikering/dbBindings.js:33-92 | `adgangsadresse.status` is read from column `objekttype`, and an unmentioned attribute from its own column |
| DbBindings.StatusAndIdBindings | apiSpecification/replikering/dbBindings.js:38-92 | `adgangsadresse` binds `status` to column `objekttype` and leaves `id` unbound |
| ReplikeringModels.AttributeType | dar10/replikeringModels.js:68-72 | a column's type is its entity's override, else the default for its SQL type; it fails exactly when neither exists |
| ReplikeringModels.ColumnAttribute | dar10/replikeringModels.js:73-78 | a column becomes an attribute with its name, type and nullability |
| ReplikeringModels.ColumnAttributes | dar10/replikeringModels.js:107-118 | all columns become attributes in order, or the first failure is the result |
| ReplikeringModels.OtherColumns | dar10/replikeringModels.js:68 | the other columns are exactly the columns not named `virkning` or `rowkey` |
| ReplikeringModels.OtherColumnsOfOne | dar10/replikeringModels.js:68 | one column is kept exactly when it is neither `virkning` nor `rowkey` |
| ReplikeringModels.OtherColumnsConcat | dar10/replikeringModels.js:68 | the filter distributes over concatenation, so it keeps the kept columns in order and with their repetitions |
| ReplikeringModels.HistoryModel | dar10/replikeringModels.js:48-86 | key `rowkey`; attributes `rowkey`, `virkningstart`, nullable `virkningslut`, then one attribute per other column in order, with its name, nullability and replication type |
| ReplikeringModels.HistoryBinding | dar10/replikeringModels.js:88-103 | the binding has the entity's table; its attributes are the validity-period bindings merged with the overrides, an override winning |
| ReplikeringModels.CurrentModel | dar10/replikeringModels.js:105-124 | key `id`; one attribute per column in order, with its name, nullability and type |
| ReplikeringModels.CollectContents | dar10/replikeringModels.js:88-103 | the collected bindings map exactly the entity names, each to its last entry's binding |
| ReplikeringModels.CollectModelsFails | dar10/replikeringModels.js:48-86 | collecting models fails exactly when some entity's model fails, with the first failure |
| ReplikeringModels.CollectModelsContents | dar10/replikeringModels.js:105-124 | on success the collected models map exactly the entity names, each to its last entry's model |
| ReplikeringModels.HistoryModelsShape | dar10/replikeringModels.js:80-84 | every history model is keyed by `rowkey` and begins with `rowkey`, `virkningstart`, nullable `virkningslut` |
| ReplikeringModels.CurrentModelsShape | dar10/replikeringModels.js:119-122 | every current model is keyed by `id` |
| ReplikeringModels.HistoryModelsFail | dar10/replikeringModels.js:68-72 | the history models fail exactly when some entity has a column other than `virkning` and `rowkey` without a type |
| ReplikeringModels.HistoryModelFails | dar10/replikeringModels.js:48-86 | one entity's history model fails exactly when one of its other columns has no replication type |
| ReplikeringModels.AdressepunktHistoryBinding | dar10/replikeringModels.js:28-35 | `Adressepunkt.position` is selected as GeoJSON and parsed; `virkningstart` is read from `lower(virkning)` |
| ReplikeringModels.CurrentBindingWithoutOverrides | dar10/replikeringModels.js:126-133 | an entity without overrides has a current binding with its table and no attribute bindings |
| ReplikeringModels.DefaultTypes | dar10/replikeringModels.js:10-17 | `smallint` maps to integer, `float4` to real, `timestamptz` to timestamp, and an unknown type fails |
| ReplikeringModels.AdressepunktPosition | dar10/replikeringModels.js:19-26 | `Adressepunkt.position` maps to `point2d` whatever its SQL type |
| Datamodel.GetDefaultSchema | apiSpecification/replikering/datamodel.js:476-480 | fails exactly when the type is absent or has no default; otherwise the default schema, wrapped as nullable exactly for nullable attributes |
| Datamodel.NormalizedSchema | apiSpecification/replikering/datamodel.js:484 | an attribute's own schema wins over the default |
| Datamodel.Attribute.constructor | apiSpecification/replikering/datamodel.js:482-483 | an attribute object holds the given fields |
| Datamodel.Attribute.Normalize | apiSpecification/replikering/datamodel.js:484-485 | sets the normalised schema and a boolean `deprecated`, or fails and changes nothing |
| Datamodel.NormalizeAttributes | apiSpecification/replikering/datamodel.js:484-487 | over one model's attributes: succeeds exactly when each has a schema or a default; then each holds its normalised schema and flag; on failure each is untouched or normalised |
| Datamodel.NormalizeModels | apiSpecification/replikering/datamodel.js:482-487 | succeeds exactly when every attribute has a schema or a default; then each holds its normalised schema and flag; on failure each attribute is untouched or normalised |
| Datamodel.AttrsOfAppend | apiSpecification/replikering/datamodel.js:482-483 | the attributes of one more model are added to those seen |
| Datamodel.AttrsOfStep | apiSpecification/replikering/datamodel.js:482-483 | after one more model, the attributes seen are those before plus the model's |
| Datamodel.NullableWrapsDefault | apiSpecification/replikering/datamodel.js:476-480 | a nullable attribute gets the nullable form of the non-nullable default |
| Datamodel.NormalizationIdempotent | apiSpecification/replikering/datamodel.js:484-485 | normalising twice gives the same schema and flag as once |
| Datamodel.OwnSchemaNeedsNoType | apiSpecification/replikering/datamodel.js:312-315 | an attribute with its own schema, such as `darstatus`, keeps it without a type; without one, a type is needed |
| Datamodel.DarTypesHaveSchemas | apiSpecification/replikering/datamodel.js:8-17 | every replication type of a DAR 1.0 column has a default schema |
| Datamodel.DarCurrentModelSchemas | apiSpecification/replikering/datamodel.js:476-487 | every DAR 1.0 current attribute gets a schema, nullable exactly for nullable columns |
| Datamodel.DarHistoryModelSchemas | apiSpecification/replikering/datamodel.js:476-487 | a DAR 1.0 history model publishes `rowkey` as integer, `virkningstart` as string and `virkningslut` as nullable string |

## Left out

- Helpers of `table-model-util` whose source is not part of this model are
  modelled as follows:
  - `makeSelectClause` gives NULL for the derived columns.
  - `columnsDistinctClause` compares the non-derived columns with a null-safe
    `IS DISTINCT FROM`.
  - `deriveColumnsForChange` is an uninterpreted function of column and row
    (`derive`).
  - `assignSequenceNumbers` numbers the selected rows with NULL `changeid` in
    log order from one shared counter.
- `selectList`, `columnsEqualClause` and the SQL text are left out. The SQL
  statements are modelled by their effect on keyed tables, not as strings.
- `getChangeTableSql`, the DDL, the indexes and `ANALYZE` are left out: they
  do not change table contents.
- A diff's column list that leaves out a primary-key column is not modelled
  faithfully. No caller passes such a list, and the lemmas about the diffs
  require the key columns (`CoversKey`). For such a list, the insert SQL
  writes one row per source row, each with a NULL key; the model writes a set
  of rows, so rows that coincide collapse into one. The update SQL joins on a
  key column it did not select, so it fails; the model returns rows anyway.
  This concerns these methods:
  - ChangeTables.ChangeTrackedTable.ComputeInsertsView: rows that coincide
    without their key collapse.
  - ChangeTables.ChangeTrackedTable.ComputeInserts: the same.
  - ChangeTables.ChangeTrackedTable.ComputeInsertsSubset: the same.
  - ChangeTables.ChangeTrackedTable.ComputeUpdatesView: returns rows where the
    SQL fails.
  - ChangeTables.ChangeTrackedTable.ComputeUpdates: the same.
  - ChangeTables.ChangeTrackedTable.ComputeUpdatesSubset: the same.
  - ChangeTables.ChangeTrackedTable.ComputeDifferencesView: inherits both.
  - ChangeTables.ChangeTrackedTable.ComputeDifferences: inherits both.
  - ChangeTables.ChangeTrackedTable.ComputeDifferencesSubset: inherits both.
- The replication API resources that the scenario test reads (the extract,
  with and without a `sekvensnummer`, and the event feed) are not part of
  this model. EjerlavScenario.ReplicationScenario states the change rows and
  the live table those resources are built from.
- TableDiff.ApplyUpdates: when a key has several change rows in the
  transaction, PostgreSQL's `UPDATE ... FROM` picks one of them, unspecified
  which. The model takes the last one in log order.
- NULL values in primary-key columns: NULL keys are compared like values
  (SQL `NATURAL JOIN` would drop them).
- Database transactions, the `go` coroutines and their interleaving are left
  out. Every operation runs to completion on its own.
- Sequencing.AssignSequenceNumbersToDependentTables is modelled on values
  (logs in, renumbered logs out) rather than on the database tables.
- The registration loops that add DAR and tema models and bindings are left
  out. These are `datamodel.js:464-474` and `dbBindings.js:211-221`. So are
  the tema models, which come from code that is not part of this model.
- The hand-written models and bindings of `datamodel.js` and
  `dbBindings.js` are left out, except the first `adgangsadresse` binding
  attributes and the `darstatus` example. `datamodel.js` records are
  constructed through `Datamodel.Attribute.constructor`.
- `dar10TableModels` (`historyTableModels`, `currentTableModels`) is not part
  of this model. It is a parameter: a list of (entity name, table model)
  pairs in key order.
- `schemaUtil.nullable` and `commonSchemaDefinitions` are not part of this
  model. They are the schema constructors `NullableOf` and `Definition`.
- JavaScript function values are modelled by name as `Transform`: formatters
  such as `JSON.parse`, `formatHusnr`, `kode4String`, and select transforms
  such as `ST_AsGeoJSON` and `selectIsoTimestampUtc(...)`.
- `Object.assign` with a key that is present but `undefined` is not modelled:
  a binding field is present with a value or absent.
- `assert` failures and thrown errors become `Err` results or a `false`
  return. The error object's type and message text are not modelled, except
  `No db replication binding for <entity>`.
- Datamodel.NormalizeModels on failure states only that each attribute is
  untouched or normalised. It does not say which attributes the loop reached
  before throwing.
