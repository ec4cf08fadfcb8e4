/**
  What applying a transaction's change rows does to the live table: when
  `applyInserts` succeeds, the round trip from a diff back to the source, and
  why `applyUpdates` may ignore the operation of the rows it reads.
 */
module ApplyLemmas {
  import opened Relational
  import opened TableModelUtil
  import opened TableDiff
  import opened TableDiffLemmas

  predicate IsTxInsert(r: ChangeRow, txid: int) {
    r.txid == txid && r.operation == Insert
  }

  /** The keys of the transaction's insert rows, in log order. */
  function InsertedKeys(m: TableModel, log: ChangeLog, txid: int): (ks: seq<Key>)
    decreases |log|
  {
    if log == [] then []
    else (if IsTxInsert(log[0], txid) then [KeyOf(m, log[0].row)] else []) + InsertedKeys(m, log[1..], txid)
  }

  /** The rows the transaction's insert rows add, each under its key. */
  function InsertedRows(m: TableModel, log: ChangeLog, txid: int): (rs: Relation)
    ensures forall k :: k in rs <==> k in InsertedKeys(m, log, txid)
    decreases |log|
  {
    if log == [] then map[]
    else
      var rest := InsertedRows(m, log[1..], txid);
      if IsTxInsert(log[0], txid) then rest[KeyOf(m, log[0].row) := FullImage(m, log[0].row)] else rest
  }

  /** A key is inserted exactly when an insert row of the transaction carries it. */
  lemma {:induction false} InsertedKeysMembers(m: TableModel, log: ChangeLog, txid: int)
    ensures forall k :: k in InsertedKeys(m, log, txid) <==> exists r :: r in log && IsTxInsert(r, txid) && KeyOf(m, r.row) == k
    decreases |log|
  {
    if log != [] {
      InsertedKeysMembers(m, log[1..], txid);
      assert forall r :: r in log <==> r == log[0] || r in log[1..];
    }
  }

  /** Each inserted row is the full image of an insert row of the transaction with that key. */
  lemma {:induction false} InsertedRowsValues(m: TableModel, log: ChangeLog, txid: int)
    ensures forall k :: k in InsertedRows(m, log, txid) ==>
      exists r :: r in log && IsTxInsert(r, txid) && KeyOf(m, r.row) == k && InsertedRows(m, log, txid)[k] == FullImage(m, r.row)
    decreases |log|
  {
    if log != [] {
      InsertedRowsValues(m, log[1..], txid);
      assert forall r :: r in log[1..] ==> r in log;
    }
  }

  predicate NoDuplicateKeys(ks: seq<Key>) {
    forall i, j :: 0 <= i < j < |ks| ==> ks[i] != ks[j]
  }

  lemma NoDuplicateKeysCons(k: Key, ks: seq<Key>)
    ensures NoDuplicateKeys([k] + ks) <==> k !in ks && NoDuplicateKeys(ks)
  {
    var s := [k] + ks;
    assert forall i :: 0 <= i < |ks| ==> s[i + 1] == ks[i];
    if k in ks {
      var j :| 0 <= j < |ks| && ks[j] == k;
      assert s[0] == s[j + 1];
    }
  }

  /**
    `applyInserts` succeeds exactly when the transaction's insert rows have
    distinct keys, none of them already live; the live table then gains one
    row per insert row.
   */
  lemma {:induction false} ApplyInsertsSucceedsIff(m: TableModel, live: Relation, log: ChangeLog, txid: int)
    ensures ApplyInserts(m, live, log, txid).Ok? <==>
      NoDuplicateKeys(InsertedKeys(m, log, txid)) && forall k :: k in InsertedKeys(m, log, txid) ==> k !in live
    ensures ApplyInserts(m, live, log, txid).Ok? ==>
      ApplyInserts(m, live, log, txid).value == live + InsertedRows(m, log, txid)
    decreases |log|
  {
    if log != [] {
      var tail := log[1..];
      if IsTxInsert(log[0], txid) {
        var k := KeyOf(m, log[0].row);
        assert InsertedKeys(m, log, txid) == [k] + InsertedKeys(m, tail, txid);
        NoDuplicateKeysCons(k, InsertedKeys(m, tail, txid));
        if k in live {
          assert ApplyInserts(m, live, log, txid).Err?;
          assert k in InsertedKeys(m, log, txid);
        } else {
          var v := FullImage(m, log[0].row);
          assert ApplyInserts(m, live, log, txid) == ApplyInserts(m, live[k := v], tail, txid);
          ApplyInsertsSucceedsIff(m, live[k := v], tail, txid);
          InsertStepCondition(k, InsertedKeys(m, tail, txid), live, v);
          if ApplyInserts(m, live, log, txid).Ok? {
            UpdateThenUnion(live, InsertedRows(m, tail, txid), k, v);
          }
        }
      } else {
        ApplyInsertsSucceedsIff(m, live, tail, txid);
        assert InsertedKeys(m, log, txid) == InsertedKeys(m, tail, txid);
        assert InsertedRows(m, log, txid) == InsertedRows(m, tail, txid);
        assert ApplyInserts(m, live, log, txid) == ApplyInserts(m, live, tail, txid);
      }
    }
  }

  /** Inserting a fresh key first: the rest must be distinct and not live, counting the new key as live. */
  lemma InsertStepCondition(k: Key, ks: seq<Key>, live: Relation, v: Row)
    requires k !in live
    ensures (NoDuplicateKeys([k] + ks) && forall x :: x in [k] + ks ==> x !in live) <==>
            (NoDuplicateKeys(ks) && forall x :: x in ks ==> x !in live[k := v])
  {
    NoDuplicateKeysCons(k, ks);
  }

  lemma UpdateThenUnion(live: Relation, rows: Relation, k: Key, v: Row)
    requires k !in rows
    ensures live[k := v] + rows == live + rows[k := v]
  {
  }

  // ----------------------------------------------------------------------------
  // A diff batch and its application

  /**
    `log` carries the change rows of one full-column diff as transaction
    `txid`: its rows of that transaction are exactly the diff's rows, each
    written once.
   */
  ghost predicate IsDiffBatch(m: TableModel, txid: int, src: Relation, live: Relation, log: ChangeLog) {
    && InsertsOfDiff(m, txid, src, live, log)
    && UpdatesOfDiff(m, txid, src, live, log)
    && DeletesOfDiff(m, txid, src, live, log)
    && TxRowsDistinct(log, txid)
  }

  ghost predicate InsertsOfDiff(m: TableModel, txid: int, src: Relation, live: Relation, log: ChangeLog) {
    forall r :: r in log && IsTxInsert(r, txid) <==> r in InsertRows(m, txid, src, live, None)
  }

  ghost predicate UpdatesOfDiff(m: TableModel, txid: int, src: Relation, live: Relation, log: ChangeLog) {
    forall r :: r in log && r.txid == txid && r.operation == Update <==> r in UpdateRows(m, txid, src, live, None)
  }

  ghost predicate DeletesOfDiff(m: TableModel, txid: int, src: Relation, live: Relation, log: ChangeLog) {
    forall r :: r in log && r.txid == txid && r.operation == Delete <==> r in DeleteRows(m, txid, src, live)
  }

  /** No row of the transaction occurs twice in `log`. */
  predicate TxRowsDistinct(log: ChangeLog, txid: int) {
    forall i, j :: 0 <= i < j < |log| && log[i].txid == txid ==> log[i] != log[j]
  }

  /** Writing a diff to a log that holds nothing of its transaction yields a diff batch. */
  lemma AppendedDiffIsDiffBatch(m: TableModel, txid: int, src: Relation, live: Relation, earlier: ChangeLog, batch: ChangeLog)
    requires forall r :: r in earlier ==> r.txid != txid
    requires Enumerates(batch, Differences(m, txid, src, live, None))
    ensures IsDiffBatch(m, txid, src, live, earlier + batch)
  {
    var log := earlier + batch;
    forall i, j | 0 <= i < j < |log| && log[i].txid == txid
      ensures log[i] != log[j]
    {
      assert i >= |earlier|;
      assert log[i] == batch[i - |earlier|] && log[j] == batch[j - |earlier|];
    }
  }

  /** Insert rows built from a keyed source, each written once, have distinct keys. */
  lemma {:induction false} InsertedKeysDistinct(m: TableModel, txid: int, src: Relation, log: ChangeLog)
    requires forall r :: r in log && IsTxInsert(r, txid) ==>
      KeyOf(m, r.row) in src && r == InsertRow(m, txid, AllColumnNames(m), src[KeyOf(m, r.row)])
    requires TxRowsDistinct(log, txid)
    ensures NoDuplicateKeys(InsertedKeys(m, log, txid))
    decreases |log|
  {
    if log != [] {
      var tail := log[1..];
      assert forall r :: r in tail ==> r in log;
      assert forall i, j :: 0 <= i < j < |tail| ==> tail[i] == log[i + 1] && tail[j] == log[j + 1];
      InsertedKeysDistinct(m, txid, src, tail);
      if IsTxInsert(log[0], txid) {
        var k := KeyOf(m, log[0].row);
        assert InsertedKeys(m, log, txid) == [k] + InsertedKeys(m, tail, txid);
        NoDuplicateKeysCons(k, InsertedKeys(m, tail, txid));
        InsertedKeysMembers(m, tail, txid);
      } else {
        assert InsertedKeys(m, log, txid) == InsertedKeys(m, tail, txid);
      }
    }
  }

  /** The delete rows of a diff batch remove exactly the live keys the source lacks. */
  lemma DiffBatchDeleteKeys(m: TableModel, txid: int, src: Relation, live: Relation, log: ChangeLog)
    requires ValidModel(m) && Keyed(m, live)
    requires DeletesOfDiff(m, txid, src, live, log)
    ensures DeleteKeys(m, log, txid) == live.Keys - src.Keys
  {
    forall k | k in DeleteKeys(m, log, txid)
      ensures k in live.Keys - src.Keys
    {
      var r :| r in log && r.txid == txid && r.operation == Delete && KeyOf(m, r.row) == k;
      DeleteRowKey(m, txid, src, live, r);
    }
    forall k | k in live.Keys - src.Keys
      ensures k in DeleteKeys(m, log, txid)
    {
      var r := DeleteRow(m, txid, live[k]);
      KeyOfFullImage(m, live[k]);
      assert r in DeleteRows(m, txid, src, live);
      assert r in log;
    }
  }

  /** Rows with the same key agree on the primary-key columns. */
  lemma KeyColumnsAgree(m: TableModel, a: Row, b: Row)
    requires KeyOf(m, a) == KeyOf(m, b)
    ensures forall c :: c in m.primaryKey ==> Get(a, c) == Get(b, c)
  {
    forall c | c in m.primaryKey
      ensures Get(a, c) == Get(b, c)
    {
      var i :| 0 <= i < |m.primaryKey| && m.primaryKey[i] == c;
      assert KeyOf(m, a)[i] == KeyOf(m, b)[i];
    }
  }

  /** A row the full-column diff finds unchanged agrees with the source row. */
  lemma UnchangedRowAgrees(m: TableModel, before: Row, srow: Row)
    requires ValidModel(m) && KeyOf(m, before) == KeyOf(m, srow)
    requires !RowChanged(m, None, before, srow)
    ensures forall c :: c in AllColumnNames(m) && !IsDerived(m, c) ==> Get(before, c) == Get(srow, c)
  {
    KeyColumnsAgree(m, before, srow);
    forall c | c in NonPrimaryColumnNames(m)
      ensures !IsDerived(m, c) ==> Get(AfterImage(m, None, before, srow), c) == Get(srow, c)
    {
      AfterImageColumns(m, None, before, srow, c);
    }
  }

  /** Setting a live row's non-key columns from a full-column update row yields the source row. */
  lemma UpdatedRowAgrees(m: TableModel, before: Row, srow: Row)
    requires ValidModel(m) && KeyOf(m, before) == KeyOf(m, srow)
    ensures var updated := SetNonKeyColumns(m, before, AfterImage(m, None, before, srow));
      && KeyOf(m, updated) == KeyOf(m, before)
      && forall c :: c in AllColumnNames(m) && !IsDerived(m, c) ==> Get(updated, c) == Get(srow, c)
  {
    var updated := SetNonKeyColumns(m, before, AfterImage(m, None, before, srow));
    forall c | c in AllColumnNames(m) && !IsDerived(m, c)
      ensures Get(updated, c) == Get(srow, c)
    {
      UpdatedColumn(m, before, srow, c);
    }
    assert forall c :: c in m.primaryKey ==> c !in NonPrimaryColumnNames(m);
    SameKeyColumns(m, updated, before);
  }

  lemma UpdatedColumn(m: TableModel, before: Row, srow: Row, c: ColName)
    requires ValidModel(m) && KeyOf(m, before) == KeyOf(m, srow)
    requires c in AllColumnNames(m) && !IsDerived(m, c)
    ensures Get(SetNonKeyColumns(m, before, AfterImage(m, None, before, srow)), c) == Get(srow, c)
  {
    if c in NonPrimaryColumnNames(m) {
      AfterImageColumns(m, None, before, srow, c);
    } else {
      KeyColumnsAgree(m, before, srow);
    }
  }

  /** For a key on both sides, the last row of a diff batch is its update row, if the row changed. */
  lemma DiffBatchLastRow(m: TableModel, txid: int, src: Relation, live: Relation, log: ChangeLog, k: Key)
    requires ValidModel(m) && Keyed(m, src) && Keyed(m, live)
    requires IsDiffBatch(m, txid, src, live, log)
    requires k in src && k in live && NonPrimaryColumnNames(m) != []
    ensures LastRowFor(m, log, txid, k).None? <==> !RowChanged(m, None, live[k], src[k])
    ensures LastRowFor(m, log, txid, k).Some? ==>
      LastRowFor(m, log, txid, k).value == UpdateRow(m, txid, None, live[k], src[k])
  {
    KeyOfAfterImage(m, None, live[k], src[k]);
    if RowChanged(m, None, live[k], src[k]) {
      var u := UpdateRow(m, txid, None, live[k], src[k]);
      assert u in UpdateRows(m, txid, src, live, None);
      assert u in log && KeyOf(m, u.row) == k;
    }
    match LastRowFor(m, log, txid, k)
    case None =>
    case Some(r) =>
      InsertRowKey(m, txid, src, live, None, r);
      DeleteRowKey(m, txid, src, live, r);
      UpdateRowKey(m, txid, src, live, None, r);
      assert r.operation == Update;
  }

  /** After the batch's deletes and updates, a live key common to both sides holds the source's row. */
  lemma DiffBatchUpdatedRow(m: TableModel, txid: int, src: Relation, live: Relation, log: ChangeLog, l1: Relation, k: Key)
    requires ValidModel(m) && Keyed(m, src) && Keyed(m, live)
    requires IsDiffBatch(m, txid, src, live, log)
    requires k in src && k in live && k in l1 && l1[k] == live[k]
    ensures var l2 := ApplyUpdates(m, l1, log, txid);
      && k in l2 && KeyOf(m, l2[k]) == k
      && forall c :: c in AllColumnNames(m) && !IsDerived(m, c) ==> Get(l2[k], c) == Get(src[k], c)
  {
    if NonPrimaryColumnNames(m) == [] {
      KeyColumnsAgree(m, live[k], src[k]);
      assert forall c :: c in AllColumnNames(m) ==> c in m.primaryKey;
    } else {
      DiffBatchLastRow(m, txid, src, live, log, k);
      if RowChanged(m, None, live[k], src[k]) {
        UpdatedRowAgrees(m, live[k], src[k]);
      } else {
        UnchangedRowAgrees(m, live[k], src[k]);
      }
    }
  }

  /** After the batch's deletes and updates, the live keys common to both sides hold the source's rows. */
  lemma DiffBatchUpdates(m: TableModel, txid: int, src: Relation, live: Relation, log: ChangeLog)
    requires ValidModel(m) && Keyed(m, src) && Keyed(m, live)
    requires IsDiffBatch(m, txid, src, live, log)
    ensures var l2 := ApplyUpdates(m, ApplyDeletes(m, live, log, txid), log, txid);
      && l2.Keys == live.Keys * src.Keys
      && Keyed(m, l2)
      && forall k, c :: k in l2 && c in AllColumnNames(m) && !IsDerived(m, c) ==> Get(l2[k], c) == Get(src[k], c)
  {
    var l1 := ApplyDeletes(m, live, log, txid);
    DiffBatchDeleteKeys(m, txid, src, live, log);
    forall k | k in l1
      ensures var l2 := ApplyUpdates(m, l1, log, txid);
        && k in l2 && KeyOf(m, l2[k]) == k
        && forall c :: c in AllColumnNames(m) && !IsDerived(m, c) ==> Get(l2[k], c) == Get(src[k], c)
    {
      DiffBatchUpdatedRow(m, txid, src, live, log, l1, k);
    }
  }

  /** The insert rows of a diff batch add, under distinct new keys, the source's missing rows. */
  lemma DiffBatchInserts(m: TableModel, txid: int, src: Relation, live: Relation, log: ChangeLog)
    requires ValidModel(m) && Keyed(m, src)
    requires InsertsOfDiff(m, txid, src, live, log) && TxRowsDistinct(log, txid)
    ensures NoDuplicateKeys(InsertedKeys(m, log, txid))
    ensures var ins := InsertedRows(m, log, txid);
      && ins.Keys == src.Keys - live.Keys
      && Keyed(m, ins)
      && forall k, c :: k in ins && c in AllColumnNames(m) && !IsDerived(m, c) ==> Get(ins[k], c) == Get(src[k], c)
  {
    forall r | r in log && IsTxInsert(r, txid)
      ensures KeyOf(m, r.row) in src && r == InsertRow(m, txid, AllColumnNames(m), src[KeyOf(m, r.row)])
    {
      InsertRowKey(m, txid, src, live, None, r);
    }
    InsertedKeysDistinct(m, txid, src, log);
    InsertedKeysMembers(m, log, txid);
    InsertedRowsValues(m, log, txid);
    var ins := InsertedRows(m, log, txid);
    forall k | k in src && k !in live
      ensures k in ins
    {
      var r := InsertRow(m, txid, AllColumnNames(m), src[k]);
      KeyOfSelectImage(m, AllColumnNames(m), src[k]);
      assert r in InsertRows(m, txid, src, live, None);
      assert r in log && IsTxInsert(r, txid);
    }
    forall k | k in ins
      ensures k in src && k !in live && KeyOf(m, ins[k]) == k
      ensures forall c :: c in AllColumnNames(m) && !IsDerived(m, c) ==> Get(ins[k], c) == Get(src[k], c)
    {
      var r :| r in log && IsTxInsert(r, txid) && KeyOf(m, r.row) == k && ins[k] == FullImage(m, r.row);
      InsertRowKey(m, txid, src, live, None, r);
      KeyOfFullImage(m, r.row);
    }
  }

  /**
    Round trip: applying a diff batch to the live table it was computed
    against succeeds and leaves the live table agreeing with the source on
    every non-derived column; diffing again then finds nothing.
   */
  lemma DiffThenApplyReachesSource(m: TableModel, txid: int, txid2: int, src: Relation, live: Relation, log: ChangeLog)
    requires ValidModel(m) && Keyed(m, src) && Keyed(m, live)
    requires IsDiffBatch(m, txid, src, live, log)
    ensures ApplyChanges(m, live, log, txid).Ok?
    ensures var after := ApplyChanges(m, live, log, txid).value;
      && after.Keys == src.Keys
      && Agrees(m, after, src)
      && Keyed(m, after)
      && Differences(m, txid2, src, after, None) == {}
  {
    var l2 := ApplyUpdates(m, ApplyDeletes(m, live, log, txid), log, txid);
    DiffBatchUpdates(m, txid, src, live, log);
    DiffBatchInserts(m, txid, src, live, log);
    var ins := InsertedRows(m, log, txid);
    ApplyInsertsSucceedsIff(m, l2, log, txid);
    assert ApplyChanges(m, live, log, txid) == Ok(l2 + ins);
    DisjointPartsAgree(m, src, live, l2, ins);
    AgreeingRelationsHaveNoDifferences(m, txid2, src, l2 + ins, None);
  }

  /** The kept-and-updated rows and the inserted rows together make up the source. */
  lemma DisjointPartsAgree(m: TableModel, src: Relation, live: Relation, kept: Relation, ins: Relation)
    requires kept.Keys == live.Keys * src.Keys && ins.Keys == src.Keys - live.Keys
    requires Keyed(m, kept) && Keyed(m, ins)
    requires forall k, c :: k in kept && c in AllColumnNames(m) && !IsDerived(m, c) ==> Get(kept[k], c) == Get(src[k], c)
    requires forall k, c :: k in ins && c in AllColumnNames(m) && !IsDerived(m, c) ==> Get(ins[k], c) == Get(src[k], c)
    ensures (kept + ins).Keys == src.Keys && Agrees(m, kept + ins, src) && Keyed(m, kept + ins)
  {
    var after := kept + ins;
    forall k | k in after
      ensures after[k] == if k in ins then ins[k] else kept[k]
    {
    }
  }

  /** Applying the same diff batch a second time fails on the first key it inserts. */
  lemma ReapplyingDiffBatchFails(m: TableModel, txid: int, src: Relation, live: Relation, log: ChangeLog)
    requires ValidModel(m) && Keyed(m, src) && Keyed(m, live)
    requires IsDiffBatch(m, txid, src, live, log)
    requires src.Keys - live.Keys != {}
    ensures ApplyChanges(m, live, log, txid).Ok?
    ensures ApplyChanges(m, ApplyChanges(m, live, log, txid).value, log, txid).Err?
  {
    DiffThenApplyReachesSource(m, txid, txid, src, live, log);
    var after := ApplyChanges(m, live, log, txid).value;
    DiffBatchDeleteKeys(m, txid, src, live, log);
    var again := ApplyUpdates(m, ApplyDeletes(m, after, log, txid), log, txid);
    assert again.Keys == src.Keys;
    DiffBatchInserts(m, txid, src, live, log);
    var k :| k in src.Keys - live.Keys;
    assert k in InsertedKeys(m, log, txid);
    ApplyInsertsSucceedsIff(m, again, log, txid);
  }

  // ----------------------------------------------------------------------------
  // applyUpdates reads rows of every operation

  /** The last row of a key is the same with or without the non-update rows, when the key has none. */
  lemma {:induction false} LastRowIgnoresOtherOperations(m: TableModel, log: ChangeLog, txid: int, k: Key)
    requires forall r :: r in log && r.txid == txid && KeyOf(m, r.row) == k ==> r.operation == Update
    ensures LastRowFor(m, log, txid, k) == LastRowFor(m, OnlyOperation(log, Update), txid, k)
    decreases |log|
  {
    if log != [] {
      var init := log[..|log| - 1];
      var last := log[|log| - 1];
      assert forall r :: r in init ==> r in log;
      LastRowIgnoresOtherOperations(m, init, txid, k);
      var f := OnlyOperation(init, Update);
      var matches := last.txid == txid && KeyOf(m, last.row) == k;
      assert LastRowFor(m, log, txid, k) == if matches then Some(last) else LastRowFor(m, init, txid, k);
      if last.operation == Update {
        var g := f + [last];
        assert OnlyOperation(log, Update) == g;
        assert g[..|g| - 1] == f && g[|g| - 1] == last;
        assert LastRowFor(m, g, txid, k) == if matches then Some(last) else LastRowFor(m, f, txid, k);
      } else {
        assert OnlyOperation(log, Update) == f;
        assert !matches;
      }
    }
  }

  /**
    `applyUpdates` joins on the transaction id alone: it gives the same table
    as a version restricted to update rows whenever no insert or delete row
    of the transaction has a live key.
   */
  lemma UpdatesNeedNoOperationFilter(m: TableModel, live: Relation, log: ChangeLog, txid: int)
    requires forall r :: r in log && r.txid == txid && r.operation != Update ==> KeyOf(m, r.row) !in live
    ensures ApplyUpdates(m, live, log, txid) == ApplyUpdates(m, live, OnlyOperation(log, Update), txid)
  {
    forall k | k in live
      ensures LastRowFor(m, log, txid, k) == LastRowFor(m, OnlyOperation(log, Update), txid, k)
    {
      LastRowIgnoresOtherOperations(m, log, txid, k);
    }
  }

  /**
    In `applyChanges` on a diff batch, the deletes run first and insert keys are
    not live, so the missing operation filter in `applyUpdates` is harmless.
   */
  lemma DiffBatchUpdatesNeedNoOperationFilter(m: TableModel, txid: int, src: Relation, live: Relation, log: ChangeLog)
    requires ValidModel(m) && Keyed(m, src) && Keyed(m, live)
    requires IsDiffBatch(m, txid, src, live, log)
    ensures var l1 := ApplyDeletes(m, live, log, txid);
      ApplyUpdates(m, l1, log, txid) == ApplyUpdates(m, l1, OnlyOperation(log, Update), txid)
  {
    var l1 := ApplyDeletes(m, live, log, txid);
    DiffBatchDeleteKeys(m, txid, src, live, log);
    InsertRowsExactlyOnePerKey(m, txid, src, live, None);
    forall r | r in log && r.txid == txid && r.operation != Update
      ensures KeyOf(m, r.row) !in l1
    {
      if r.operation == Insert {
        assert r in InsertRows(m, txid, src, live, None);
      } else {
        assert KeyOf(m, r.row) in DeleteKeys(m, log, txid);
      }
    }
    UpdatesNeedNoOperationFilter(m, l1, log, txid);
  }

  /** Without that ordering the filter matters: an insert row whose key is live overwrites the live row. */
  lemma InsertRowOfLiveKeyUpdatesIt(m: TableModel, live: Relation, txid: int, r: ChangeRow)
    requires ValidModel(m) && Keyed(m, live)
    requires NonPrimaryColumnNames(m) != []
    requires IsTxInsert(r, txid) && KeyOf(m, r.row) in live
    ensures var k := KeyOf(m, r.row);
      && ApplyUpdates(m, live, [r], txid)[k] == SetNonKeyColumns(m, live[k], r.row)
      && ApplyUpdates(m, live, OnlyOperation([r], Update), txid) == live
  {
    var k := KeyOf(m, r.row);
    assert LastRowFor(m, [r], txid, k) == Some(r);
    assert OnlyOperation([r], Update) == [];
  }
}
