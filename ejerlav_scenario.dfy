/**
  The replication scenario of the integration tests on the `ejerlav` table
  (key `kode`, columns `navn` and the derived, non-public `tsv`): starting
  from an empty table, three import transactions diff a staging relation
  against the table and apply the result.
 */
module EjerlavScenario {
  import opened Relational
  import opened TableModelUtil
  import opened TableDiff
  import opened TableDiffLemmas
  import opened ChangeLogLemmas
  import opened ChangeTables

  function Ejerlav(): TableModel {
    TableModel("ejerlav", "ejerlav", ["kode"],
      [Column("kode", true, false), Column("navn", true, false), Column("tsv", false, true)])
  }

  function KeyFor(kode: int): Key {
    [Some(Int(kode))]
  }

  /** A staged `ejerlav` row; `tsv` is NULL until derived. */
  function EjerlavRow(kode: int, navn: string): Row {
    map["kode" := Some(Int(kode)), "navn" := Some(Text(navn)), "tsv" := None]
  }

  lemma EjerlavColumns()
    ensures ValidModel(Ejerlav())
    ensures AllColumnNames(Ejerlav()) == ["kode", "navn", "tsv"]
    ensures DerivedColumnNames(Ejerlav()) == ["tsv"]
    ensures NonPrimaryColumnNames(Ejerlav()) == ["navn", "tsv"]
    ensures !IsDerived(Ejerlav(), "kode") && !IsDerived(Ejerlav(), "navn") && IsDerived(Ejerlav(), "tsv")
  {
    var m := Ejerlav();
    var cols := m.columns;
    assert cols[1..][1..][1..] == [];
    assert AllColumnNames(m) == ["kode"] + (["navn"] + (["tsv"] + []));
    assert DerivedColumnNames(m) == [] + ([] + (["tsv"] + []));
    assert Difference(["tsv"], ["kode"]) == ["tsv"];
    assert Difference(["navn", "tsv"], ["kode"]) == ["navn"] + Difference(["navn", "tsv"][1..], ["kode"]);
  }

  lemma EjerlavRowKey(kode: int, navn: string)
    ensures KeyOf(Ejerlav(), EjerlavRow(kode, navn)) == KeyFor(kode)
  {
  }

  /** Without a column list an update takes `navn` from the source: a row changed exactly when its `navn` did. */
  lemma EjerlavRowChanged(before: Row, srow: Row)
    ensures RowChanged(Ejerlav(), None, before, srow) <==> Get(before, "navn") != Get(srow, "navn")
  {
    var m := Ejerlav();
    EjerlavColumns();
    assert NonPreservedColumns(m, None) == ["kode", "navn", "tsv"];
    assert "navn" in ColumnsFromSource(m, None);
    var after := AfterImage(m, None, before, srow);
    assert Get(after, "navn") == Get(srow, "navn");
    if Get(before, "navn") != Get(srow, "navn") {
      assert ColumnsDistinct(m, before, after, NonPrimaryColumnNames(m)) by {
        assert "navn" in NonPrimaryColumnNames(m) && !IsDerived(m, "navn");
      }
    }
  }

  /** Every row of a log that ends in a batch of diff rows of `txid` has a txid of at most `txid`. */
  lemma AppendedTxids(m: TableModel, txid: int, src: Relation, dst: Relation, before: ChangeLog, after: ChangeLog)
    requires ValidModel(m) && Keyed(m, src) && Keyed(m, dst)
    requires forall r :: r in before ==> r.txid < txid
    requires Appended(before, after, Differences(m, txid, src, dst, None))
    ensures forall r :: r in after ==> r.txid <= txid
  {
    DifferencesCount(m, txid, src, dst);
    forall r | r in after
      ensures r.txid <= txid
    {
      var i :| 0 <= i < |after| && after[i] == r;
      if i < |before| {
        assert after[..|before|][i] == r;
      } else {
        assert after[|before|..][i - |before|] == r;
      }
    }
  }

  /** The history of `k` in a batch holding one row `r` with that key is `[r]`. */
  lemma {:induction false} HistoryOfBatch(m: TableModel, s: ChangeLog, k: Key, r: ChangeRow)
    requires forall i, j :: 0 <= i < j < |s| ==> s[i] != s[j]
    requires r in s && KeyOf(m, r.row) == k
    requires forall x :: x in s && KeyOf(m, x.row) == k ==> x == r
    ensures History(m, s, k) == [r]
    decreases |s|
  {
    var rest := s[1..];
    assert forall i :: 0 <= i < |rest| ==> rest[i] == s[i + 1];
    assert forall x :: x in rest ==> x in s;
    assert History(m, s, k) == (if KeyOf(m, s[0].row) == k then [s[0]] else []) + History(m, rest, k);
    if s[0] == r {
      assert r !in rest;
      HistoryOfNoRow(m, rest, k);
    } else {
      HistoryOfBatch(m, rest, k, r);
    }
  }

  lemma {:induction false} HistoryOfNoRow(m: TableModel, s: ChangeLog, k: Key)
    requires forall x :: x in s ==> KeyOf(m, x.row) != k
    ensures History(m, s, k) == []
    decreases |s|
  {
    if s != [] {
      assert forall x :: x in s[1..] ==> x in s;
      HistoryOfNoRow(m, s[1..], k);
    }
  }

  /** The history of `k` in the part of `after` that a diff batch appended. */
  lemma HistoryOfAppendedBatch(m: TableModel, before: ChangeLog, after: ChangeLog, rows: set<ChangeRow>, k: Key, r: ChangeRow)
    requires Appended(before, after, rows)
    requires r in rows && KeyOf(m, r.row) == k
    requires forall x :: x in rows && KeyOf(m, x.row) == k ==> x == r
    ensures History(m, after, k) == History(m, before, k) + [r]
  {
    var batch := after[|before|..];
    assert after == before + batch;
    HistoryAppend(m, before, batch, k);
    HistoryOfBatch(m, batch, k, r);
  }

  /**
    A diff row is the only one of its key in the diff, so applying the batch
    extends that key's history by exactly that row.
   */
  lemma HistoryOfDiffKey(m: TableModel, txid: int, src: Relation, live: Relation, before: ChangeLog, after: ChangeLog,
                         k: Key, r: ChangeRow)
    requires ValidModel(m) && Keyed(m, src) && Keyed(m, live)
    requires Appended(before, after, Differences(m, txid, src, live, None))
    requires r in Differences(m, txid, src, live, None) && KeyOf(m, r.row) == k
    ensures History(m, after, k) == History(m, before, k) + [r]
  {
    var diff := Differences(m, txid, src, live, None);
    InsertRowKey(m, txid, src, live, None, r);
    UpdateRowKey(m, txid, src, live, None, r);
    DeleteRowKey(m, txid, src, live, r);
    forall x | x in diff && KeyOf(m, x.row) == k
      ensures x == r
    {
      InsertRowKey(m, txid, src, live, None, x);
      UpdateRowKey(m, txid, src, live, None, x);
      DeleteRowKey(m, txid, src, live, x);
    }
    HistoryOfAppendedBatch(m, before, after, diff, k, r);
  }

  /**
    One import transaction: the full diff of `src` against the table is
    appended to the log and applied. The table then agrees with `src`, and the
    transaction's change rows are one per inserted, changed and deleted key.
   */
  lemma Transaction(m: TableModel, txid: int, src: Relation, live: Relation, before: ChangeLog, after: ChangeLog)
    requires ValidModel(m) && Keyed(m, src) && Keyed(m, live)
    requires forall r :: r in before ==> r.txid < txid
    requires Appended(before, after, Differences(m, txid, src, live, None))
    ensures ApplyChanges(m, live, after, txid).Ok?
    ensures var result := ApplyChanges(m, live, after, txid).value;
      result.Keys == src.Keys && Agrees(m, result, src)
    ensures CountTx(after, txid) == |src.Keys - live.Keys| + |ChangedKeys(m, src, live, None)| + |live.Keys - src.Keys|
    ensures |after| == |before| + CountTx(after, txid)
    ensures forall r :: r in after ==> r.txid <= txid
  {
    DifferencesThenApplyChanges(m, txid, txid, src, live, before, after);
    DifferencesCount(m, txid, src, live);
    var batch := after[|before|..];
    assert after == before + batch;
    CountAfterAppend(before, batch, Differences(m, txid, src, live, None), txid);
    EnumerationLength(batch, Differences(m, txid, src, live, None));
    AppendedTxids(m, txid, src, live, before, after);
  }

  /** Relations that agree hold the same `navn` under each key. */
  lemma NavnAgrees(a: Relation, b: Relation, k: Key)
    requires Agrees(Ejerlav(), a, b) && k in a
    ensures k in b && Get(a[k], "navn") == Get(b[k], "navn")
  {
    EjerlavColumns();
  }

  /** A key only `src` holds gets one insert row: the selected image of its `src` row. */
  lemma InsertedKeyHistory(m: TableModel, txid: int, src: Relation, live: Relation, before: ChangeLog, after: ChangeLog, k: Key)
    requires ValidModel(m) && Keyed(m, src) && Keyed(m, live)
    requires Appended(before, after, Differences(m, txid, src, live, None))
    requires k in src && k !in live
    ensures History(m, after, k) == History(m, before, k) + [InsertRow(m, txid, AllColumnNames(m), src[k])]
  {
    var r := InsertRow(m, txid, AllColumnNames(m), src[k]);
    assert r in InsertRows(m, txid, src, live, None);
    KeyOfSelectImage(m, AllColumnNames(m), src[k]);
    HistoryOfDiffKey(m, txid, src, live, before, after, k, r);
  }

  /** A key whose row changed gets one update row. */
  lemma UpdatedKeyHistory(m: TableModel, txid: int, src: Relation, live: Relation, before: ChangeLog, after: ChangeLog, k: Key)
    requires ValidModel(m) && Keyed(m, src) && Keyed(m, live)
    requires Appended(before, after, Differences(m, txid, src, live, None))
    requires k in src && k in live && RowChanged(m, None, live[k], src[k])
    ensures History(m, after, k) == History(m, before, k) + [UpdateRow(m, txid, None, live[k], src[k])]
  {
    var r := UpdateRow(m, txid, None, live[k], src[k]);
    assert r in UpdateRows(m, txid, src, live, None) by {
      assert k in ChangedKeys(m, src, live, None);
    }
    KeyOfAfterImage(m, None, live[k], src[k]);
    HistoryOfDiffKey(m, txid, src, live, before, after, k, r);
  }

  /** A key only `live` holds gets one delete row: the full image of its row. */
  lemma DeletedKeyHistory(m: TableModel, txid: int, src: Relation, live: Relation, before: ChangeLog, after: ChangeLog, k: Key)
    requires ValidModel(m) && Keyed(m, src) && Keyed(m, live)
    requires Appended(before, after, Differences(m, txid, src, live, None))
    requires k !in src && k in live
    ensures History(m, after, k) == History(m, before, k) + [DeleteRow(m, txid, live[k])]
  {
    var r := DeleteRow(m, txid, live[k]);
    assert r in DeleteRows(m, txid, src, live);
    KeyOfFullImage(m, live[k]);
    HistoryOfDiffKey(m, txid, src, live, before, after, k, r);
  }

  /** A key on both sides whose row did not change gets no change row: its history stays as it was. */
  lemma UnchangedKeyHistory(m: TableModel, txid: int, src: Relation, live: Relation, before: ChangeLog, after: ChangeLog, k: Key)
    requires ValidModel(m) && Keyed(m, src) && Keyed(m, live)
    requires Appended(before, after, Differences(m, txid, src, live, None))
    requires k in src && k in live && !RowChanged(m, None, live[k], src[k])
    ensures History(m, after, k) == History(m, before, k)
  {
    var diff := Differences(m, txid, src, live, None);
    forall x | x in diff
      ensures KeyOf(m, x.row) != k
    {
      InsertRowKey(m, txid, src, live, None, x);
      UpdateRowKey(m, txid, src, live, None, x);
      DeleteRowKey(m, txid, src, live, x);
    }
    var batch := after[|before|..];
    assert after == before + batch;
    HistoryAppend(m, before, batch, k);
    HistoryOfNoRow(m, batch, k);
    assert History(m, before, k) + [] == History(m, before, k);
  }

  /** The `navn` an `ejerlav` change row carries: the staged one for an insert or update, the old one for a delete. */
  lemma ChangeRowNames(txid: int, before: Row, srow: Row)
    ensures Get(InsertRow(Ejerlav(), txid, AllColumnNames(Ejerlav()), srow).row, "navn") == Get(srow, "navn")
    ensures Get(UpdateRow(Ejerlav(), txid, None, before, srow).row, "navn") == Get(srow, "navn")
    ensures Get(DeleteRow(Ejerlav(), txid, before).row, "navn") == Get(before, "navn")
  {
    var m := Ejerlav();
    EjerlavColumns();
    assert NonPreservedColumns(m, None) == ["kode", "navn", "tsv"];
    assert "navn" in ColumnsFromSource(m, None);
  }

  function NoRows(): Relation {
    map[]
  }

  function Src1(): Relation {
    map[KeyFor(1) := EjerlavRow(1, "foo"), KeyFor(2) := EjerlavRow(2, "foobar")]
  }

  function Src2(): Relation {
    map[KeyFor(1) := EjerlavRow(1, "bar"), KeyFor(2) := EjerlavRow(2, "foobar")]
  }

  function Src3(): Relation {
    map[KeyFor(2) := EjerlavRow(2, "foobar")]
  }

  /** The keys and names of the staged relations. */
  lemma StagedRows()
    ensures KeyFor(1) != KeyFor(2)
    ensures Src1().Keys == {KeyFor(1), KeyFor(2)} && Src2().Keys == {KeyFor(1), KeyFor(2)} && Src3().Keys == {KeyFor(2)}
    ensures Get(Src1()[KeyFor(1)], "navn") == Some(Text("foo")) && Get(Src1()[KeyFor(2)], "navn") == Some(Text("foobar"))
    ensures Get(Src2()[KeyFor(1)], "navn") == Some(Text("bar")) && Get(Src2()[KeyFor(2)], "navn") == Some(Text("foobar"))
    ensures Get(Src3()[KeyFor(2)], "navn") == Some(Text("foobar"))
  {
    assert KeyFor(1)[0] != KeyFor(2)[0];
  }

  lemma StagedRowsKeyed()
    ensures Keyed(Ejerlav(), NoRows())
    ensures Keyed(Ejerlav(), Src1()) && Keyed(Ejerlav(), Src2()) && Keyed(Ejerlav(), Src3())
  {
    EjerlavRowKey(1, "foo");
    EjerlavRowKey(1, "bar");
    EjerlavRowKey(2, "foobar");
  }

  /** The changed keys, given which common keys changed. */
  lemma ChangedKeysAre(m: TableModel, src: Relation, dst: Relation, columns: Option<seq<ColName>>, keys: set<Key>)
    requires forall k :: k in keys ==> k in src && k in dst && RowChanged(m, columns, dst[k], src[k])
    requires forall k :: k in src && k in dst && k !in keys ==> !RowChanged(m, columns, dst[k], src[k])
    ensures ChangedKeys(m, src, dst, columns) == keys
  {
  }

  // ----------------------------------------------------------------------------
  // Transaction 1: `{1: foo, 2: foobar}` loaded into the empty table

  lemma Keys1()
    ensures ChangedKeys(Ejerlav(), Src1(), NoRows(), None) == {}
    ensures |Src1().Keys - NoRows().Keys| == 2 && |NoRows().Keys - Src1().Keys| == 0
  {
    assert Src1().Keys - NoRows().Keys == {KeyFor(1), KeyFor(2)};
    assert NoRows().Keys - Src1().Keys == {};
  }

  /** Each staged key gets one insert row, carrying its staged name. */
  lemma History1(log1: ChangeLog, k: Key)
    requires Appended([], log1, Differences(Ejerlav(), 1, Src1(), NoRows(), None))
    requires k in Src1()
    ensures var h := History(Ejerlav(), log1, k);
      |h| == 1 && h[0].operation == Insert && Get(h[0].row, "navn") == Get(Src1()[k], "navn")
  {
    var m := Ejerlav();
    StagedRowsKeyed();
    EjerlavColumns();
    var srow := Src1()[k];
    InsertedKeyHistory(m, 1, Src1(), NoRows(), [], log1, k);
    var r := InsertRow(m, 1, AllColumnNames(m), srow);
    assert History(m, log1, k) == [r] by {
      assert History(m, [], k) == [];
    }
    ChangeRowNames(1, map[], srow);
  }

  /** Two inserts. */
  lemma Transaction1(log1: ChangeLog)
    requires Appended([], log1, Differences(Ejerlav(), 1, Src1(), NoRows(), None))
    ensures ApplyChanges(Ejerlav(), NoRows(), log1, 1).Ok?
    ensures Agrees(Ejerlav(), ApplyChanges(Ejerlav(), NoRows(), log1, 1).value, Src1())
    ensures CountTx(log1, 1) == 2 && |log1| == 2
    ensures forall r :: r in log1 ==> r.txid < 2
    ensures var h := History(Ejerlav(), log1, KeyFor(1));
      |h| == 1 && h[0].operation == Insert && Get(h[0].row, "navn") == Some(Text("foo"))
  {
    EjerlavColumns();
    StagedRowsKeyed();
    Transaction(Ejerlav(), 1, Src1(), NoRows(), [], log1);
    Keys1();
    StagedRows();
    History1(log1, KeyFor(1));
  }

  /** `2` is inserted once, named foobar. */
  lemma Kode2History1(log1: ChangeLog)
    requires Appended([], log1, Differences(Ejerlav(), 1, Src1(), NoRows(), None))
    ensures var h := History(Ejerlav(), log1, KeyFor(2));
      |h| == 1 && h[0].operation == Insert && Get(h[0].row, "navn") == Some(Text("foobar"))
  {
    StagedRows();
    History1(log1, KeyFor(2));
  }

  // ----------------------------------------------------------------------------
  // Transaction 2: `1` renamed to `bar`

  lemma Keys2(live1: Relation)
    requires Agrees(Ejerlav(), live1, Src1())
    ensures ChangedKeys(Ejerlav(), Src2(), live1, None) == {KeyFor(1)}
    ensures |Src2().Keys - live1.Keys| == 0 && |live1.Keys - Src2().Keys| == 0
  {
    var m, src := Ejerlav(), Src2();
    var k1, k2 := KeyFor(1), KeyFor(2);
    StagedRows();
    NavnAgrees(live1, Src1(), k1);
    NavnAgrees(live1, Src1(), k2);
    EjerlavRowChanged(live1[k1], src[k1]);
    EjerlavRowChanged(live1[k2], src[k2]);
    ChangedKeysOfTwo(m, src, live1, k1, k2);
  }

  /** Of two common keys, the one whose row changed is the changed one. */
  lemma ChangedKeysOfTwo(m: TableModel, src: Relation, live: Relation, a: Key, b: Key)
    requires src.Keys == {a, b} && live.Keys == {a, b}
    requires RowChanged(m, None, live[a], src[a]) && !RowChanged(m, None, live[b], src[b])
    ensures ChangedKeys(m, src, live, None) == {a}
    ensures |src.Keys - live.Keys| == 0 && |live.Keys - src.Keys| == 0
  {
    ChangedKeysAre(m, src, live, None, {a});
    assert src.Keys - live.Keys == {} && live.Keys - src.Keys == {};
  }

  lemma History2(live1: Relation, log1: ChangeLog, log2: ChangeLog)
    requires Keyed(Ejerlav(), live1) && Agrees(Ejerlav(), live1, Src1())
    requires Appended(log1, log2, Differences(Ejerlav(), 2, Src2(), live1, None))
    ensures exists u ::
      && History(Ejerlav(), log2, KeyFor(1)) == History(Ejerlav(), log1, KeyFor(1)) + [u]
      && u.operation == Update && Get(u.row, "navn") == Some(Text("bar"))
  {
    StagedRows();
    StagedRowsKeyed();
    EjerlavColumns();
    var k1 := KeyFor(1);
    NavnAgrees(live1, Src1(), k1);
    EjerlavRowChanged(live1[k1], Src2()[k1]);
    UpdatedKeyHistory(Ejerlav(), 2, Src2(), live1, log1, log2, k1);
    ChangeRowNames(2, live1[k1], Src2()[k1]);
  }

  /** One update, carrying the new name. */
  lemma Transaction2(live1: Relation, log1: ChangeLog, log2: ChangeLog)
    requires Keyed(Ejerlav(), live1) && Agrees(Ejerlav(), live1, Src1())
    requires forall r :: r in log1 ==> r.txid < 2
    requires Appended(log1, log2, Differences(Ejerlav(), 2, Src2(), live1, None))
    ensures ApplyChanges(Ejerlav(), live1, log2, 2).Ok?
    ensures Agrees(Ejerlav(), ApplyChanges(Ejerlav(), live1, log2, 2).value, Src2())
    ensures CountTx(log2, 2) == 1 && |log2| == |log1| + 1
    ensures forall r :: r in log2 ==> r.txid < 3
    ensures exists u ::
      && History(Ejerlav(), log2, KeyFor(1)) == History(Ejerlav(), log1, KeyFor(1)) + [u]
      && u.operation == Update && Get(u.row, "navn") == Some(Text("bar"))
  {
    EjerlavColumns();
    StagedRowsKeyed();
    Transaction(Ejerlav(), 2, Src2(), live1, log1, log2);
    Keys2(live1);
    History2(live1, log1, log2);
  }

  /** `2` is staged unchanged, so the second transaction writes no row for it. */
  lemma Kode2History2(live1: Relation, log1: ChangeLog, log2: ChangeLog)
    requires Keyed(Ejerlav(), live1) && Agrees(Ejerlav(), live1, Src1())
    requires Appended(log1, log2, Differences(Ejerlav(), 2, Src2(), live1, None))
    ensures History(Ejerlav(), log2, KeyFor(2)) == History(Ejerlav(), log1, KeyFor(2))
  {
    var k2 := KeyFor(2);
    StagedRows();
    StagedRowsKeyed();
    EjerlavColumns();
    NavnAgrees(live1, Src1(), k2);
    EjerlavRowChanged(live1[k2], Src2()[k2]);
    UnchangedKeyHistory(Ejerlav(), 2, Src2(), live1, log1, log2, k2);
  }

  // ----------------------------------------------------------------------------
  // Transaction 3: `1` removed

  lemma Keys3(live2: Relation)
    requires Agrees(Ejerlav(), live2, Src2())
    ensures ChangedKeys(Ejerlav(), Src3(), live2, None) == {}
    ensures |Src3().Keys - live2.Keys| == 0 && |live2.Keys - Src3().Keys| == 1
  {
    var m, src := Ejerlav(), Src3();
    var k2 := KeyFor(2);
    StagedRows();
    NavnAgrees(live2, Src2(), k2);
    EjerlavRowChanged(live2[k2], src[k2]);
    ChangedKeysAre(m, src, live2, None, {});
    KeysLeft(live2.Keys);
  }

  lemma KeysLeft(keys: set<Key>)
    requires keys == {KeyFor(1), KeyFor(2)}
    ensures |Src3().Keys - keys| == 0 && |keys - Src3().Keys| == 1
  {
    assert Src3().Keys == {KeyFor(2)};
    assert Src3().Keys - keys == {};
    assert keys - Src3().Keys == {KeyFor(1)};
  }

  lemma History3(live2: Relation, log2: ChangeLog, log3: ChangeLog)
    requires Keyed(Ejerlav(), live2) && Agrees(Ejerlav(), live2, Src2())
    requires Appended(log2, log3, Differences(Ejerlav(), 3, Src3(), live2, None))
    ensures exists d ::
      && History(Ejerlav(), log3, KeyFor(1)) == History(Ejerlav(), log2, KeyFor(1)) + [d]
      && d.operation == Delete && Get(d.row, "navn") == Some(Text("bar"))
  {
    StagedRows();
    StagedRowsKeyed();
    assert KeyFor(1) in live2;
    EjerlavColumns();
    NavnAgrees(live2, Src2(), KeyFor(1));
    DeletedKeyHistory(Ejerlav(), 3, Src3(), live2, log2, log3, KeyFor(1));
    ChangeRowNames(3, live2[KeyFor(1)], map[]);
  }

  /** One delete, carrying the name the row had. */
  lemma Transaction3(live2: Relation, log2: ChangeLog, log3: ChangeLog)
    requires Keyed(Ejerlav(), live2) && Agrees(Ejerlav(), live2, Src2())
    requires forall r :: r in log2 ==> r.txid < 3
    requires Appended(log2, log3, Differences(Ejerlav(), 3, Src3(), live2, None))
    ensures ApplyChanges(Ejerlav(), live2, log3, 3).Ok?
    ensures Agrees(Ejerlav(), ApplyChanges(Ejerlav(), live2, log3, 3).value, Src3())
    ensures CountTx(log3, 3) == 1 && |log3| == |log2| + 1
    ensures exists d ::
      && History(Ejerlav(), log3, KeyFor(1)) == History(Ejerlav(), log2, KeyFor(1)) + [d]
      && d.operation == Delete && Get(d.row, "navn") == Some(Text("bar"))
  {
    EjerlavColumns();
    StagedRowsKeyed();
    Transaction(Ejerlav(), 3, Src3(), live2, log2, log3);
    Keys3(live2);
    History3(live2, log2, log3);
  }

  /** `2` is staged unchanged again, so the third transaction writes no row for it either. */
  lemma Kode2History3(live2: Relation, log2: ChangeLog, log3: ChangeLog)
    requires Keyed(Ejerlav(), live2) && Agrees(Ejerlav(), live2, Src2())
    requires Appended(log2, log3, Differences(Ejerlav(), 3, Src3(), live2, None))
    ensures History(Ejerlav(), log3, KeyFor(2)) == History(Ejerlav(), log2, KeyFor(2))
  {
    var k2 := KeyFor(2);
    StagedRows();
    StagedRowsKeyed();
    EjerlavColumns();
    NavnAgrees(live2, Src2(), k2);
    EjerlavRowChanged(live2[k2], Src3()[k2]);
    UnchangedKeyHistory(Ejerlav(), 3, Src3(), live2, log2, log3, k2);
  }

  /** What is left after the third transaction: `2`, named foobar. */
  lemma FinalTable(live3: Relation)
    requires Agrees(Ejerlav(), live3, Src3())
    ensures live3.Keys == {KeyFor(2)} && Get(live3[KeyFor(2)], "navn") == Some(Text("foobar"))
  {
    EjerlavColumns();
    assert Get(live3[KeyFor(2)], "navn") == Get(Src3()[KeyFor(2)], "navn");
  }

  /** The history of `1` over the three transactions. */
  lemma HistoryOfKey1(log1: ChangeLog, log2: ChangeLog, log3: ChangeLog)
    requires var h := History(Ejerlav(), log1, KeyFor(1));
      |h| == 1 && h[0].operation == Insert && Get(h[0].row, "navn") == Some(Text("foo"))
    requires exists u ::
      && History(Ejerlav(), log2, KeyFor(1)) == History(Ejerlav(), log1, KeyFor(1)) + [u]
      && u.operation == Update && Get(u.row, "navn") == Some(Text("bar"))
    requires exists d ::
      && History(Ejerlav(), log3, KeyFor(1)) == History(Ejerlav(), log2, KeyFor(1)) + [d]
      && d.operation == Delete && Get(d.row, "navn") == Some(Text("bar"))
    ensures var h := History(Ejerlav(), log3, KeyFor(1));
      && |h| == 3
      && h[0].operation == Insert && h[1].operation == Update && h[2].operation == Delete
      && Get(h[0].row, "navn") == Some(Text("foo"))
      && Get(h[1].row, "navn") == Some(Text("bar"))
      && Get(h[2].row, "navn") == Some(Text("bar"))
  {
    var u :| && History(Ejerlav(), log2, KeyFor(1)) == History(Ejerlav(), log1, KeyFor(1)) + [u]
      && u.operation == Update && Get(u.row, "navn") == Some(Text("bar"));
    var d :| && History(Ejerlav(), log3, KeyFor(1)) == History(Ejerlav(), log2, KeyFor(1)) + [d]
      && d.operation == Delete && Get(d.row, "navn") == Some(Text("bar"));
    var h1 := History(Ejerlav(), log1, KeyFor(1));
    var h2 := History(Ejerlav(), log2, KeyFor(1));
    ThreeRows(h1, h2, History(Ejerlav(), log3, KeyFor(1)), u, d);
  }

  lemma ThreeRows(h1: ChangeLog, h2: ChangeLog, h3: ChangeLog, u: ChangeRow, d: ChangeRow)
    requires |h1| == 1 && h2 == h1 + [u] && h3 == h2 + [d]
    ensures h3 == [h1[0], u, d]
  {
  }

  /**
    The three transactions of the scenario: `{1: foo, 2: foobar}` is loaded
    into the empty table, `1` is renamed to `bar`, then `1` is removed. The
    transactions record two inserts, one update and one delete; only `2`
    stays live; and the change rows of `1` are its insert, update and delete,
    with names foo, bar, bar, while `2` has its one insert, named foobar: four
    change rows in all.
   */
  method ReplicationScenario() returns (table: ChangeTrackedTable, inserted: nat, updated: nat, deleted: nat)
    ensures inserted == 2 && updated == 1 && deleted == 1
    ensures table.live.Keys == {KeyFor(2)} && Get(table.live[KeyFor(2)], "navn") == Some(Text("foobar"))
    ensures var h := History(Ejerlav(), table.changes, KeyFor(1));
      && |h| == 3
      && h[0].operation == Insert && h[1].operation == Update && h[2].operation == Delete
      && Get(h[0].row, "navn") == Some(Text("foo"))
      && Get(h[1].row, "navn") == Some(Text("bar"))
      && Get(h[2].row, "navn") == Some(Text("bar"))
    ensures var h := History(Ejerlav(), table.changes, KeyFor(2));
      |h| == 1 && h[0].operation == Insert && Get(h[0].row, "navn") == Some(Text("foobar"))
    ensures |table.changes| == 4
  {
    EjerlavColumns();
    StagedRowsKeyed();
    table := new ChangeTrackedTable(Ejerlav(), NoRows());

    table.ComputeDifferences(1, Src1(), None);
    ghost var log1 := table.changes;
    Transaction1(log1);
    Kode2History1(log1);
    var err := table.ApplyChanges(1);
    ghost var live1 := table.live;
    inserted := table.CountChanges(1);

    table.ComputeDifferences(2, Src2(), None);
    ghost var log2 := table.changes;
    Transaction2(live1, log1, log2);
    Kode2History2(live1, log1, log2);
    err := table.ApplyChanges(2);
    ghost var live2 := table.live;
    updated := table.CountChanges(2);

    table.ComputeDifferences(3, Src3(), None);
    ghost var log3 := table.changes;
    Transaction3(live2, log2, log3);
    Kode2History3(live2, log2, log3);
    err := table.ApplyChanges(3);
    deleted := table.CountChanges(3);
    HistoryOfKey1(log1, log2, log3);
    FinalTable(table.live);
  }
}
