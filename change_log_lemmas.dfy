/**
  Properties of the change log itself: counting a transaction's rows, the
  history of one key, what the single-row writers record, what derivation and
  `applyCurrentTableToChangeTable` change, and the snapshot written by the
  lifecycle operations.
 */
module ChangeLogLemmas {
  import opened Relational
  import opened TableModelUtil
  import opened TableDiff
  import opened TableDiffLemmas

  // ----------------------------------------------------------------------------
  // Counting

  lemma {:induction false} CountTxAppend(a: ChangeLog, b: ChangeLog, txid: int)
    ensures CountTx(a + b, txid) == CountTx(a, txid) + CountTx(b, txid)
    decreases |a|
  {
    if a != [] {
      var ab := a + b;
      assert ab[0] == a[0] && ab[1..] == a[1..] + b;
      CountTxAppend(a[1..], b, txid);
      assert CountTx(ab, txid) == (if a[0].txid == txid then 1 else 0) + CountTx(a[1..] + b, txid);
    } else {
      assert a + b == b;
    }
  }

  /** A log of distinct rows that lists a set lists as many rows as the set has. */
  lemma {:induction false} EnumerationLength(s: seq<ChangeRow>, rows: set<ChangeRow>)
    requires Enumerates(s, rows)
    ensures |s| == |rows|
    decreases |s|
  {
    if s != [] {
      var t := s[1..];
      assert forall i :: 0 <= i < |t| ==> t[i] == s[i + 1];
      forall x | x in rows - {s[0]}
        ensures x in t
      {
        var i :| 0 <= i < |s| && s[i] == x;
      }
      EnumerationLength(t, rows - {s[0]});
    }
  }

  lemma {:induction false} CountTxAllOfTx(s: ChangeLog, txid: int)
    requires forall r :: r in s ==> r.txid == txid
    ensures CountTx(s, txid) == |s|
    decreases |s|
  {
    if s != [] {
      assert forall r :: r in s[1..] ==> r in s;
      CountTxAllOfTx(s[1..], txid);
    }
  }

  /**
    `countChanges` after a diff of a transaction new to the log: the count is
    the number of rows the diff produced.
   */
  lemma CountAfterAppend(before: ChangeLog, batch: ChangeLog, rows: set<ChangeRow>, txid: int)
    requires forall r :: r in before ==> r.txid != txid
    requires Enumerates(batch, rows)
    requires forall r :: r in rows ==> r.txid == txid
    ensures CountTx(before + batch, txid) == |rows|
  {
    CountTxAppend(before, batch, txid);
    CountTxNone(before, txid);
    CountTxAllOfTx(batch, txid);
    EnumerationLength(batch, rows);
  }

  lemma {:induction false} CountTxNone(s: ChangeLog, txid: int)
    requires forall r :: r in s ==> r.txid != txid
    ensures CountTx(s, txid) == 0
    decreases |s|
  {
    if s != [] {
      assert forall r :: r in s[1..] ==> r in s;
      CountTxNone(s[1..], txid);
    }
  }

  /** The rows of one full diff: inserts, changed rows and deletes counted by key. */
  lemma DifferencesCount(m: TableModel, txid: int, src: Relation, dst: Relation)
    requires ValidModel(m) && Keyed(m, src) && Keyed(m, dst)
    ensures |Differences(m, txid, src, dst, None)|
         == |src.Keys - dst.Keys| + |ChangedKeys(m, src, dst, None)| + |dst.Keys - src.Keys|
    ensures forall r :: r in Differences(m, txid, src, dst, None) ==> r.txid == txid
  {
    var ins, upd, del := InsertRows(m, txid, src, dst, None), UpdateRows(m, txid, src, dst, None), DeleteRows(m, txid, src, dst);
    DiffRowKinds(m, txid, src, dst);
    DisjointUnionCard(ins, upd, del);
    InsertCount(m, txid, src, dst);
    UpdateCount(m, txid, src, dst);
    DeleteCount(m, txid, src, dst);
  }

  lemma DiffRowKinds(m: TableModel, txid: int, src: Relation, dst: Relation)
    ensures forall r :: r in InsertRows(m, txid, src, dst, None) ==> r.operation == Insert && r.txid == txid
    ensures forall r :: r in UpdateRows(m, txid, src, dst, None) ==> r.operation == Update && r.txid == txid
    ensures forall r :: r in DeleteRows(m, txid, src, dst) ==> r.operation == Delete && r.txid == txid
    ensures InsertRows(m, txid, src, dst, None) * UpdateRows(m, txid, src, dst, None) == {}
    ensures InsertRows(m, txid, src, dst, None) * DeleteRows(m, txid, src, dst) == {}
    ensures UpdateRows(m, txid, src, dst, None) * DeleteRows(m, txid, src, dst) == {}
  {
  }

  lemma InsertCount(m: TableModel, txid: int, src: Relation, dst: Relation)
    requires ValidModel(m) && Keyed(m, src)
    ensures |InsertRows(m, txid, src, dst, None)| == |src.Keys - dst.Keys|
  {
    InsertRowsExactlyOnePerKey(m, txid, src, dst, None);
  }

  lemma UpdateCount(m: TableModel, txid: int, src: Relation, dst: Relation)
    requires ValidModel(m) && Keyed(m, src) && Keyed(m, dst)
    ensures |UpdateRows(m, txid, src, dst, None)| == |ChangedKeys(m, src, dst, None)|
  {
    UpdateRowsExactlyOnePerChangedKey(m, txid, src, dst, None);
  }

  lemma DeleteCount(m: TableModel, txid: int, src: Relation, dst: Relation)
    requires ValidModel(m) && Keyed(m, dst)
    ensures |DeleteRows(m, txid, src, dst)| == |dst.Keys - src.Keys|
  {
    DeleteRowsExactlyOnePerKey(m, txid, src, dst);
  }

  lemma DisjointUnionCard(a: set<ChangeRow>, b: set<ChangeRow>, c: set<ChangeRow>)
    requires a * b == {} && a * c == {} && b * c == {}
    ensures |a + b + c| == |a| + |b| + |c|
  {
    assert (a + b) * c == {};
  }

  // ----------------------------------------------------------------------------
  // History of one key

  lemma {:induction false} HistoryAppend(m: TableModel, a: ChangeLog, b: ChangeLog, k: Key)
    ensures History(m, a + b, k) == History(m, a, k) + History(m, b, k)
    decreases |a|
  {
    if a != [] {
      var ab := a + b;
      assert ab[0] == a[0] && ab[1..] == a[1..] + b;
      HistoryAppend(m, a[1..], b, k);
      assert History(m, ab, k) == (if KeyOf(m, a[0].row) == k then [a[0]] else []) + History(m, a[1..] + b, k);
    } else {
      assert a + b == b;
    }
  }

  /** The history of a key holds exactly the log's rows with that key, in log order. */
  lemma {:induction false} HistoryMembers(m: TableModel, log: ChangeLog, k: Key)
    ensures forall r :: r in History(m, log, k) <==> r in log && KeyOf(m, r.row) == k
    ensures |History(m, log, k)| <= |log|
    decreases |log|
  {
    if log != [] {
      HistoryMembers(m, log[1..], k);
      assert forall r :: r in log <==> r == log[0] || r in log[1..];
    }
  }

  // ----------------------------------------------------------------------------
  // Single-row writers

  /**
    `insert`, `update` and `del` record one non-public row of the requested
    operation. A written column holds the given value unless that value is
    NULL or falsy (0, the empty string, false), which becomes NULL; derived
    columns are written only by `insert`.
   */
  lemma SingleRowChangeColumns(m: TableModel, txid: int, op: Operation, row: Row, c: ColName)
    requires ValidModel(m) && c in AllColumnNames(m)
    ensures var r := SingleRowChange(m, txid, op, row);
      && r.txid == txid && r.changeid == None && r.operation == op && r.isPublic == Some(false)
      && c in r.row
      && (op == Insert || !IsDerived(m, c) ==>
            r.row[c] == if Get(row, c).Some? && !Falsy(Get(row, c).value) then Get(row, c) else None)
      && (op != Insert && IsDerived(m, c) ==> r.row[c] == None)
  {
    NonDerivedColumn(m, c);
  }

  /** A count of zero handed to `update` is recorded as NULL. */
  lemma ZeroIsRecordedAsNull(m: TableModel, txid: int, row: Row, c: ColName)
    requires ValidModel(m) && c in AllColumnNames(m) && !IsDerived(m, c)
    requires c in row && row[c] == Some(Int(0))
    ensures SingleRowChange(m, txid, Update, row).row[c] == None
  {
    SingleRowChangeColumns(m, txid, Update, row, c);
  }

  // ----------------------------------------------------------------------------
  // Derivation

  /**
    `deriveColumnsForChange` touches only the transaction's rows, and only
    their derived columns.
   */
  lemma DeriveChangesEffect(m: TableModel, log: ChangeLog, txid: int, derive: (ColName, Row) -> Option<Value>)
    ensures var d := DeriveChanges(m, log, txid, derive);
      && |d| == |log|
      && forall i :: 0 <= i < |log| ==>
          && d[i].txid == log[i].txid && d[i].changeid == log[i].changeid
          && d[i].operation == log[i].operation && d[i].isPublic == log[i].isPublic
          && (log[i].txid != txid ==> d[i] == log[i])
          && (log[i].txid == txid ==>
                forall c :: c in AllColumnNames(m) ==>
                  Get(d[i].row, c) == if IsDerived(m, c) then derive(c, log[i].row) else Get(log[i].row, c))
  {
  }

  // ----------------------------------------------------------------------------
  // Snapshots

  /**
    `clearHistory`, `initializeChangeTable` and `initChangeTable` record one
    insert row per live row, carrying its full image.
   */
  lemma SnapshotOnePerKey(m: TableModel, live: Relation, txid: int, isPublic: Option<bool>)
    requires ValidModel(m) && Keyed(m, live)
    ensures var rows := SnapshotRows(m, live, txid, isPublic);
      && |rows| == |live|
      && forall r :: r in rows ==>
          && KeyOf(m, r.row) in live && r.row == FullImage(m, live[KeyOf(m, r.row)])
          && r.txid == txid && r.operation == Insert && r.isPublic == isPublic && r.changeid == None
  {
    var rows := SnapshotRows(m, live, txid, isPublic);
    forall k | k in live
      ensures KeyOf(m, FullImage(m, live[k])) == k
    {
      KeyOfFullImage(m, live[k]);
    }
    forall k | k in live
      ensures exists r :: r in rows && KeyOf(m, r.row) == k
    {
      assert ChangeRow(txid, None, Insert, isPublic, FullImage(m, live[k])) in rows;
    }
    KeyedRowsCard(m, rows, live.Keys);
  }

  // ----------------------------------------------------------------------------
  // applyCurrentTableToChangeTable

  /**
    Only the latest change row of each live key is rewritten, and only in the
    columns to apply, which take the live row's values.
   */
  lemma ApplyCurrentToChangesEffect(m: TableModel, live: Relation, log: ChangeLog, columnsToApply: seq<ColName>)
    ensures var out := ApplyCurrentToChanges(m, live, log, columnsToApply);
      && |out| == |log|
      && forall i :: 0 <= i < |log| ==>
          var k := KeyOf(m, log[i].row);
          && Stamp(out[i]) == Stamp(log[i]) && out[i].operation == log[i].operation && out[i].isPublic == log[i].isPublic
          && (k in live && LatestStamp(m, log, k) == Some(Stamp(log[i])) ==>
                && (forall c :: c in columnsToApply ==> Get(out[i].row, c) == Get(live[k], c))
                && (forall c :: c !in columnsToApply ==> Get(out[i].row, c) == Get(log[i].row, c)))
          && (!(k in live && LatestStamp(m, log, k) == Some(Stamp(log[i]))) ==> out[i] == log[i])
  {
    forall i | 0 <= i < |log| && KeyOf(m, log[i].row) in live
      ensures var k := KeyOf(m, log[i].row);
        && (forall c :: c in columnsToApply ==> Get(log[i].row + map c | c in columnsToApply :: Get(live[k], c), c) == Get(live[k], c))
        && (forall c :: c !in columnsToApply ==> Get(log[i].row + map c | c in columnsToApply :: Get(live[k], c), c) == Get(log[i].row, c))
    {
      ColumnsOverwritten(log[i].row, live[KeyOf(m, log[i].row)], columnsToApply);
    }
  }

  /** Overwriting the listed columns of a row with another row's values. */
  lemma ColumnsOverwritten(row: Row, source: Row, cols: seq<ColName>)
    ensures forall c :: c in cols ==> Get(row + map c | c in cols :: Get(source, c), c) == Get(source, c)
    ensures forall c :: c !in cols ==> Get(row + map c | c in cols :: Get(source, c), c) == Get(row, c)
  {
  }
}
