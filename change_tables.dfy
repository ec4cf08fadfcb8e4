/**
  A tracked table and its change table (`<table>_changes`) as one object: the
  diff operations append change rows to the log, the apply operations replay a
  transaction's rows onto the live table. Each method's contract ties the new
  state to the relational meaning of its statement in `TableDiff`.
 */
module ChangeTables {
  import opened Relational
  import opened TableModelUtil
  import opened TableDiff
  import opened TableDiffLemmas
  import opened ApplyLemmas

  /** `after` is `before` followed by every row of `rows`, each once, in some order. */
  predicate Appended(before: ChangeLog, after: ChangeLog, rows: set<ChangeRow>) {
    |before| <= |after| && after[..|before|] == before && Enumerates(after[|before|..], rows)
  }

  lemma SetNonKeyColumnsKeepsKey(m: TableModel, liveRow: Row, changed: Row)
    ensures KeyOf(m, SetNonKeyColumns(m, liveRow, changed)) == KeyOf(m, liveRow)
  {
    assert forall c :: c in m.primaryKey ==> c !in NonPrimaryColumnNames(m);
    SameKeyColumns(m, SetNonKeyColumns(m, liveRow, changed), liveRow);
  }

  /** The keys of the live table stay the keys of its rows under `applyUpdates`. */
  lemma ApplyUpdatesKeepsKeyed(m: TableModel, live: Relation, log: ChangeLog, txid: int)
    requires Keyed(m, live)
    ensures ApplyUpdates(m, live, log, txid).Keys == live.Keys
    ensures Keyed(m, ApplyUpdates(m, live, log, txid))
  {
    if NonPrimaryColumnNames(m) != [] {
      var r := ApplyUpdates(m, live, log, txid);
      forall k | k in r
        ensures KeyOf(m, r[k]) == k
      {
        match LastRowFor(m, log, txid, k)
        case None =>
        case Some(x) =>
          SetNonKeyColumnsKeepsKey(m, live[k], x.row);
      }
    }
  }

  /** A successful `applyInserts` leaves every row under its own key. */
  lemma ApplyInsertsKeepsKeyed(m: TableModel, live: Relation, log: ChangeLog, txid: int)
    requires ValidModel(m) && Keyed(m, live)
    requires ApplyInserts(m, live, log, txid).Ok?
    ensures Keyed(m, ApplyInserts(m, live, log, txid).value)
  {
    ApplyInsertsSucceedsIff(m, live, log, txid);
    InsertedRowsValues(m, log, txid);
    var ins := InsertedRows(m, log, txid);
    forall k | k in ins
      ensures KeyOf(m, ins[k]) == k
    {
      var r :| r in log && IsTxInsert(r, txid) && KeyOf(m, r.row) == k && ins[k] == FullImage(m, r.row);
      KeyOfFullImage(m, r.row);
    }
    var result := live + ins;
    forall k | k in result
      ensures result[k] == if k in ins then ins[k] else live[k]
    {
    }
  }

  /**
    The round trip of the replication pipeline: the full diff of a transaction
    new to the change table, applied to the table it was computed against,
    yields the source (same keys, same non-derived columns), and a second diff
    finds nothing.
   */
  lemma DifferencesThenApplyChanges(m: TableModel, txid: int, txid2: int, src: Relation, live: Relation,
                                    before: ChangeLog, after: ChangeLog)
    requires ValidModel(m) && Keyed(m, src) && Keyed(m, live)
    requires forall r :: r in before ==> r.txid != txid
    requires Appended(before, after, Differences(m, txid, src, live, None))
    ensures ApplyChanges(m, live, after, txid).Ok?
    ensures var result := ApplyChanges(m, live, after, txid).value;
      && result.Keys == src.Keys
      && Agrees(m, result, src)
      && Differences(m, txid2, src, result, None) == {}
  {
    var batch := after[|before|..];
    assert after == before + batch;
    AppendedDiffIsDiffBatch(m, txid, src, live, before, batch);
    DiffThenApplyReachesSource(m, txid, txid2, src, live, after);
  }

  class ChangeTrackedTable {
    const model: TableModel
    /** The rows of the tracked table. */
    var live: Relation
    /** The rows of `<table>_changes`, in the order they were written. */
    var changes: ChangeLog

    ghost predicate Valid()
      reads this
    {
      ValidModel(model) && Keyed(model, live)
    }

    /** `createChangeTable`: an empty change table beside an existing table. */
    constructor (model: TableModel, live: Relation)
      requires ValidModel(model) && Keyed(model, live)
      ensures Valid()
      ensures this.model == model && this.live == live && changes == []
    {
      this.model := model;
      this.live := live;
      this.changes := [];
    }

    /** `INSERT INTO <table>_changes (SELECT ...)`: the rows of a set-based statement, each once. */
    method AppendRows(rows: set<ChangeRow>)
      modifies this
      ensures live == old(live)
      ensures Appended(old(changes), changes, rows)
    {
      var rest := rows;
      ghost var n0 := |changes|;
      while rest != {}
        invariant live == old(live)
        invariant n0 <= |changes| && changes[..n0] == old(changes)
        invariant rest <= rows
        invariant forall i :: n0 <= i < |changes| ==> changes[i] in rows && changes[i] !in rest
        invariant forall x :: x in rows ==> x in rest || x in changes[n0..]
        invariant forall i, j :: n0 <= i < j < |changes| ==> changes[i] != changes[j]
        decreases rest
      {
        var r :| r in rest;
        ghost var written := changes[n0..];
        changes := changes + [r];
        assert changes[n0..] == written + [r];
        rest := rest - {r};
      }
      assert n0 == |old(changes)|;
    }

    // --------------------------------------------------------------------------
    // Diffs

    method ComputeInsertsView(txid: int, src: Relation, dst: Relation, columns: Option<seq<ColName>>)
      modifies this
      ensures live == old(live)
      ensures Appended(old(changes), changes, InsertRows(model, txid, src, dst, columns))
    {
      AppendRows(InsertRows(model, txid, src, dst, columns));
    }

    method ComputeInserts(txid: int, src: Relation, columns: Option<seq<ColName>>)
      modifies this
      ensures live == old(live)
      ensures Appended(old(changes), changes, InsertRows(model, txid, src, old(live), columns))
    {
      ComputeInsertsView(txid, src, live, columns);
    }

    method ComputeInsertsSubset(txid: int, src: Relation, dirty: set<Key>, columns: Option<seq<ColName>>)
      modifies this
      ensures live == old(live)
      ensures Appended(old(changes), changes, InsertRowsSubset(model, txid, src, old(live), dirty, columns))
    {
      AppendRows(InsertRowsSubset(model, txid, src, live, dirty, columns));
    }

    method ComputeUpdatesView(txid: int, src: Relation, dst: Relation, columns: Option<seq<ColName>>)
      modifies this
      ensures live == old(live)
      ensures Appended(old(changes), changes, UpdateRows(model, txid, src, dst, columns))
    {
      AppendRows(UpdateRows(model, txid, src, dst, columns));
    }

    method ComputeUpdates(txid: int, src: Relation, columns: Option<seq<ColName>>)
      modifies this
      ensures live == old(live)
      ensures Appended(old(changes), changes, UpdateRows(model, txid, src, old(live), columns))
    {
      ComputeUpdatesView(txid, src, live, columns);
    }

    method ComputeUpdatesSubset(txid: int, src: Relation, dirty: set<Key>, columns: Option<seq<ColName>>)
      modifies this
      ensures live == old(live)
      ensures Appended(old(changes), changes, UpdateRowsSubset(model, txid, src, old(live), dirty, columns))
    {
      AppendRows(UpdateRowsSubset(model, txid, src, live, dirty, columns));
    }

    method ComputeDeletesView(txid: int, src: Relation, dst: Relation)
      modifies this
      ensures live == old(live)
      ensures Appended(old(changes), changes, DeleteRows(model, txid, src, dst))
    {
      AppendRows(DeleteRows(model, txid, src, dst));
    }

    method ComputeDeletes(txid: int, src: Relation)
      modifies this
      ensures live == old(live)
      ensures Appended(old(changes), changes, DeleteRows(model, txid, src, old(live)))
    {
      ComputeDeletesView(txid, src, live);
    }

    method ComputeDeletesSubset(txid: int, src: Relation, dirty: set<Key>)
      modifies this
      ensures live == old(live)
      ensures Appended(old(changes), changes, DeleteRowsSubset(model, txid, src, old(live), dirty))
    {
      AppendRows(DeleteRowsSubset(model, txid, src, live, dirty));
    }

    /** `computeDifferencesView`: the inserts, then the updates, then the deletes of one diff. */
    method ComputeDifferencesView(txid: int, src: Relation, dst: Relation, columns: Option<seq<ColName>>)
      modifies this
      ensures live == old(live)
      ensures Appended(old(changes), changes, Differences(model, txid, src, dst, columns))
    {
      var c0 := changes;
      ComputeInsertsView(txid, src, dst, columns);
      var c1 := changes;
      ComputeUpdatesView(txid, src, dst, columns);
      var c2 := changes;
      ComputeDeletesView(txid, src, dst);
      AppendedThree(c0, c1, c2, changes,
        InsertRows(model, txid, src, dst, columns), UpdateRows(model, txid, src, dst, columns), DeleteRows(model, txid, src, dst));
    }

    method ComputeDifferences(txid: int, src: Relation, columns: Option<seq<ColName>>)
      modifies this
      ensures live == old(live)
      ensures Appended(old(changes), changes, Differences(model, txid, src, old(live), columns))
    {
      ComputeDifferencesView(txid, src, live, columns);
    }

    method ComputeDifferencesSubset(txid: int, src: Relation, dirty: set<Key>, columns: Option<seq<ColName>>)
      modifies this
      ensures live == old(live)
      ensures Appended(old(changes), changes, DifferencesSubset(model, txid, src, old(live), dirty, columns))
    {
      var c0 := changes;
      ComputeInsertsSubset(txid, src, dirty, columns);
      var c1 := changes;
      ComputeUpdatesSubset(txid, src, dirty, columns);
      var c2 := changes;
      ComputeDeletesSubset(txid, src, dirty);
      AppendedThree(c0, c1, c2, changes,
        InsertRowsSubset(model, txid, src, live, dirty, columns), UpdateRowsSubset(model, txid, src, live, dirty, columns),
        DeleteRowsSubset(model, txid, src, live, dirty));
    }

    // --------------------------------------------------------------------------
    // Apply

    method ApplyDeletes(txid: int)
      requires Valid()
      modifies this
      ensures Valid() && changes == old(changes)
      ensures live == TableDiff.ApplyDeletes(model, old(live), changes, txid)
    {
      live := TableDiff.ApplyDeletes(model, live, changes, txid);
    }

    method ApplyUpdates(txid: int)
      requires Valid()
      modifies this
      ensures Valid() && changes == old(changes)
      ensures live == TableDiff.ApplyUpdates(model, old(live), changes, txid)
    {
      ApplyUpdatesKeepsKeyed(model, live, changes, txid);
      live := TableDiff.ApplyUpdates(model, live, changes, txid);
    }

    /** A failing `INSERT` changes nothing and reports the key it collided on. */
    method ApplyInserts(txid: int) returns (err: Option<ApplyError>)
      requires Valid()
      modifies this
      ensures Valid() && changes == old(changes)
      ensures TableDiff.ApplyInserts(model, old(live), changes, txid).Ok? ==>
        err == None && live == TableDiff.ApplyInserts(model, old(live), changes, txid).value
      ensures TableDiff.ApplyInserts(model, old(live), changes, txid).Err? ==>
        err == Some(TableDiff.ApplyInserts(model, old(live), changes, txid).error) && live == old(live)
    {
      match TableDiff.ApplyInserts(model, live, changes, txid)
      case Ok(r) =>
        ApplyInsertsKeepsKeyed(model, live, changes, txid);
        live := r;
        err := None;
      case Err(e) =>
        err := Some(e);
    }

    /** `applyChanges`: deletes, updates, then inserts; a failing insert leaves the first two done. */
    method ApplyChanges(txid: int) returns (err: Option<ApplyError>)
      requires Valid()
      modifies this
      ensures Valid() && changes == old(changes)
      ensures TableDiff.ApplyChanges(model, old(live), changes, txid).Ok? ==>
        err == None && live == TableDiff.ApplyChanges(model, old(live), changes, txid).value
      ensures TableDiff.ApplyChanges(model, old(live), changes, txid).Err? ==>
        && err == Some(TableDiff.ApplyChanges(model, old(live), changes, txid).error)
        && live == TableDiff.ApplyUpdates(model, TableDiff.ApplyDeletes(model, old(live), changes, txid), changes, txid)
    {
      ApplyDeletes(txid);
      ApplyUpdates(txid);
      err := ApplyInserts(txid);
    }

    // --------------------------------------------------------------------------
    // Lifecycle

    /** `clearHistory`: the change table is emptied and refilled with a non-public insert per live row. */
    method ClearHistory(txid: int)
      modifies this
      ensures live == old(live)
      ensures Enumerates(changes, SnapshotRows(model, live, txid, Some(false)))
    {
      changes := [];
      AppendRows(SnapshotRows(model, live, txid, Some(false)));
    }

    /** `initializeChangeTable`: a non-public insert per live row. */
    method InitializeChangeTable(txid: int)
      modifies this
      ensures live == old(live)
      ensures Appended(old(changes), changes, SnapshotRows(model, live, txid, Some(false)))
    {
      AppendRows(SnapshotRows(model, live, txid, Some(false)));
    }

    /** `deriveColumnsForChange`: the transaction's change rows get their derived columns. */
    method DeriveColumnsForChange(txid: int, derive: (ColName, Row) -> Option<Value>)
      modifies this
      ensures live == old(live)
      ensures changes == DeriveChanges(model, old(changes), txid, derive)
    {
      changes := DeriveChanges(model, changes, txid, derive);
    }

    /** `initChangeTable`: an insert per live row with no public flag, then derivation. */
    method InitChangeTable(txid: int, derive: (ColName, Row) -> Option<Value>) returns (ghost written: ChangeLog)
      modifies this
      ensures live == old(live)
      ensures Appended(old(changes), written, SnapshotRows(model, live, txid, None))
      ensures changes == DeriveChanges(model, written, txid, derive)
    {
      AppendRows(SnapshotRows(model, live, txid, None));
      written := changes;
      DeriveColumnsForChange(txid, derive);
    }

    /**
      `initializeFromScratch`: a non-public insert per source row over the given
      columns, derivation, then `applyChanges`.
     */
    method InitializeFromScratch(txid: int, src: Relation, columns: Option<seq<ColName>>, derive: (ColName, Row) -> Option<Value>)
      returns (err: Option<ApplyError>, ghost written: ChangeLog)
      requires Valid()
      modifies this
      ensures Valid()
      ensures Appended(old(changes), written, ScratchRows(model, src, txid, columns))
      ensures changes == DeriveChanges(model, written, txid, derive)
      ensures TableDiff.ApplyChanges(model, old(live), changes, txid).Ok? ==>
        err == None && live == TableDiff.ApplyChanges(model, old(live), changes, txid).value
      ensures TableDiff.ApplyChanges(model, old(live), changes, txid).Err? ==>
        err == Some(TableDiff.ApplyChanges(model, old(live), changes, txid).error)
    {
      AppendRows(ScratchRows(model, src, txid, columns));
      written := changes;
      DeriveColumnsForChange(txid, derive);
      err := ApplyChanges(txid);
    }

    // --------------------------------------------------------------------------
    // Single-row changes

    method Insert(txid: int, row: Row)
      modifies this
      ensures live == old(live)
      ensures changes == old(changes) + [SingleRowChange(model, txid, TableDiff.Insert, row)]
    {
      changes := changes + [SingleRowChange(model, txid, TableDiff.Insert, row)];
    }

    method Update(txid: int, row: Row)
      modifies this
      ensures live == old(live)
      ensures changes == old(changes) + [SingleRowChange(model, txid, TableDiff.Update, row)]
    {
      changes := changes + [SingleRowChange(model, txid, TableDiff.Update, row)];
    }

    method Del(txid: int, row: Row)
      modifies this
      ensures live == old(live)
      ensures changes == old(changes) + [SingleRowChange(model, txid, TableDiff.Delete, row)]
    {
      changes := changes + [SingleRowChange(model, txid, TableDiff.Delete, row)];
    }

    // --------------------------------------------------------------------------
    // Queries and corrections

    /** `countChanges`: how many change rows the transaction has. */
    method CountChanges(txid: int) returns (n: nat)
      ensures n == CountTx(changes, txid)
    {
      n := 0;
      var i := |changes|;
      while i > 0
        invariant 0 <= i <= |changes|
        invariant n == CountTx(changes[i..], txid)
      {
        i := i - 1;
        assert changes[i..][1..] == changes[i + 1..];
        if changes[i].txid == txid {
          n := n + 1;
        }
      }
    }

    /** `applyCurrentTableToChangeTable`: the latest change row of each live key takes the live values of `columnsToApply`. */
    method ApplyCurrentTableToChangeTable(columnsToApply: seq<ColName>)
      modifies this
      ensures live == old(live)
      ensures changes == ApplyCurrentToChanges(model, live, old(changes), columnsToApply)
    {
      changes := ApplyCurrentToChanges(model, live, changes, columnsToApply);
    }
  }

  /** Three appends in a row enumerate the union of three sets of rows with pairwise distinct operations. */
  lemma AppendedThree(c0: ChangeLog, c1: ChangeLog, c2: ChangeLog, c3: ChangeLog,
                      a: set<ChangeRow>, b: set<ChangeRow>, c: set<ChangeRow>)
    requires Appended(c0, c1, a) && Appended(c1, c2, b) && Appended(c2, c3, c)
    requires a * b == {} && a * c == {} && b * c == {}
    ensures Appended(c0, c3, a + b + c)
  {
    AppendedTwice(c0, c1, c2, a, b);
    assert (a + b) * c == a * c + b * c;
    AppendedTwice(c0, c2, c3, a + b, c);
  }

  /** Two appends in a row enumerate the union of two disjoint sets of rows. */
  lemma AppendedTwice(c0: ChangeLog, c1: ChangeLog, c2: ChangeLog, a: set<ChangeRow>, b: set<ChangeRow>)
    requires Appended(c0, c1, a) && Appended(c1, c2, b) && a * b == {}
    ensures Appended(c0, c2, a + b)
  {
    assert c2[..|c0|] == c0 by {
      assert c2[..|c1|][..|c0|] == c2[..|c0|];
    }
    assert c2[|c0|..] == c1[|c0|..] + c2[|c1|..];
    EnumeratesConcat(c1[|c0|..], c2[|c1|..], a, b);
  }

  /** Listing two disjoint sets one after the other lists their union. */
  lemma EnumeratesConcat(s1: seq<ChangeRow>, s2: seq<ChangeRow>, a: set<ChangeRow>, b: set<ChangeRow>)
    requires Enumerates(s1, a) && Enumerates(s2, b) && a * b == {}
    ensures Enumerates(s1 + s2, a + b)
  {
    var s := s1 + s2;
    forall i, j | 0 <= i < j < |s|
      ensures s[i] != s[j]
    {
      if i < |s1| && j >= |s1| {
        assert s[i] in a && s[j] in b;
        assert s[i] !in a * b;
      }
    }
    forall x | x in a + b
      ensures x in s
    {
      if x in a {
        assert x in s1;
      } else {
        assert x in s2;
      }
    }
  }
}
