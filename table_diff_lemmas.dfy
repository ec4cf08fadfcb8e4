/**
  What the diff statements promise: exactly one change row per differing key,
  with the right kind, public flag and values, and the subset variants being the
  full diff restricted to the dirty keys.
 */
module TableDiffLemmas {
  import opened Relational
  import opened TableModelUtil
  import opened TableDiff

  /** Two relations hold the same keys and agree on every non-derived column of the model. */
  ghost predicate Agrees(m: TableModel, a: Relation, b: Relation) {
    && a.Keys == b.Keys
    && forall k, c :: k in a && c in AllColumnNames(m) && !IsDerived(m, c) ==> Get(a[k], c) == Get(b[k], c)
  }

  /** The primary key columns are among `cols`, as a diff's column list must be. */
  predicate CoversKey(m: TableModel, columns: Option<seq<ColName>>) {
    columns.Some? ==> forall c :: c in m.primaryKey ==> c in columns.value
  }

  // ----------------------------------------------------------------------------
  // Images keep the primary key

  lemma KeyOfFullImage(m: TableModel, row: Row)
    requires ValidModel(m)
    ensures KeyOf(m, FullImage(m, row)) == KeyOf(m, row)
  {
    SameKeyColumns(m, FullImage(m, row), row);
  }

  lemma KeyOfSelectImage(m: TableModel, cols: seq<ColName>, row: Row)
    requires ValidModel(m)
    requires forall c :: c in m.primaryKey ==> c in cols
    ensures KeyOf(m, SelectImage(m, cols, row)) == KeyOf(m, row)
  {
    SameKeyColumns(m, SelectImage(m, cols, row), row);
  }

  /**
    The "after" image of an update: a derived column is NULL, a non-derived
    column in the non-preserved set comes from the source, any other column
    keeps its "before" value.
   */
  lemma AfterImageColumns(m: TableModel, columns: Option<seq<ColName>>, before: Row, srow: Row, c: ColName)
    requires c in AllColumnNames(m)
    ensures var after := AfterImage(m, columns, before, srow);
      && c in after
      && (IsDerived(m, c) ==> after[c] == None)
      && (!IsDerived(m, c) && c in NonPreservedColumns(m, columns) ==> after[c] == Get(srow, c))
      && (!IsDerived(m, c) && c !in NonPreservedColumns(m, columns) ==> after[c] == Get(before, c))
  {
  }

  lemma KeyOfAfterImage(m: TableModel, columns: Option<seq<ColName>>, before: Row, srow: Row)
    requires ValidModel(m)
    requires KeyOf(m, before) == KeyOf(m, srow)
    ensures KeyOf(m, AfterImage(m, columns, before, srow)) == KeyOf(m, srow)
  {
    var after := AfterImage(m, columns, before, srow);
    forall c | c in m.primaryKey
      ensures Get(after, c) == Get(srow, c)
    {
      var i :| 0 <= i < |m.primaryKey| && m.primaryKey[i] == c;
      assert KeyOf(m, before)[i] == KeyOf(m, srow)[i];
      AfterImageColumns(m, columns, before, srow, c);
    }
    SameKeyColumns(m, after, srow);
  }

  // ----------------------------------------------------------------------------
  // Counting keyed rows

  /** A set of change rows in one-to-one correspondence with a set of keys has as many rows as keys. */
  lemma {:induction false} KeyedRowsCard(m: TableModel, rows: set<ChangeRow>, keys: set<Key>)
    requires forall r :: r in rows ==> KeyOf(m, r.row) in keys
    requires forall k :: k in keys ==> exists r :: r in rows && KeyOf(m, r.row) == k
    requires forall r1, r2 :: r1 in rows && r2 in rows && KeyOf(m, r1.row) == KeyOf(m, r2.row) ==> r1 == r2
    ensures |rows| == |keys|
    decreases rows
  {
    if rows == {} {
      assert forall k :: k !in keys;
      assert keys == {};
    } else {
      var r :| r in rows;
      var k := KeyOf(m, r.row);
      KeyedRowsCard(m, rows - {r}, keys - {k});
    }
  }

  // ----------------------------------------------------------------------------
  // One row of a diff

  lemma InsertRowKey(m: TableModel, txid: int, src: Relation, dst: Relation, columns: Option<seq<ColName>>, r: ChangeRow)
    requires ValidModel(m) && Keyed(m, src) && CoversKey(m, columns)
    ensures r in InsertRows(m, txid, src, dst, columns) ==>
      && KeyOf(m, r.row) in src && KeyOf(m, r.row) !in dst
      && r == InsertRow(m, txid, InsertColumns(m, columns), src[KeyOf(m, r.row)])
  {
    if r in InsertRows(m, txid, src, dst, columns) {
      var k :| k in src && k !in dst && r == InsertRow(m, txid, InsertColumns(m, columns), src[k]);
      KeyOfSelectImage(m, InsertColumns(m, columns), src[k]);
    }
  }

  lemma UpdateRowKey(m: TableModel, txid: int, src: Relation, dst: Relation, columns: Option<seq<ColName>>, r: ChangeRow)
    requires ValidModel(m) && Keyed(m, src) && Keyed(m, dst)
    ensures r in UpdateRows(m, txid, src, dst, columns) ==>
      var k := KeyOf(m, r.row);
      && k in src && k in dst && RowChanged(m, columns, dst[k], src[k])
      && r == UpdateRow(m, txid, columns, dst[k], src[k])
  {
    if r in UpdateRows(m, txid, src, dst, columns) {
      var k :| k in src && k in dst && RowChanged(m, columns, dst[k], src[k]) && r == UpdateRow(m, txid, columns, dst[k], src[k]);
      KeyOfAfterImage(m, columns, dst[k], src[k]);
    }
  }

  lemma DeleteRowKey(m: TableModel, txid: int, src: Relation, dst: Relation, r: ChangeRow)
    requires ValidModel(m) && Keyed(m, dst)
    ensures r in DeleteRows(m, txid, src, dst) ==>
      && KeyOf(m, r.row) in dst && KeyOf(m, r.row) !in src
      && r == DeleteRow(m, txid, dst[KeyOf(m, r.row)])
  {
    if r in DeleteRows(m, txid, src, dst) {
      var k :| k in dst && k !in src && r == DeleteRow(m, txid, dst[k]);
      KeyOfFullImage(m, dst[k]);
    }
  }

  // ----------------------------------------------------------------------------
  // Shape of each diff

  /**
    The insert diff holds, for each key in the source but not in the tracked
    table, exactly one public insert row carrying the source's values.
   */
  lemma InsertRowsExactlyOnePerKey(m: TableModel, txid: int, src: Relation, dst: Relation, columns: Option<seq<ColName>>)
    requires ValidModel(m) && Keyed(m, src) && CoversKey(m, columns)
    ensures var rows := InsertRows(m, txid, src, dst, columns);
      && (forall r :: r in rows ==>
            && KeyOf(m, r.row) in src && KeyOf(m, r.row) !in dst
            && r.txid == txid && r.changeid == None && r.operation == Insert && r.isPublic == Some(true)
            && r.row == SelectImage(m, InsertColumns(m, columns), src[KeyOf(m, r.row)]))
      && (forall k :: k in src && k !in dst ==> exists r :: r in rows && KeyOf(m, r.row) == k)
      && |rows| == |src.Keys - dst.Keys|
  {
    var cols := InsertColumns(m, columns);
    var rows := InsertRows(m, txid, src, dst, columns);
    forall k | k in src
      ensures KeyOf(m, InsertRow(m, txid, cols, src[k]).row) == k
    {
      KeyOfSelectImage(m, cols, src[k]);
    }
    forall k | k in src && k !in dst
      ensures exists r :: r in rows && KeyOf(m, r.row) == k
    {
      assert InsertRow(m, txid, cols, src[k]) in rows;
    }
    KeyedRowsCard(m, rows, src.Keys - dst.Keys);
  }

  /**
    The delete diff holds, for each key in the tracked table but not in the
    source, exactly one public delete row carrying the full "before" image.
   */
  lemma DeleteRowsExactlyOnePerKey(m: TableModel, txid: int, src: Relation, dst: Relation)
    requires ValidModel(m) && Keyed(m, dst)
    ensures var rows := DeleteRows(m, txid, src, dst);
      && (forall r :: r in rows ==>
            && KeyOf(m, r.row) in dst && KeyOf(m, r.row) !in src
            && r.txid == txid && r.changeid == None && r.operation == Delete && r.isPublic == Some(true)
            && r.row == FullImage(m, dst[KeyOf(m, r.row)]))
      && (forall k :: k in dst && k !in src ==> exists r :: r in rows && KeyOf(m, r.row) == k)
      && |rows| == |dst.Keys - src.Keys|
  {
    var rows := DeleteRows(m, txid, src, dst);
    forall k | k in dst
      ensures KeyOf(m, DeleteRow(m, txid, dst[k]).row) == k
    {
      KeyOfFullImage(m, dst[k]);
    }
    forall k | k in dst && k !in src
      ensures exists r :: r in rows && KeyOf(m, r.row) == k
    {
      assert DeleteRow(m, txid, dst[k]) in rows;
    }
    KeyedRowsCard(m, rows, dst.Keys - src.Keys);
  }

  /** The keys an update diff considers and emits: on both sides, with a changed non-key column. */
  function ChangedKeys(m: TableModel, src: Relation, dst: Relation, columns: Option<seq<ColName>>): set<Key> {
    set k | k in src && k in dst && RowChanged(m, columns, dst[k], src[k])
  }

  /**
    The update diff holds exactly one update row for each key present on both
    sides whose non-key columns differ under IS DISTINCT FROM, and nothing
    when the model has no non-key column.
   */
  lemma UpdateRowsExactlyOnePerChangedKey(m: TableModel, txid: int, src: Relation, dst: Relation, columns: Option<seq<ColName>>)
    requires ValidModel(m) && Keyed(m, src) && Keyed(m, dst)
    ensures var rows := UpdateRows(m, txid, src, dst, columns);
      && (NonPrimaryColumnNames(m) == [] ==> rows == {})
      && (forall r :: r in rows ==>
            var k := KeyOf(m, r.row);
            && k in src && k in dst && RowChanged(m, columns, dst[k], src[k])
            && r.txid == txid && r.changeid == None && r.operation == Update
            && r.row == AfterImage(m, columns, dst[k], src[k])
            && r.isPublic == Some(PublicFlag(m, dst[k], r.row)))
      && (forall k :: k in ChangedKeys(m, src, dst, columns) ==> exists r :: r in rows && KeyOf(m, r.row) == k)
      && |rows| == |ChangedKeys(m, src, dst, columns)|
  {
    var rows := UpdateRows(m, txid, src, dst, columns);
    var keys := ChangedKeys(m, src, dst, columns);
    forall k | k in src && k in dst
      ensures KeyOf(m, UpdateRow(m, txid, columns, dst[k], src[k]).row) == k
    {
      KeyOfAfterImage(m, columns, dst[k], src[k]);
    }
    if NonPrimaryColumnNames(m) == [] {
      assert keys == {};
    } else {
      forall k | k in keys
        ensures exists r :: r in rows && KeyOf(m, r.row) == k
      {
        assert UpdateRow(m, txid, columns, dst[k], src[k]) in rows;
      }
    }
    KeyedRowsCard(m, rows, keys);
  }

  /**
    The public flag of an update: always true when every column is public;
    otherwise true exactly when a public non-key column differs (false when
    there is no public non-key column at all).
   */
  lemma PublicFlagMeaning(m: TableModel, before: Row, after: Row)
    ensures !HasNonPublicColumn(m) ==> PublicFlag(m, before, after)
    ensures HasNonPublicColumn(m) ==>
      (PublicFlag(m, before, after) <==>
        exists c :: c in PublicNonKeyColumnNames(m) && !IsDerived(m, c) && Distinct(Get(before, c), Get(after, c)))
  {
  }

  // ----------------------------------------------------------------------------
  // Subset variants

  /** A subset diff is the full diff of the two relations restricted to the dirty keys. */
  lemma SubsetIsDiffOfRestrictions(m: TableModel, txid: int, src: Relation, live: Relation, dirty: set<Key>, columns: Option<seq<ColName>>)
    ensures InsertRowsSubset(m, txid, src, live, dirty, columns) == InsertRows(m, txid, Restrict(src, dirty), Restrict(live, dirty), columns)
    ensures UpdateRowsSubset(m, txid, src, live, dirty, columns) == UpdateRows(m, txid, Restrict(src, dirty), Restrict(live, dirty), columns)
    ensures DeleteRowsSubset(m, txid, src, live, dirty) == DeleteRows(m, txid, Restrict(src, dirty), Restrict(live, dirty))
    ensures DifferencesSubset(m, txid, src, live, dirty, columns) == Differences(m, txid, Restrict(src, dirty), Restrict(live, dirty), columns)
  {
  }

  /** The key a diff row is about. */
  function RowKey(m: TableModel, r: ChangeRow): Key {
    KeyOf(m, r.row)
  }

  /** The subset insert diff is the full insert diff's rows whose keys are dirty. */
  lemma InsertSubsetIsFullOnDirtyKeys(m: TableModel, txid: int, src: Relation, live: Relation, dirty: set<Key>, columns: Option<seq<ColName>>)
    requires ValidModel(m) && Keyed(m, src) && CoversKey(m, columns)
    ensures InsertRowsSubset(m, txid, src, live, dirty, columns)
         == set r | r in InsertRows(m, txid, src, live, columns) && RowKey(m, r) in dirty
  {
    var cols := InsertColumns(m, columns);
    var sub := InsertRowsSubset(m, txid, src, live, dirty, columns);
    var full := InsertRows(m, txid, src, live, columns);
    forall r | r in sub
      ensures r in full && RowKey(m, r) in dirty
    {
      var k :| k in src && k in dirty && k !in live && r == InsertRow(m, txid, cols, src[k]);
      KeyOfSelectImage(m, cols, src[k]);
    }
    forall r | r in full && RowKey(m, r) in dirty
      ensures r in sub
    {
      var k :| k in src && k !in live && r == InsertRow(m, txid, cols, src[k]);
      KeyOfSelectImage(m, cols, src[k]);
      assert k in Restrict(src, dirty);
    }
  }

  /** The subset update diff is the full update diff's rows whose keys are dirty. */
  lemma UpdateSubsetIsFullOnDirtyKeys(m: TableModel, txid: int, src: Relation, live: Relation, dirty: set<Key>, columns: Option<seq<ColName>>)
    requires ValidModel(m) && Keyed(m, src) && Keyed(m, live)
    ensures UpdateRowsSubset(m, txid, src, live, dirty, columns)
         == set r | r in UpdateRows(m, txid, src, live, columns) && RowKey(m, r) in dirty
  {
    var sub := UpdateRowsSubset(m, txid, src, live, dirty, columns);
    var full := UpdateRows(m, txid, src, live, columns);
    if NonPrimaryColumnNames(m) != [] {
      forall r | r in sub
        ensures r in full && RowKey(m, r) in dirty
      {
        var k :| k in live && k in dirty && k in src && RowChanged(m, columns, live[k], src[k])
              && r == UpdateRow(m, txid, columns, live[k], src[k]);
        KeyOfAfterImage(m, columns, live[k], src[k]);
      }
      forall r | r in full && RowKey(m, r) in dirty
        ensures r in sub
      {
        var k :| k in src && k in live && RowChanged(m, columns, live[k], src[k])
              && r == UpdateRow(m, txid, columns, live[k], src[k]);
        KeyOfAfterImage(m, columns, live[k], src[k]);
        assert k in Restrict(src, dirty) && k in Restrict(live, dirty);
      }
    }
  }

  /** The subset delete diff is the full delete diff's rows whose keys are dirty. */
  lemma DeleteSubsetIsFullOnDirtyKeys(m: TableModel, txid: int, src: Relation, live: Relation, dirty: set<Key>)
    requires ValidModel(m) && Keyed(m, live)
    ensures DeleteRowsSubset(m, txid, src, live, dirty)
         == set r | r in DeleteRows(m, txid, src, live) && RowKey(m, r) in dirty
  {
    var sub := DeleteRowsSubset(m, txid, src, live, dirty);
    var full := DeleteRows(m, txid, src, live);
    forall r | r in sub
      ensures r in full && RowKey(m, r) in dirty
    {
      var k :| k in live && k in dirty && k !in src && r == DeleteRow(m, txid, live[k]);
      KeyOfFullImage(m, live[k]);
    }
    forall r | r in full && RowKey(m, r) in dirty
      ensures r in sub
    {
      var k :| k in live && k !in src && r == DeleteRow(m, txid, live[k]);
      KeyOfFullImage(m, live[k]);
      assert k in Restrict(live, dirty);
    }
  }

  /**
    Relations that agree on every non-derived column have an empty full diff,
    whichever columns the caller takes from the source.
   */
  lemma AgreeingRelationsHaveNoDifferences(m: TableModel, txid: int, src: Relation, dst: Relation, columns: Option<seq<ColName>>)
    requires Agrees(m, dst, src)
    ensures Differences(m, txid, src, dst, columns) == {}
  {
    forall k | k in src && k in dst
      ensures !RowChanged(m, columns, dst[k], src[k])
    {
      var after := AfterImage(m, columns, dst[k], src[k]);
      forall c | c in NonPrimaryColumnNames(m) && !IsDerived(m, c)
        ensures !Distinct(Get(dst[k], c), Get(after, c))
      {
        AfterImageColumns(m, columns, dst[k], src[k], c);
      }
    }
    assert UpdateRows(m, txid, src, dst, columns) == {};
  }

  /**
    When source and live table agree on the dirty keys, the subset diff is empty,
    whatever they hold outside the dirty set and whichever columns are taken
    from the source.
   */
  lemma SubsetDiffEmptyWhenDirtyRowsAgree(m: TableModel, txid: int, src: Relation, live: Relation, dirty: set<Key>, columns: Option<seq<ColName>>)
    requires Agrees(m, Restrict(live, dirty), Restrict(src, dirty))
    ensures DifferencesSubset(m, txid, src, live, dirty, columns) == {}
  {
    SubsetIsDiffOfRestrictions(m, txid, src, live, dirty, columns);
    AgreeingRelationsHaveNoDifferences(m, txid, Restrict(src, dirty), Restrict(live, dirty), columns);
  }
}
