/**
  The relational meaning of the change-capture engine's SQL statements: which
  change rows a diff emits, how a transaction's change rows are replayed onto the
  live table, and the rows the lifecycle and single-row operations record.
  Every statement is set-based, so each diff is a *set* of change rows; the
  tracked table (`ChangeTables`) appends such a set to its change log.
 */
module TableDiff {
  import opened Relational
  import opened TableModelUtil

  datatype Operation = Insert | Update | Delete

  /** One row of `<table>_changes`: transaction, sequence number, kind, public flag and the row image. */
  datatype ChangeRow = ChangeRow(txid: int, changeid: Option<int>, operation: Operation, isPublic: Option<bool>, row: Row)

  type ChangeLog = seq<ChangeRow>

  datatype ApplyError = DuplicateKey(key: Key)

  // ----------------------------------------------------------------------------
  // Row images

  /** `SELECT <all model columns> FROM t`. */
  function FullImage(m: TableModel, row: Row): Row {
    map c | c in AllColumnNames(m) :: Get(row, c)
  }

  /**
    A diff's select clause over the listed columns: derived columns have no
    source value and stay NULL until derivation, unlisted columns are NULL.
   */
  function SelectImage(m: TableModel, cols: seq<ColName>, row: Row): Row {
    map c | c in AllColumnNames(m) :: if c in cols && !IsDerived(m, c) then Get(row, c) else None
  }

  /** `INSERT INTO changes(cols) SELECT cols FROM src`: listed columns copied as they are. */
  function ListedImage(m: TableModel, cols: seq<ColName>, row: Row): Row {
    map c | c in AllColumnNames(m) :: if c in cols then Get(row, c) else None
  }

  /** Some listed non-derived column differs under IS DISTINCT FROM (`columnsDistinctClause`). */
  predicate ColumnsDistinct(m: TableModel, before: Row, after: Row, cols: seq<ColName>) {
    exists c :: c in cols && !IsDerived(m, c) && Distinct(Get(before, c), Get(after, c))
  }

  // ----------------------------------------------------------------------------
  // Inserts

  /** The columns an insert diff writes: the requested ones plus every derived one, or all. */
  function InsertColumns(m: TableModel, columns: Option<seq<ColName>>): seq<ColName> {
    if columns.Some? then Union(columns.value, DerivedColumnNames(m)) else AllColumnNames(m)
  }

  function InsertRow(m: TableModel, txid: int, cols: seq<ColName>, srow: Row): ChangeRow {
    ChangeRow(txid, None, Insert, Some(true), SelectImage(m, cols, srow))
  }

  /** `computeInsertsView`: one public insert row per key of `src EXCEPT dst`, taken from `src`. */
  function InsertRows(m: TableModel, txid: int, src: Relation, dst: Relation, columns: Option<seq<ColName>>): set<ChangeRow> {
    var cols := InsertColumns(m, columns);
    set k | k in src && k !in dst :: InsertRow(m, txid, cols, src[k])
  }

  /** `computeInsertsSubset`: keys of `(src ⋈ dirty) EXCEPT (live ⋈ dirty)`. */
  function InsertRowsSubset(m: TableModel, txid: int, src: Relation, live: Relation, dirty: set<Key>, columns: Option<seq<ColName>>): set<ChangeRow> {
    var cols := InsertColumns(m, columns);
    var after := Restrict(src, dirty);
    var before := Restrict(live, dirty);
    set k | k in after && k !in before :: InsertRow(m, txid, cols, src[k])
  }

  // ----------------------------------------------------------------------------
  // Updates

  /** The caller's non-preserved columns plus every derived one, or all columns. */
  function NonPreservedColumns(m: TableModel, columns: Option<seq<ColName>>): seq<ColName> {
    if columns.Some? then Union(columns.value, DerivedColumnNames(m)) else AllColumnNames(m)
  }

  function ColumnsFromSource(m: TableModel, columns: Option<seq<ColName>>): seq<ColName> {
    Difference(NonPreservedColumns(m, columns), DerivedColumnNames(m))
  }

  function PreservedColumns(m: TableModel, columns: Option<seq<ColName>>): seq<ColName> {
    Difference(AllColumnNames(m), NonPreservedColumns(m, columns))
  }

  /**
    The "after" image: source values for the columns taken from the source,
    "before" values for the preserved ones; derived columns are in neither
    list and stay NULL.
   */
  function AfterImage(m: TableModel, columns: Option<seq<ColName>>, before: Row, srow: Row): Row {
    var fromSource := ColumnsFromSource(m, columns);
    var preserved := PreservedColumns(m, columns);
    map c | c in AllColumnNames(m) ::
      if c in fromSource then Get(srow, c) else if c in preserved then Get(before, c) else None
  }

  /** `makePublicClause`, evaluated on one before/after pair. */
  function PublicFlag(m: TableModel, before: Row, after: Row): bool {
    if !HasNonPublicColumn(m) then true
    else if PublicNonKeyColumnNames(m) == [] then false
    else ColumnsDistinct(m, before, after, PublicNonKeyColumnNames(m))
  }

  predicate RowChanged(m: TableModel, columns: Option<seq<ColName>>, before: Row, srow: Row) {
    ColumnsDistinct(m, before, AfterImage(m, columns, before, srow), NonPrimaryColumnNames(m))
  }

  function UpdateRow(m: TableModel, txid: int, columns: Option<seq<ColName>>, before: Row, srow: Row): ChangeRow {
    var after := AfterImage(m, columns, before, srow);
    ChangeRow(txid, None, Update, Some(PublicFlag(m, before, after)), after)
  }

  /** `computeUpdatesView`: an update row for each key on both sides whose non-key columns changed. */
  function UpdateRows(m: TableModel, txid: int, src: Relation, dst: Relation, columns: Option<seq<ColName>>): set<ChangeRow> {
    if NonPrimaryColumnNames(m) == [] then {}
    else set k | k in src && k in dst && RowChanged(m, columns, dst[k], src[k]) :: UpdateRow(m, txid, columns, dst[k], src[k])
  }

  /** `computeUpdatesSubset`: candidate keys are `(live ⋈ dirty) INTERSECT (src ⋈ dirty)`. */
  function UpdateRowsSubset(m: TableModel, txid: int, src: Relation, live: Relation, dirty: set<Key>, columns: Option<seq<ColName>>): set<ChangeRow> {
    if NonPrimaryColumnNames(m) == [] then {}
    else
      var before := Restrict(live, dirty);
      var after := Restrict(src, dirty);
      set k | k in before && k in after && RowChanged(m, columns, live[k], src[k]) :: UpdateRow(m, txid, columns, live[k], src[k])
  }

  // ----------------------------------------------------------------------------
  // Deletes

  function DeleteRow(m: TableModel, txid: int, drow: Row): ChangeRow {
    ChangeRow(txid, None, Delete, Some(true), FullImage(m, drow))
  }

  /** `computeDeletesView`: one public delete row per key of `dst EXCEPT src`, with the full "before" image. */
  function DeleteRows(m: TableModel, txid: int, src: Relation, dst: Relation): set<ChangeRow> {
    set k | k in dst && k !in src :: DeleteRow(m, txid, dst[k])
  }

  /** `computeDeletesSubset`: keys of `(live ⋈ dirty) EXCEPT (src ⋈ dirty)`. */
  function DeleteRowsSubset(m: TableModel, txid: int, src: Relation, live: Relation, dirty: set<Key>): set<ChangeRow> {
    var before := Restrict(live, dirty);
    var after := Restrict(src, dirty);
    set k | k in before && k !in after :: DeleteRow(m, txid, live[k])
  }

  /** `computeDifferencesView`: inserts, updates and deletes of one diff. */
  function Differences(m: TableModel, txid: int, src: Relation, dst: Relation, columns: Option<seq<ColName>>): set<ChangeRow> {
    InsertRows(m, txid, src, dst, columns) + UpdateRows(m, txid, src, dst, columns) + DeleteRows(m, txid, src, dst)
  }

  function DifferencesSubset(m: TableModel, txid: int, src: Relation, live: Relation, dirty: set<Key>, columns: Option<seq<ColName>>): set<ChangeRow> {
    InsertRowsSubset(m, txid, src, live, dirty, columns) + UpdateRowsSubset(m, txid, src, live, dirty, columns)
      + DeleteRowsSubset(m, txid, src, live, dirty)
  }

  /** `s` lists every row of `rows` exactly once, in some order: a set of rows written to the log. */
  predicate Enumerates(s: seq<ChangeRow>, rows: set<ChangeRow>) {
    && (forall i, j :: 0 <= i < j < |s| ==> s[i] != s[j])
    && (forall i :: 0 <= i < |s| ==> s[i] in rows)
    && (forall x :: x in rows ==> x in s)
  }

  // ----------------------------------------------------------------------------
  // Apply

  /** Keys of the transaction's delete rows. */
  function DeleteKeys(m: TableModel, log: ChangeLog, txid: int): set<Key> {
    set r | r in log && r.txid == txid && r.operation == Delete :: KeyOf(m, r.row)
  }

  /** `applyDeletes`: live rows whose key matches a delete row of the transaction are removed. */
  function ApplyDeletes(m: TableModel, live: Relation, log: ChangeLog, txid: int): (r: Relation)
    ensures r.Keys == live.Keys - DeleteKeys(m, log, txid)
    ensures forall k :: k in r ==> r[k] == live[k]
  {
    map k | k in live && k !in DeleteKeys(m, log, txid) :: live[k]
  }

  /** The last change row of the transaction whose key is `k`, of any operation. */
  function LastRowFor(m: TableModel, log: ChangeLog, txid: int, k: Key): (r: Option<ChangeRow>)
    ensures r.Some? ==> r.value in log && r.value.txid == txid && KeyOf(m, r.value.row) == k
    ensures r.None? <==> forall x :: x in log && x.txid == txid ==> KeyOf(m, x.row) != k
    decreases |log|
  {
    if log == [] then None
    else
      var last := log[|log| - 1];
      if last.txid == txid && KeyOf(m, last.row) == k then Some(last)
      else
        var earlier := LastRowFor(m, log[..|log| - 1], txid, k);
        assert log == log[..|log| - 1] + [last];
        earlier
  }

  function SetNonKeyColumns(m: TableModel, liveRow: Row, changed: Row): Row {
    liveRow + map c | c in NonPrimaryColumnNames(m) :: Get(changed, c)
  }

  /**
    `applyUpdates`: every live row whose key matches a change row of the
    transaction takes that row's non-key columns. Like the statement it models,
    it does not look at the operation of the change row.
   */
  function ApplyUpdates(m: TableModel, live: Relation, log: ChangeLog, txid: int): Relation {
    if NonPrimaryColumnNames(m) == [] then live
    else
      map k | k in live ::
        match LastRowFor(m, log, txid, k)
        case None => live[k]
        case Some(r) => SetNonKeyColumns(m, live[k], r.row)
  }

  /** The change rows of one operation, in log order. */
  function OnlyOperation(log: ChangeLog, op: Operation): (r: ChangeLog)
    ensures forall x :: x in r <==> x in log && x.operation == op
    decreases |log|
  {
    if log == [] then []
    else
      var last := log[|log| - 1];
      assert log == log[..|log| - 1] + [last];
      OnlyOperation(log[..|log| - 1], op) + (if last.operation == op then [last] else [])
  }

  /**
    `applyInserts`: every insert row of the transaction becomes a live row; a
    key that is already live violates the primary key and the statement fails.
   */
  function ApplyInserts(m: TableModel, live: Relation, log: ChangeLog, txid: int): Result<Relation, ApplyError>
    decreases |log|
  {
    if log == [] then Ok(live)
    else if log[0].txid == txid && log[0].operation == Insert then
      var k := KeyOf(m, log[0].row);
      if k in live then Err(DuplicateKey(k))
      else ApplyInserts(m, live[k := FullImage(m, log[0].row)], log[1..], txid)
    else ApplyInserts(m, live, log[1..], txid)
  }

  /** `applyChanges`: deletes, then updates, then inserts. */
  function ApplyChanges(m: TableModel, live: Relation, log: ChangeLog, txid: int): Result<Relation, ApplyError> {
    ApplyInserts(m, ApplyUpdates(m, ApplyDeletes(m, live, log, txid), log, txid), log, txid)
  }

  // ----------------------------------------------------------------------------
  // Lifecycle and single-row mutations

  /** `clearHistory`, `initializeChangeTable`, `initChangeTable`: an insert row per live row. */
  function SnapshotRows(m: TableModel, live: Relation, txid: int, isPublic: Option<bool>): set<ChangeRow> {
    set k | k in live :: ChangeRow(txid, None, Insert, isPublic, FullImage(m, live[k]))
  }

  /** `initializeFromScratch`: a non-public insert row per source row over the given (default: non-derived) columns. */
  function ScratchRows(m: TableModel, src: Relation, txid: int, columns: Option<seq<ColName>>): set<ChangeRow> {
    var cols := if columns.Some? then columns.value else NonDerivedColumnNames(m);
    set k | k in src :: ChangeRow(txid, None, Insert, Some(false), ListedImage(m, cols, src[k]))
  }

  /** JavaScript's falsy values among column values. */
  predicate Falsy(v: Value) {
    v == Int(0) || v == Text("") || v == Bool(false)
  }

  /** `row[column] || null`. */
  function OrNull(v: Option<Value>): Option<Value> {
    if v.Some? && !Falsy(v.value) then v else None
  }

  /**
    `insert`, `update` and `del`: the one non-public change row they record.
    `insert` writes every column, `update` and `del` the non-derived ones.
   */
  function SingleRowChange(m: TableModel, txid: int, op: Operation, row: Row): ChangeRow {
    var cols := if op == Insert then AllColumnNames(m) else NonDerivedColumnNames(m);
    ChangeRow(txid, None, op, Some(false), map c | c in AllColumnNames(m) :: if c in cols then OrNull(Get(row, c)) else None)
  }

  /** `deriveColumnsForChange` with an uninterpreted per-row derivation. */
  function DeriveRow(m: TableModel, derive: (ColName, Row) -> Option<Value>, row: Row): Row {
    row + map c | c in DerivedColumnNames(m) :: derive(c, row)
  }

  function DeriveChanges(m: TableModel, log: ChangeLog, txid: int, derive: (ColName, Row) -> Option<Value>): ChangeLog {
    seq(|log|, i requires 0 <= i < |log| =>
      if log[i].txid == txid then log[i].(row := DeriveRow(m, derive, log[i].row)) else log[i])
  }

  // ----------------------------------------------------------------------------
  // Queries over the change log

  /** `select count(*) ... where txid = $1`. */
  function CountTx(log: ChangeLog, txid: int): nat
    decreases |log|
  {
    if log == [] then 0 else (if log[0].txid == txid then 1 else 0) + CountTx(log[1..], txid)
  }

  /** The change rows of one primary key, in log order. */
  function History(m: TableModel, log: ChangeLog, k: Key): ChangeLog
    decreases |log|
  {
    if log == [] then [] else (if KeyOf(m, log[0].row) == k then [log[0]] else []) + History(m, log[1..], k)
  }

  /** The sort key of `ORDER BY txid DESC NULLS LAST, changeid DESC NULLS LAST`. */
  function Stamp(r: ChangeRow): (int, Option<int>) {
    (r.txid, r.changeid)
  }

  /** `a` sorts no later than `b` in ascending order, with a NULL changeid lowest. */
  predicate StampLe(a: (int, Option<int>), b: (int, Option<int>)) {
    a.0 < b.0 || (a.0 == b.0 && (a.1.None? || (b.1.Some? && a.1.value <= b.1.value)))
  }

  /** The stamp of the latest change row of key `k` (the `JOIN LATERAL ... LIMIT 1`). */
  function LatestStamp(m: TableModel, log: ChangeLog, k: Key): (s: Option<(int, Option<int>)>)
    ensures s.None? <==> forall r :: r in log ==> KeyOf(m, r.row) != k
    ensures s.Some? ==> exists r :: r in log && KeyOf(m, r.row) == k && Stamp(r) == s.value
    ensures s.Some? ==> forall r :: r in log && KeyOf(m, r.row) == k ==> StampLe(Stamp(r), s.value)
    decreases |log|
  {
    if log == [] then None
    else
      var rest := LatestStamp(m, log[1..], k);
      assert forall r :: r in log <==> r == log[0] || r in log[1..];
      if KeyOf(m, log[0].row) != k then rest
      else if rest.None? || StampLe(rest.value, Stamp(log[0])) then Some(Stamp(log[0]))
      else rest
  }

  /**
    `applyCurrentTableToChangeTable`: the latest change rows of every live key
    take the live row's values for `columnsToApply`.
   */
  function ApplyCurrentToChanges(m: TableModel, live: Relation, log: ChangeLog, columnsToApply: seq<ColName>): ChangeLog {
    seq(|log|, i requires 0 <= i < |log| =>
      var k := KeyOf(m, log[i].row);
      if k in live && LatestStamp(m, log, k) == Some(Stamp(log[i]))
      then log[i].(row := log[i].row + map c | c in columnsToApply :: Get(live[k], c))
      else log[i])
  }
}
