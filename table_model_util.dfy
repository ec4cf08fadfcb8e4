/**
  Column lists of a table model and the primary key of a row. The helper module
  these come from in the repository (`table-model-util`) is not part of this
  model; the functions here follow the names the diff engine imports from it.
 */
module TableModelUtil {
  import opened Relational

  /** `_.uniq`: the names of `s` in order of first occurrence. */
  function Uniq(s: seq<ColName>): (r: seq<ColName>)
    ensures forall c :: c in r <==> c in s
    ensures forall i, j :: 0 <= i < j < |r| ==> r[i] != r[j]
    decreases |s|
  {
    if s == [] then []
    else
      var rest := Uniq(Difference(s[1..], [s[0]]));
      assert s[0] !in rest;
      [s[0]] + rest
  }

  /** `_.union(a, b)`: every name of `a` or `b`, each once. */
  function Union(a: seq<ColName>, b: seq<ColName>): (r: seq<ColName>)
    ensures forall c :: c in r <==> c in a || c in b
  {
    Uniq(a + b)
  }

  /** `_.difference(a, b)`: the names of `a` that are not in `b`, in order. */
  function Difference(a: seq<ColName>, b: seq<ColName>): (r: seq<ColName>)
    ensures forall c :: c in r <==> c in a && c !in b
    ensures |r| <= |a|
  {
    if a == [] then []
    else if a[0] in b then Difference(a[1..], b)
    else [a[0]] + Difference(a[1..], b)
  }

  /** The names of the columns that `keep` selects, in column order. */
  function ColumnNamesWhere(cols: seq<Column>, keep: Column -> bool): (r: seq<ColName>)
    ensures forall c :: c in r <==> exists i :: 0 <= i < |cols| && keep(cols[i]) && cols[i].name == c
  {
    if cols == [] then []
    else
      var rest := ColumnNamesWhere(cols[1..], keep);
      assert forall i :: 1 <= i < |cols| ==> cols[i] == cols[1..][i - 1];
      if keep(cols[0]) then [cols[0].name] + rest else rest
  }

  function AllColumnNames(m: TableModel): seq<ColName> {
    ColumnNamesWhere(m.columns, (col: Column) => true)
  }

  function DerivedColumnNames(m: TableModel): seq<ColName> {
    ColumnNamesWhere(m.columns, (col: Column) => col.derived)
  }

  function NonDerivedColumnNames(m: TableModel): seq<ColName> {
    ColumnNamesWhere(m.columns, (col: Column) => !col.derived)
  }

  /** Columns outside the primary key, derived ones included. */
  function NonPrimaryColumnNames(m: TableModel): seq<ColName> {
    Difference(AllColumnNames(m), m.primaryKey)
  }

  /** Public columns outside the primary key (a column is public unless it says `public: false`). */
  function PublicNonKeyColumnNames(m: TableModel): seq<ColName> {
    ColumnNamesWhere(m.columns, (col: Column) => col.isPublic && col.name !in m.primaryKey)
  }

  predicate HasNonPublicColumn(m: TableModel) {
    exists i :: 0 <= i < |m.columns| && !m.columns[i].isPublic
  }

  predicate IsDerived(m: TableModel, c: ColName) {
    c in DerivedColumnNames(m)
  }

  /**
    A usable table model: column names are distinct and every primary-key column
    is an ordinary (non-derived) column of the model.
   */
  predicate ValidModel(m: TableModel) {
    && (forall i, j :: 0 <= i < j < |m.columns| ==> m.columns[i].name != m.columns[j].name)
    && (forall c :: c in m.primaryKey ==> c in AllColumnNames(m) && !IsDerived(m, c))
  }

  /** With distinct column names, a column is non-derived exactly when it is a column that is not derived. */
  lemma NonDerivedColumn(m: TableModel, c: ColName)
    requires ValidModel(m)
    ensures c in NonDerivedColumnNames(m) <==> c in AllColumnNames(m) && !IsDerived(m, c)
  {
    if c in AllColumnNames(m) && !IsDerived(m, c) {
      var i :| 0 <= i < |m.columns| && m.columns[i].name == c;
      assert !m.columns[i].derived;
    }
    if c in NonDerivedColumnNames(m) {
      var i :| 0 <= i < |m.columns| && !m.columns[i].derived && m.columns[i].name == c;
      forall j | 0 <= j < |m.columns| && m.columns[j].name == c
        ensures !m.columns[j].derived
      {
        assert j == i;
      }
    }
  }

  /** The primary key of a row: the values of the primary-key columns. */
  function KeyOf(m: TableModel, row: Row): (k: Key)
    ensures |k| == |m.primaryKey|
    ensures forall i :: 0 <= i < |m.primaryKey| ==> k[i] == Get(row, m.primaryKey[i])
  {
    seq(|m.primaryKey|, i requires 0 <= i < |m.primaryKey| => Get(row, m.primaryKey[i]))
  }

  /** Every row of `r` sits under its own primary key. */
  ghost predicate Keyed(m: TableModel, r: Relation) {
    forall k :: k in r ==> KeyOf(m, r[k]) == k
  }

  /** Two rows with equal primary-key columns have equal keys. */
  lemma SameKeyColumns(m: TableModel, a: Row, b: Row)
    requires forall c :: c in m.primaryKey ==> Get(a, c) == Get(b, c)
    ensures KeyOf(m, a) == KeyOf(m, b)
  {
  }
}
