/**
  Relations as the change-capture engine sees them: rows are maps from column
  names to nullable values, a relation is keyed by the values of its primary-key
  columns, and a table model describes the columns of one tracked table.
 */
module Relational {

  datatype Option<+T> = None | Some(value: T)

  datatype Result<+T, +E> = Ok(value: T) | Err(error: E)

  /** A non-NULL column value. NULL is `None` in an `Option<Value>`. */
  datatype Value = Int(i: int) | Text(s: string) | Bool(b: bool)

  type ColName = string

  /** A row: the value of each column it has. A column the row lacks reads as NULL. */
  type Row = map<ColName, Option<Value>>

  /** The values of the primary-key columns, in primary-key order. */
  type Key = seq<Option<Value>>

  /** A relation with a primary key: each key maps to the one row that has it. */
  type Relation = map<Key, Row>

  function Get(row: Row, c: ColName): (v: Option<Value>)
    ensures c !in row ==> v == None
  {
    if c in row then row[c] else None
  }

  /**
    SQL's `a IS DISTINCT FROM b`: NULL is distinct from every value, two NULLs
    are not distinct from each other, two values are distinct when unequal.
   */
  predicate Distinct(a: Option<Value>, b: Option<Value>)
    ensures Distinct(a, b) <==> a != b
  {
    match (a, b)
    case (None, None) => false
    case (None, Some(_)) => true
    case (Some(_), None) => true
    case (Some(x), Some(y)) => x != y
  }

  /** `r NATURAL JOIN keys` where `keys` holds only primary-key columns. */
  function Restrict(r: Relation, keys: set<Key>): (s: Relation)
    ensures s.Keys == r.Keys * keys
    ensures forall k :: k in s ==> s[k] == r[k]
  {
    map k | k in r && k in keys :: r[k]
  }

  /** One column of a table model: `public: false` marks it non-public, `derive` marks it derived. */
  datatype Column = Column(name: ColName, isPublic: bool, derived: bool)

  /** A table model: entity name, physical table, primary key and ordered columns. */
  datatype TableModel = TableModel(entity: string, table: string, primaryKey: seq<ColName>, columns: seq<Column>)
}
