/**
  The replication models and bindings of the DAR 1.0 entities, derived from
  their table models: each column becomes an attribute whose type comes from a
  per-entity override or from the column's SQL type; history models get a
  row key and the two ends of the validity period (`virkning`) in front.
 */
module ReplikeringModels {
  import opened Relational
  import opened ReplicationTypes

  /** A column of a DAR table model: name, SQL type and whether it may be NULL. */
  datatype DarColumn = DarColumn(name: string, sqlType: string, nullable: bool)

  datatype DarTableModel = DarTableModel(table: string, columns: seq<DarColumn>)

  /** The `assert(type)` that fails when a column has neither a type override nor a known SQL type. */
  datatype TypeError = NoReplicationType(entity: string, column: string)

  /** `defaultReplikeringType`: the replication type of each SQL type. */
  function DefaultReplikeringType(): map<string, string> {
    map["uuid" := "uuid", "timestamptz" := "timestamp", "integer" := "integer",
        "smallint" := "integer", "text" := "string", "float4" := "real"]
  }

  /** `replikeringTypeOverrides`: per entity, replication types that replace the default mapping. */
  function ReplikeringTypeOverrides(): map<string, map<string, string>> {
    map["Husnummer" := map["husnummertekst" := "string"],
        "Adressepunkt" := map["position" := "point2d"]]
  }

  /** `replikeringBindingOverrides`: per entity, attribute bindings that replace the defaults. */
  function ReplikeringBindingOverrides(): map<string, map<string, BindingAttr>> {
    map["Adressepunkt" := map["position" := BindingAttr(None, Some(Named("JSON.parse")), Some(Named("ST_AsGeoJSON")))],
        "Husnummer" := map["husnummertekst" := BindingAttr(None, Some(Named("formatHusnr")), None)],
        "DARKommuneinddeling" := map["kommunekode" := BindingAttr(None, Some(Named("kode4String")), None)]]
  }

  /** `replikeringTypeOverrides[entityName] || {}`. */
  function TypeOverridesFor(entity: string): map<string, string> {
    if entity in ReplikeringTypeOverrides() then ReplikeringTypeOverrides()[entity] else map[]
  }

  /** `replikeringBindingOverrides[entityName] || {}`. */
  function BindingOverridesFor(entity: string): map<string, BindingAttr> {
    if entity in ReplikeringBindingOverrides() then ReplikeringBindingOverrides()[entity] else map[]
  }

  /**
    The replication type of a column: its entity's override when that is a
    non-empty string, otherwise the default for its SQL type; the assertion
    fails when that is missing or empty.
   */
  function AttributeType(entity: string, column: DarColumn): (r: Result<string, TypeError>)
    ensures r.Ok? ==> r.value != ""
    ensures r.Ok? ==>
      || (column.name in TypeOverridesFor(entity) && r.value == TypeOverridesFor(entity)[column.name])
      || (column.sqlType in DefaultReplikeringType() && r.value == DefaultReplikeringType()[column.sqlType])
    ensures column.name in TypeOverridesFor(entity) && TypeOverridesFor(entity)[column.name] != "" ==>
      r == Ok(TypeOverridesFor(entity)[column.name])
    ensures r.Err? <==>
      && !(column.name in TypeOverridesFor(entity) && TypeOverridesFor(entity)[column.name] != "")
      && !(column.sqlType in DefaultReplikeringType() && DefaultReplikeringType()[column.sqlType] != "")
  {
    var overrides := TypeOverridesFor(entity);
    var t := if column.name in overrides && overrides[column.name] != "" then overrides[column.name]
             else if column.sqlType in DefaultReplikeringType() then DefaultReplikeringType()[column.sqlType]
             else "";
    if t == "" then Err(NoReplicationType(entity, column.name)) else Ok(t)
  }

  /** The attribute a column becomes (`description: 'Iikke tilgængelig'`, `nullable` copied). */
  function ColumnAttribute(entity: string, column: DarColumn): (r: Result<AttributeSpec, TypeError>)
    ensures r.Ok? <==> AttributeType(entity, column).Ok?
    ensures r.Ok? ==> && r.value.name == column.name && r.value.nullable == column.nullable
                      && r.value.attrType == Some(AttributeType(entity, column).value)
                      && r.value.schema.None? && r.value.deprecated.None?
  {
    match AttributeType(entity, column)
    case Err(e) => Err(e)
    case Ok(t) => Ok(AttributeSpec(column.name, Some(t), "Iikke tilgængelig", column.nullable, None, None))
  }

  /** `columns.map(...)`: every column as an attribute, in order; the first column without a type fails. */
  function ColumnAttributes(entity: string, columns: seq<DarColumn>): (r: Result<seq<AttributeSpec>, TypeError>)
    ensures r.Ok? <==> forall i :: 0 <= i < |columns| ==> ColumnAttribute(entity, columns[i]).Ok?
    ensures r.Ok? ==> |r.value| == |columns|
    ensures r.Ok? ==> forall i :: 0 <= i < |columns| ==> r.value[i] == ColumnAttribute(entity, columns[i]).value
    ensures r.Err? ==> exists i :: 0 <= i < |columns| && ColumnAttribute(entity, columns[i]) == Err(r.error)
    decreases |columns|
  {
    if columns == [] then Ok([])
    else
      var first := ColumnAttribute(entity, columns[0]);
      if first.Err? then Err(first.error)
      else
        var tail := columns[1..];
        var rest := ColumnAttributes(entity, tail);
        assert forall i :: 0 <= i < |tail| ==> tail[i] == columns[i + 1];
        assert rest.Err? ==> exists i :: 1 <= i < |columns| && ColumnAttribute(entity, columns[i]) == Err(rest.error);
        if rest.Err? then Err(rest.error) else Ok([first.value] + rest.value)
  }

  // ----------------------------------------------------------------------------
  // History models

  function RowkeyAttribute(): AttributeSpec {
    AttributeSpec("rowkey", Some("integer"), "Unik ID for den angivne række. ", false, None, None)
  }

  function VirkningAttributes(): seq<AttributeSpec> {
    [AttributeSpec("virkningstart", Some("timestamp"), "Startidspunktet for rækkens virkningstid.", false, None, None),
     AttributeSpec("virkningslut", Some("timestamp"), "Sluttidspunktet for rækkens virkningstid. ", true, None, None)]
  }

  /** The columns of a history table other than `virkning` and `rowkey`, in order. */
  function OtherColumns(columns: seq<DarColumn>): (r: seq<DarColumn>)
    ensures forall c :: c in r <==> c in columns && c.name != "virkning" && c.name != "rowkey"
    decreases |columns|
  {
    if columns == [] then []
    else
      var rest := OtherColumns(columns[1..]);
      assert forall c :: c in columns <==> c == columns[0] || c in columns[1..];
      if columns[0].name == "virkning" || columns[0].name == "rowkey" then rest else [columns[0]] + rest
  }

  /** A single column is kept exactly when it is neither `virkning` nor `rowkey`. */
  lemma OtherColumnsOfOne(c: DarColumn)
    ensures OtherColumns([c]) == if c.name == "virkning" || c.name == "rowkey" then [] else [c]
  {
  }

  /** The filter works column by column: it keeps the order and the repetitions of the columns it keeps. */
  lemma {:induction false} OtherColumnsConcat(a: seq<DarColumn>, b: seq<DarColumn>)
    ensures OtherColumns(a + b) == OtherColumns(a) + OtherColumns(b)
    decreases |a|
  {
    if a == [] {
      assert a + b == b;
    } else {
      assert (a + b)[0] == a[0] && (a + b)[1..] == a[1..] + b;
      OtherColumnsConcat(a[1..], b);
    }
  }

  /**
    The history model of one entity: key `rowkey`; attributes `rowkey`,
    `virkningstart`, a nullable `virkningslut`, then the other columns.
   */
  function HistoryModel(entity: string, tableModel: DarTableModel): (r: Result<ReplicationModel, TypeError>)
    ensures r.Ok? <==> ColumnAttributes(entity, OtherColumns(tableModel.columns)).Ok?
    ensures r.Ok? ==>
      var others := OtherColumns(tableModel.columns);
      && r.value.key == ["rowkey"]
      && |r.value.attributes| == 3 + |others|
      && r.value.attributes[0].name == "rowkey" && r.value.attributes[0].attrType == Some("integer")
      && r.value.attributes[1].name == "virkningstart" && !r.value.attributes[1].nullable
      && r.value.attributes[2].name == "virkningslut" && r.value.attributes[2].nullable
      && forall i :: 0 <= i < |others| ==>
           && r.value.attributes[3 + i].name == others[i].name && r.value.attributes[3 + i].nullable == others[i].nullable
           && r.value.attributes[3 + i].attrType == Some(AttributeType(entity, others[i]).value)
  {
    match ColumnAttributes(entity, OtherColumns(tableModel.columns))
    case Err(e) => Err(e)
    case Ok(others) => Ok(ReplicationModel(["rowkey"], [RowkeyAttribute()] + VirkningAttributes() + others))
  }

  /** `historyReplikeringModels`: the history model of every entity, keyed by entity name. */
  function HistoryReplikeringModels(entries: seq<(string, DarTableModel)>): Result<map<string, ReplicationModel>, TypeError> {
    CollectModels(entries, HistoryModel)
  }

  // ----------------------------------------------------------------------------
  // History bindings

  function VirkningBindings(): map<string, BindingAttr> {
    map["virkningstart" := BindingAttr(None, None, Some(Named("selectIsoTimestampUtc(lower(virkning))"))),
        "virkningslut" := BindingAttr(None, None, Some(Named("selectIsoTimestampUtc(upper(virkning))")))]
  }

  /**
    The history binding of one entity: the entity's table, and the bindings of
    the validity period merged with the entity's overrides, an override
    winning.
   */
  function HistoryBinding(entity: string, tableModel: DarTableModel): (r: Binding)
    ensures r.table == Some(tableModel.table) && r.path.None? && r.legacyResource.None?
    ensures r.attributes.Keys == VirkningBindings().Keys + BindingOverridesFor(entity).Keys
    ensures forall a :: a in BindingOverridesFor(entity) ==> r.attributes[a] == BindingOverridesFor(entity)[a]
    ensures forall a :: a in VirkningBindings() && a !in BindingOverridesFor(entity) ==> r.attributes[a] == VirkningBindings()[a]
  {
    Binding(None, Some(tableModel.table), None, VirkningBindings() + BindingOverridesFor(entity))
  }

  /** `historyReplikeringBindings`: the history binding of every entity, keyed by entity name. */
  function HistoryReplikeringBindings(entries: seq<(string, DarTableModel)>): map<string, Binding> {
    Collect(entries, HistoryBinding)
  }

  // ----------------------------------------------------------------------------
  // Current models and bindings

  /** The current model of one entity: key `id`, one attribute per column in column order. */
  function CurrentModel(entity: string, tableModel: DarTableModel): (r: Result<ReplicationModel, TypeError>)
    ensures r.Ok? <==> forall i :: 0 <= i < |tableModel.columns| ==> AttributeType(entity, tableModel.columns[i]).Ok?
    ensures r.Ok? ==>
      && r.value.key == ["id"]
      && |r.value.attributes| == |tableModel.columns|
      && forall i :: 0 <= i < |tableModel.columns| ==>
           && r.value.attributes[i].name == tableModel.columns[i].name
           && r.value.attributes[i].nullable == tableModel.columns[i].nullable
           && r.value.attributes[i].attrType == Some(AttributeType(entity, tableModel.columns[i]).value)
  {
    match ColumnAttributes(entity, tableModel.columns)
    case Err(e) => Err(e)
    case Ok(attributes) => Ok(ReplicationModel(["id"], attributes))
  }

  /** `currentReplikeringModels`: the current model of every entity, keyed by entity name. */
  function CurrentReplikeringModels(entries: seq<(string, DarTableModel)>): Result<map<string, ReplicationModel>, TypeError> {
    CollectModels(entries, CurrentModel)
  }

  /** The current binding of one entity: its table and its binding overrides, or none. */
  function CurrentBinding(entity: string, tableModel: DarTableModel): Binding {
    Binding(None, Some(tableModel.table), None, BindingOverridesFor(entity))
  }

  /** `currentReplikeringBindings`: the current binding of every entity, keyed by entity name. */
  function CurrentReplikeringBindings(entries: seq<(string, DarTableModel)>): map<string, Binding> {
    Collect(entries, CurrentBinding)
  }

  // ----------------------------------------------------------------------------
  // Collecting per-entity results into an object keyed by entity name

  function EntityNames(entries: seq<(string, DarTableModel)>): set<string> {
    set e | e in entries :: e.0
  }

  /** `i` is the last position of its entity name: a later entry with the same name overwrites an earlier one. */
  predicate LastOccurrence(entries: seq<(string, DarTableModel)>, i: int) {
    0 <= i < |entries| && forall j :: i < j < |entries| ==> entries[j].0 != entries[i].0
  }

  /** The object `f` builds, entry by entry in order, from the entity names to their values. */
  function Collect<V>(entries: seq<(string, DarTableModel)>, f: (string, DarTableModel) -> V): map<string, V>
    decreases |entries|
  {
    if entries == [] then map[]
    else
      var last := entries[|entries| - 1];
      Collect(entries[..|entries| - 1], f)[last.0 := f(last.0, last.1)]
  }

  /** As `Collect`, for a per-entity function that may throw: the first failure is the result. */
  function CollectModels(entries: seq<(string, DarTableModel)>, f: (string, DarTableModel) -> Result<ReplicationModel, TypeError>)
    : Result<map<string, ReplicationModel>, TypeError>
    decreases |entries|
  {
    if entries == [] then Ok(map[])
    else
      var last := entries[|entries| - 1];
      var memo := CollectModels(entries[..|entries| - 1], f);
      if memo.Err? then Err(memo.error)
      else match f(last.0, last.1)
        case Err(e) => Err(e)
        case Ok(model) => Ok(memo.value[last.0 := model])
  }

  /** The collected object has exactly the entity names as keys, each mapped to the value of its last entry. */
  lemma {:induction false} CollectContents<V>(entries: seq<(string, DarTableModel)>, f: (string, DarTableModel) -> V)
    ensures Collect(entries, f).Keys == EntityNames(entries)
    ensures forall i :: LastOccurrence(entries, i) ==> Collect(entries, f)[entries[i].0] == f(entries[i].0, entries[i].1)
    decreases |entries|
  {
    if entries != [] {
      var last := entries[|entries| - 1];
      var init := entries[..|entries| - 1];
      CollectContents(init, f);
      assert forall e :: e in entries <==> e in init || e == last;
      forall i | LastOccurrence(entries, i)
        ensures Collect(entries, f)[entries[i].0] == f(entries[i].0, entries[i].1)
      {
        if i < |init| {
          assert init[i] == entries[i];
          assert LastOccurrence(init, i);
        }
      }
    }
  }

  /**
    Collecting models fails exactly when some entity's model fails, and then
    with the failure of the first entity that fails.
   */
  lemma {:induction false} CollectModelsFails(entries: seq<(string, DarTableModel)>,
                                              f: (string, DarTableModel) -> Result<ReplicationModel, TypeError>)
    ensures CollectModels(entries, f).Err? <==> exists i :: 0 <= i < |entries| && f(entries[i].0, entries[i].1).Err?
    ensures CollectModels(entries, f).Err? ==>
      exists i :: && 0 <= i < |entries| && f(entries[i].0, entries[i].1) == Err(CollectModels(entries, f).error)
                  && forall j :: 0 <= j < i ==> f(entries[j].0, entries[j].1).Ok?
    decreases |entries|
  {
    if entries != [] {
      var init := entries[..|entries| - 1];
      CollectModelsFails(init, f);
      assert forall i :: 0 <= i < |init| ==> init[i] == entries[i];
    }
  }

  /** When collecting models succeeds, the object maps exactly the entity names, each to the model of its last entry. */
  lemma {:induction false} CollectModelsContents(entries: seq<(string, DarTableModel)>,
                                                 f: (string, DarTableModel) -> Result<ReplicationModel, TypeError>)
    requires CollectModels(entries, f).Ok?
    ensures CollectModels(entries, f).value.Keys == EntityNames(entries)
    ensures forall i :: LastOccurrence(entries, i) ==>
      Ok(CollectModels(entries, f).value[entries[i].0]) == f(entries[i].0, entries[i].1)
    decreases |entries|
  {
    if entries != [] {
      var last := entries[|entries| - 1];
      var init := entries[..|entries| - 1];
      CollectModelsContents(init, f);
      assert forall e :: e in entries <==> e in init || e == last;
      var r := CollectModels(entries, f);
      forall i | LastOccurrence(entries, i)
        ensures Ok(r.value[entries[i].0]) == f(entries[i].0, entries[i].1)
      {
        if i < |init| {
          assert init[i] == entries[i];
          assert LastOccurrence(init, i);
        }
      }
    }
  }

  // ----------------------------------------------------------------------------
  // The collected models and bindings

  /** Every history model is keyed by `rowkey` and begins with `rowkey`, `virkningstart` and a nullable `virkningslut`. */
  lemma {:induction false} HistoryModelsShape(entries: seq<(string, DarTableModel)>)
    requires HistoryReplikeringModels(entries).Ok?
    ensures forall e :: e in HistoryReplikeringModels(entries).value ==>
      var model := HistoryReplikeringModels(entries).value[e];
      && model.key == ["rowkey"] && |model.attributes| >= 3
      && model.attributes[0].name == "rowkey" && model.attributes[1].name == "virkningstart"
      && model.attributes[2].name == "virkningslut" && model.attributes[2].nullable
    decreases |entries|
  {
    if entries != [] {
      HistoryModelsShape(entries[..|entries| - 1]);
    }
  }

  /** Every current model is keyed by `id`. */
  lemma {:induction false} CurrentModelsShape(entries: seq<(string, DarTableModel)>)
    requires CurrentReplikeringModels(entries).Ok?
    ensures forall e :: e in CurrentReplikeringModels(entries).value ==> CurrentReplikeringModels(entries).value[e].key == ["id"]
    decreases |entries|
  {
    if entries != [] {
      CurrentModelsShape(entries[..|entries| - 1]);
    }
  }

  /**
    Building the history models fails exactly when some entity has a column,
    other than `virkning` and `rowkey`, without a replication type.
   */
  lemma HistoryModelsFail(entries: seq<(string, DarTableModel)>)
    ensures HistoryReplikeringModels(entries).Err? <==>
      exists i, c :: 0 <= i < |entries| && c in OtherColumns(entries[i].1.columns) && AttributeType(entries[i].0, c).Err?
  {
    CollectModelsFails(entries, HistoryModel);
    forall i | 0 <= i < |entries|
      ensures HistoryModel(entries[i].0, entries[i].1).Err? <==>
        exists c :: c in OtherColumns(entries[i].1.columns) && AttributeType(entries[i].0, c).Err?
    {
      HistoryModelFails(entries[i].0, entries[i].1);
    }
  }

  /** One entity's history model fails exactly when one of its other columns has no replication type. */
  lemma HistoryModelFails(entity: string, tableModel: DarTableModel)
    ensures HistoryModel(entity, tableModel).Err? <==>
      exists c :: c in OtherColumns(tableModel.columns) && AttributeType(entity, c).Err?
  {
    var others := OtherColumns(tableModel.columns);
    if HistoryModel(entity, tableModel).Err? {
      var k :| 0 <= k < |others| && ColumnAttribute(entity, others[k]).Err?;
      assert others[k] in others;
    }
  }

  /**
    The history binding of `Adressepunkt` reads `position` as GeoJSON and
    parses it, and reads the start of the validity period from `virkning`.
   */
  lemma AdressepunktHistoryBinding(entries: seq<(string, DarTableModel)>, i: int)
    requires LastOccurrence(entries, i) && entries[i].0 == "Adressepunkt"
    ensures var bindings := HistoryReplikeringBindings(entries);
      && "Adressepunkt" in bindings
      && bindings["Adressepunkt"].table == Some(entries[i].1.table)
      && "position" in bindings["Adressepunkt"].attributes && "virkningstart" in bindings["Adressepunkt"].attributes
      && bindings["Adressepunkt"].attributes["position"] == BindingAttr(None, Some(Named("JSON.parse")), Some(Named("ST_AsGeoJSON")))
      && bindings["Adressepunkt"].attributes["virkningstart"].selectTransform == Some(Named("selectIsoTimestampUtc(lower(virkning))"))
  {
    CollectContents(entries, HistoryBinding);
  }

  /** The current binding of an entity without binding overrides has no attribute bindings. */
  lemma CurrentBindingWithoutOverrides(entries: seq<(string, DarTableModel)>, i: int)
    requires LastOccurrence(entries, i) && entries[i].0 !in ReplikeringBindingOverrides()
    ensures var bindings := CurrentReplikeringBindings(entries);
      && entries[i].0 in bindings
      && bindings[entries[i].0] == Binding(None, Some(entries[i].1.table), None, map[])
  {
    CollectContents(entries, CurrentBinding);
  }

  // ----------------------------------------------------------------------------
  // The type mapping

  /** `smallint` columns replicate as `integer`, `float4` columns as `real`, `timestamptz` ones as `timestamp`. */
  lemma DefaultTypes(entity: string, name: string, nullable: bool)
    requires name !in TypeOverridesFor(entity)
    ensures AttributeType(entity, DarColumn(name, "smallint", nullable)) == Ok("integer")
    ensures AttributeType(entity, DarColumn(name, "float4", nullable)) == Ok("real")
    ensures AttributeType(entity, DarColumn(name, "timestamptz", nullable)) == Ok("timestamp")
    ensures AttributeType(entity, DarColumn(name, "geometry", nullable)).Err?
  {
  }

  /** `Adressepunkt.position` replicates as `point2d` whatever its SQL type. */
  lemma AdressepunktPosition(sqlType: string, nullable: bool)
    ensures AttributeType("Adressepunkt", DarColumn("position", sqlType, nullable)) == Ok("point2d")
  {
  }
}
