/**
  The last step of building the replication data model: every attribute that
  has no JSON schema of its own gets the default schema of its type (made
  nullable when the attribute is), and every attribute's `deprecated` flag is
  made a boolean. The attributes are updated in place.
 */
module Datamodel {
  import opened Relational
  import opened ReplicationTypes
  import ReplikeringModels

  /** `defaultSchemas`: the JSON schema of each attribute type. */
  function DefaultSchemas(): map<string, Schema> {
    map["integer" := TypeSchema("integer"), "real" := TypeSchema("number"), "boolean" := TypeSchema("boolean"),
        "string" := TypeSchema("string"), "uuid" := Definition("UUID"), "timestamp" := TypeSchema("string"),
        "localdatetime" := TypeSchema("string"), "point2d" := TypeSchema("object")]
  }

  /** The `assert(schemaType)` of `getDefaultSchema`, failing for an attribute type without a default schema. */
  datatype SchemaError = NoDefaultSchema(attrType: Option<string>)

  /**
    `getDefaultSchema`: the default schema of the type, wrapped as nullable
    when the attribute is nullable; fails when the type is absent or has no
    default schema.
   */
  function GetDefaultSchema(attrType: Option<string>, nullable: bool): (r: Result<Schema, SchemaError>)
    ensures r.Ok? <==> attrType.Some? && attrType.value in DefaultSchemas()
    ensures r.Err? ==> r.error == NoDefaultSchema(attrType)
    ensures r.Ok? && !nullable ==> r.value == DefaultSchemas()[attrType.value]
    ensures r.Ok? && nullable ==> r.value.NullableOf? && r.value.schema == DefaultSchemas()[attrType.value]
  {
    if attrType.None? || attrType.value !in DefaultSchemas() then Err(NoDefaultSchema(attrType))
    else
      var schemaType := DefaultSchemas()[attrType.value];
      Ok(if nullable then NullableOf(schemaType) else schemaType)
  }

  /** `attr.schema || getDefaultSchema(attr.type, attr.nullable)`: an attribute's own schema wins. */
  function NormalizedSchema(schema: Option<Schema>, attrType: Option<string>, nullable: bool): (r: Result<Schema, SchemaError>)
    ensures schema.Some? ==> r == Ok(schema.value)
    ensures schema.None? ==> r == GetDefaultSchema(attrType, nullable)
  {
    if schema.Some? then Ok(schema.value) else GetDefaultSchema(attrType, nullable)
  }

  /** `!!attr.deprecated`: an absent flag reads as false. */
  function NormalizedDeprecated(deprecated: Option<bool>): bool {
    deprecated == Some(true)
  }

  /** An attribute of a replication model, whose `schema` and `deprecated` are filled in place. */
  class Attribute {
    const name: string
    const attrType: Option<string>
    const description: string
    const nullable: bool
    var schema: Option<Schema>
    var deprecated: Option<bool>

    constructor (spec: AttributeSpec)
      ensures name == spec.name && attrType == spec.attrType && description == spec.description
      ensures nullable == spec.nullable && schema == spec.schema && deprecated == spec.deprecated
    {
      name := spec.name;
      attrType := spec.attrType;
      description := spec.description;
      nullable := spec.nullable;
      schema := spec.schema;
      deprecated := spec.deprecated;
    }

    /** The schema this attribute would be given, from its current fields. */
    function Normalized(): Result<Schema, SchemaError>
      reads this
    {
      NormalizedSchema(schema, attrType, nullable)
    }

    /**
      One turn of the loop: sets `schema` and `deprecated`, or throws, before
      changing anything, when the attribute has no schema and its type no
      default one.
     */
    method Normalize() returns (ok: bool)
      modifies this
      ensures ok == old(Normalized()).Ok?
      ensures ok ==> schema == Some(old(Normalized()).value) && deprecated == Some(NormalizedDeprecated(old(deprecated)))
      ensures !ok ==> schema == old(schema) && deprecated == old(deprecated)
    {
      var s := NormalizedSchema(schema, attrType, nullable);
      if s.Err? {
        return false;
      }
      schema := Some(s.value);
      deprecated := Some(deprecated == Some(true));
      ok := true;
    }
  }

  /** Every attribute of every model. */
  ghost function AttrsOf(models: seq<seq<Attribute>>): set<Attribute> {
    set m, a | m in models && a in m :: a
  }

  /**
    The inner loop, over the attributes of one model. It returns true when
    every attribute got a schema, and then each holds its normalised schema
    and a boolean `deprecated`; an attribute listed twice is normalised twice,
    which changes nothing the second time. When some attribute has neither a
    schema nor a default one, the loop throws: it returns false, and each
    attribute is either untouched or normalised.
   */
  method NormalizeAttributes(attrs: seq<Attribute>) returns (ok: bool)
    modifies set a | a in attrs
    ensures ok <==> forall a :: a in attrs ==> NormalizedSchema(old(a.schema), a.attrType, a.nullable).Ok?
    ensures ok ==> forall a :: a in attrs ==> Done(a, old(a.schema), old(a.deprecated))
    ensures forall a :: a in attrs ==>
      Untouched(a, old(a.schema), old(a.deprecated)) || Done(a, old(a.schema), old(a.deprecated))
  {
    for j := 0 to |attrs|
      invariant forall a :: a in attrs[..j] ==> Done(a, old(a.schema), old(a.deprecated))
      invariant forall a :: a in attrs && a !in attrs[..j] ==> Untouched(a, old(a.schema), old(a.deprecated))
    {
      var attr := attrs[j];
      ok := attr.Normalize();
      if !ok {
        assert attr !in attrs[..j];
        return;
      }
      assert attrs[..j + 1] == attrs[..j] + [attr];
    }
    assert attrs[..|attrs|] == attrs;
    ok := true;
  }

  /**
    The final loop over the data model. It returns true when every attribute
    got a schema; then each attribute holds its normalised schema and a
    boolean `deprecated`, computed from the values before the loop. An
    attribute shared by two models is normalised again, which changes
    nothing. When some attribute has neither a schema nor a default one, the
    loop throws: it returns false, and each attribute is either untouched or
    normalised.
   */
  method NormalizeModels(models: seq<seq<Attribute>>) returns (ok: bool)
    modifies AttrsOf(models)
    ensures ok <==> forall a :: a in AttrsOf(models) ==> NormalizedSchema(old(a.schema), a.attrType, a.nullable).Ok?
    ensures ok ==> forall a :: a in AttrsOf(models) ==> Done(a, old(a.schema), old(a.deprecated))
    ensures forall a :: a in AttrsOf(models) ==>
      Untouched(a, old(a.schema), old(a.deprecated)) || Done(a, old(a.schema), old(a.deprecated))
  {
    for i := 0 to |models|
      invariant forall a :: a in AttrsOf(models[..i]) ==> Done(a, old(a.schema), old(a.deprecated))
      invariant forall a :: a in AttrsOf(models) && a !in AttrsOf(models[..i]) ==> Untouched(a, old(a.schema), old(a.deprecated))
    {
      ghost var done := AttrsOf(models[..i]);
      assert forall a :: a in models[i] ==> a in AttrsOf(models) by {
        assert models[i] in models;
      }
      label before:
      ok := NormalizeAttributes(models[i]);
      forall a | a in models[i]
        ensures Untouched(a, old(a.schema), old(a.deprecated)) || Done(a, old(a.schema), old(a.deprecated))
        ensures a in done ==> Done(a, old(a.schema), old(a.deprecated))
      {
        if a in done && !Untouched(a, old@before(a.schema), old@before(a.deprecated)) {
          NormalizationIdempotent(old(a.schema), a.attrType, a.nullable, old(a.deprecated));
        }
      }
      if !ok {
        ghost var attr :| attr in models[i] && !NormalizedSchema(old@before(attr.schema), attr.attrType, attr.nullable).Ok?;
        assert attr !in done;
        return;
      }
      AttrsOfStep(models, i);
    }
    assert models[..|models|] == models;
    ok := true;
  }

  /** `a` holds the normalised schema and flag computed from `schema0` and `deprecated0`. */
  ghost predicate Done(a: Attribute, schema0: Option<Schema>, deprecated0: Option<bool>)
    reads a
  {
    && NormalizedSchema(schema0, a.attrType, a.nullable).Ok?
    && a.schema == Some(NormalizedSchema(schema0, a.attrType, a.nullable).value)
    && a.deprecated == Some(NormalizedDeprecated(deprecated0))
  }

  /** `a` still holds `schema0` and `deprecated0`. */
  ghost predicate Untouched(a: Attribute, schema0: Option<Schema>, deprecated0: Option<bool>)
    reads a
  {
    a.schema == schema0 && a.deprecated == deprecated0
  }

  lemma AttrsOfStep(models: seq<seq<Attribute>>, i: int)
    requires 0 <= i < |models|
    ensures AttrsOf(models[..i + 1]) == AttrsOf(models[..i]) + set a | a in models[i]
  {
    assert models[..i + 1] == models[..i] + [models[i]];
    AttrsOfAppend(models[..i], models[i]);
  }

  lemma AttrsOfAppend(models: seq<seq<Attribute>>, model: seq<Attribute>)
    ensures AttrsOf(models + [model]) == AttrsOf(models) + set a | a in model
  {
    assert forall m :: m in models + [model] <==> m in models || m == model;
  }

  // ----------------------------------------------------------------------------
  // Properties of the defaults

  /** A nullable attribute gets the nullable form of the schema a non-nullable one of its type gets. */
  lemma NullableWrapsDefault(attrType: Option<string>)
    ensures GetDefaultSchema(attrType, true).Ok? <==> GetDefaultSchema(attrType, false).Ok?
    ensures GetDefaultSchema(attrType, true).Ok? ==>
      GetDefaultSchema(attrType, true).value == NullableOf(GetDefaultSchema(attrType, false).value)
  {
  }

  /** Normalising a normalised schema changes nothing. */
  lemma NormalizationIdempotent(schema: Option<Schema>, attrType: Option<string>, nullable: bool, deprecated: Option<bool>)
    requires NormalizedSchema(schema, attrType, nullable).Ok?
    ensures NormalizedSchema(Some(NormalizedSchema(schema, attrType, nullable).value), attrType, nullable)
         == NormalizedSchema(schema, attrType, nullable)
    ensures NormalizedDeprecated(Some(NormalizedDeprecated(deprecated))) == NormalizedDeprecated(deprecated)
  {
  }

  /**
    An attribute that brings its own schema, such as `darstatus` of
    `navngivenvej`, keeps it even without a type; without a schema, a type is
    needed.
   */
  lemma OwnSchemaNeedsNoType(schema: Schema, nullable: bool)
    ensures NormalizedSchema(Some(schema), None, nullable) == Ok(schema)
    ensures NormalizedSchema(None, None, nullable).Err?
  {
  }

  /** Every replication type of a DAR 1.0 column has a default schema. */
  lemma DarTypesHaveSchemas(entity: string, column: ReplikeringModels.DarColumn)
    requires ReplikeringModels.AttributeType(entity, column).Ok?
    ensures ReplikeringModels.AttributeType(entity, column).value in DefaultSchemas()
  {
    var overrides := ReplikeringModels.TypeOverridesFor(entity);
    if column.name in overrides && overrides[column.name] != "" {
      assert overrides[column.name] in {"string", "point2d"};
    }
  }

  /**
    The attributes of a DAR 1.0 current model all get a default schema, a
    nullable one exactly for the nullable columns.
   */
  lemma DarCurrentModelSchemas(entity: string, tableModel: ReplikeringModels.DarTableModel)
    requires ReplikeringModels.CurrentModel(entity, tableModel).Ok?
    ensures var attributes := ReplikeringModels.CurrentModel(entity, tableModel).value.attributes;
      forall i :: 0 <= i < |attributes| ==>
        var a := attributes[i];
        && NormalizedSchema(a.schema, a.attrType, a.nullable).Ok?
        && (NormalizedSchema(a.schema, a.attrType, a.nullable).value.NullableOf? <==> tableModel.columns[i].nullable)
  {
    var attributes := ReplikeringModels.CurrentModel(entity, tableModel).value.attributes;
    forall i | 0 <= i < |attributes|
      ensures NormalizedSchema(attributes[i].schema, attributes[i].attrType, attributes[i].nullable).Ok?
    {
      DarTypesHaveSchemas(entity, tableModel.columns[i]);
    }
  }

  /**
    In a DAR 1.0 history model `rowkey` is published as an integer,
    `virkningstart` as a string and `virkningslut` as a nullable string.
   */
  lemma DarHistoryModelSchemas(entity: string, tableModel: ReplikeringModels.DarTableModel)
    requires ReplikeringModels.HistoryModel(entity, tableModel).Ok?
    ensures var a := ReplikeringModels.HistoryModel(entity, tableModel).value.attributes;
      && NormalizedSchema(a[0].schema, a[0].attrType, a[0].nullable) == Ok(TypeSchema("integer"))
      && NormalizedSchema(a[1].schema, a[1].attrType, a[1].nullable) == Ok(TypeSchema("string"))
      && NormalizedSchema(a[2].schema, a[2].attrType, a[2].nullable) == Ok(NullableOf(TypeSchema("string")))
  {
  }
}
