/**
  The records of the replication API's configuration: the replication model of
  an entity (its key and attributes), the JSON schema an attribute is
  published with, and the database binding that says where each attribute is
  read from.
 */
module ReplicationTypes {
  import opened Relational

  /**
    A function-valued field of a binding (`formatter`, `selectTransform`):
    the identity, or a named function of the surrounding code base.
   */
  datatype Transform = Identity | Named(name: string)

  /**
    A JSON schema: a plain `{type: ...}` schema, a shared definition (such as
    `definitions.UUID`), or `schemaUtil.nullable` applied to a schema.
   */
  datatype Schema = TypeSchema(jsonType: string) | Definition(name: string) | NullableOf(schema: Schema)

  /**
    An attribute of a replication model as a record: `type` may be absent when
    a `schema` is given; `nullable` and `deprecated` are read for their
    truthiness, `deprecated` being absent until normalised.
   */
  datatype AttributeSpec = AttributeSpec(
    name: string, attrType: Option<string>, description: string,
    nullable: bool, schema: Option<Schema>, deprecated: Option<bool>)

  /** The replication model of one entity: its key attributes and its attributes, in order. */
  datatype ReplicationModel = ReplicationModel(key: seq<string>, attributes: seq<AttributeSpec>)

  /** The binding of one attribute as written: each field may be absent. */
  datatype BindingAttr = BindingAttr(column: Option<string>, formatter: Option<Transform>, selectTransform: Option<Transform>)

  /** An entity's binding as written: where it is published and read, and its attribute bindings by name. */
  datatype Binding = Binding(path: Option<string>, table: Option<string>, legacyResource: Option<bool>,
                             attributes: map<string, BindingAttr>)

  /** An attribute binding with every field filled in. */
  datatype NormalizedAttr = NormalizedAttr(column: string, formatter: Transform, selectTransform: Transform)

  datatype NormalizedBinding = NormalizedBinding(path: Option<string>, table: Option<string>, legacyResource: Option<bool>,
                                                 attributes: map<string, NormalizedAttr>)

  /** An attribute binding that sets no field. */
  function NoBinding(): BindingAttr {
    BindingAttr(None, None, None)
  }
}
