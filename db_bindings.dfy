/**
  Normalisation of the replication API's database bindings: every entity of
  the replication data model must have a binding, and every attribute of the
  model gets a column, a formatter and a select transform, taken from the
  binding where it gives them and defaulted otherwise.
 */
module DbBindings {
  import opened Relational
  import opened ReplicationTypes

  /** The message `normalize` fails with when an entity has no binding. */
  function MissingBindingMessage(entityName: string): string {
    "No db replication binding for " + entityName
  }

  /**
    `normalizeAttr`: the column defaults to the attribute's name, the formatter
    and the select transform to the identity; every field the binding gives
    wins. A missing binding (`undefined`) counts as one that gives nothing.
   */
  function NormalizeAttr(attrName: string, bindingAttr: Option<BindingAttr>): (r: NormalizedAttr)
    ensures bindingAttr.None? ==> r == NormalizedAttr(attrName, Identity, Identity)
    ensures bindingAttr.Some? ==>
      && (bindingAttr.value.column.Some? ==> r.column == bindingAttr.value.column.value)
      && (bindingAttr.value.column.None? ==> r.column == attrName)
      && (bindingAttr.value.formatter.Some? ==> r.formatter == bindingAttr.value.formatter.value)
      && (bindingAttr.value.formatter.None? ==> r.formatter == Identity)
      && (bindingAttr.value.selectTransform.Some? ==> r.selectTransform == bindingAttr.value.selectTransform.value)
      && (bindingAttr.value.selectTransform.None? ==> r.selectTransform == Identity)
  {
    var given := if bindingAttr.Some? then bindingAttr.value else NoBinding();
    NormalizedAttr(
      if given.column.Some? then given.column.value else attrName,
      if given.formatter.Some? then given.formatter.value else Identity,
      if given.selectTransform.Some? then given.selectTransform.value else Identity)
  }

  /** `binding.attributes[name]`, `undefined` when the binding does not mention the attribute. */
  function AttrBinding(binding: Binding, attrName: string): Option<BindingAttr> {
    if attrName in binding.attributes then Some(binding.attributes[attrName]) else None
  }

  function AttributeNames(model: ReplicationModel): set<string> {
    set a | a in model.attributes :: a.name
  }

  /**
    One entity's normalised binding: the binding's other fields are carried
    over; the attributes are exactly the model's, each normalised; binding
    entries for attributes the model does not have are dropped.
   */
  function NormalizeBinding(binding: Binding, model: ReplicationModel): (r: NormalizedBinding)
    ensures r.path == binding.path && r.table == binding.table && r.legacyResource == binding.legacyResource
    ensures r.attributes.Keys == AttributeNames(model)
    ensures forall a :: a in model.attributes ==> r.attributes[a.name] == NormalizeAttr(a.name, AttrBinding(binding, a.name))
  {
    NormalizedBinding(binding.path, binding.table, binding.legacyResource,
      map n | n in AttributeNames(model) :: NormalizeAttr(n, AttrBinding(binding, n)))
  }

  /** The entity names of the data model, which is listed in key order. */
  function EntityNames(datamodels: seq<(string, ReplicationModel)>): set<string> {
    set e | e in datamodels :: e.0
  }

  function NormalizeFrom(datamodels: seq<(string, ReplicationModel)>, bindings: map<string, Binding>,
                         memo: map<string, NormalizedBinding>): Result<map<string, NormalizedBinding>, string>
    decreases |datamodels|
  {
    if datamodels == [] then Ok(memo)
    else
      var entityName := datamodels[0].0;
      if entityName !in bindings then Err(MissingBindingMessage(entityName))
      else NormalizeFrom(datamodels[1..], bindings, memo[entityName := NormalizeBinding(bindings[entityName], datamodels[0].1)])
  }

  /** `normalize`: the data model's entities in key order, each with its binding normalised. */
  function Normalize(datamodels: seq<(string, ReplicationModel)>, bindings: map<string, Binding>): Result<map<string, NormalizedBinding>, string> {
    NormalizeFrom(datamodels, bindings, map[])
  }

  /** `i` is the last position of its entity name (a later entry with the same key overwrites an earlier one). */
  predicate LastOccurrence(datamodels: seq<(string, ReplicationModel)>, i: int) {
    0 <= i < |datamodels| && forall j :: i < j < |datamodels| ==> datamodels[j].0 != datamodels[i].0
  }

  /** The fold fails exactly when some entity lacks a binding, naming the first such entity. */
  lemma {:induction false} NormalizeFromFails(datamodels: seq<(string, ReplicationModel)>, bindings: map<string, Binding>,
                                              memo: map<string, NormalizedBinding>)
    ensures NormalizeFrom(datamodels, bindings, memo).Err? <==> exists i :: 0 <= i < |datamodels| && datamodels[i].0 !in bindings
    ensures NormalizeFrom(datamodels, bindings, memo).Err? ==>
      exists i :: && 0 <= i < |datamodels| && datamodels[i].0 !in bindings
                  && (forall j :: 0 <= j < i ==> datamodels[j].0 in bindings)
                  && NormalizeFrom(datamodels, bindings, memo).error == MissingBindingMessage(datamodels[i].0)
    decreases |datamodels|
  {
    if datamodels != [] && datamodels[0].0 in bindings {
      var rest := datamodels[1..];
      var memo' := memo[datamodels[0].0 := NormalizeBinding(bindings[datamodels[0].0], datamodels[0].1)];
      NormalizeFromFails(rest, bindings, memo');
      assert forall i :: 1 <= i < |datamodels| ==> datamodels[i] == rest[i - 1];
      assert NormalizeFrom(datamodels, bindings, memo) == NormalizeFrom(rest, bindings, memo');
      if NormalizeFrom(rest, bindings, memo').Err? {
        var i :| && 0 <= i < |rest| && rest[i].0 !in bindings && (forall j :: 0 <= j < i ==> rest[j].0 in bindings)
                 && NormalizeFrom(rest, bindings, memo').error == MissingBindingMessage(rest[i].0);
        assert datamodels[i + 1] == rest[i];
      }
    }
  }

  /**
    A successful fold adds exactly the data model's entities to the memo, each
    with the normalised binding of its last entry, and keeps the memo's other
    entries.
   */
  lemma {:induction false} NormalizeFromContents(datamodels: seq<(string, ReplicationModel)>, bindings: map<string, Binding>,
                                                 memo: map<string, NormalizedBinding>)
    requires forall i :: 0 <= i < |datamodels| ==> datamodels[i].0 in bindings
    ensures NormalizeFrom(datamodels, bindings, memo).Ok?
    ensures NormalizeFrom(datamodels, bindings, memo).value.Keys == memo.Keys + EntityNames(datamodels)
    ensures forall i :: LastOccurrence(datamodels, i) ==>
      NormalizeFrom(datamodels, bindings, memo).value[datamodels[i].0] == NormalizeBinding(bindings[datamodels[i].0], datamodels[i].1)
    ensures forall e :: e in memo && e !in EntityNames(datamodels) ==> NormalizeFrom(datamodels, bindings, memo).value[e] == memo[e]
    decreases |datamodels|
  {
    if datamodels != [] {
      var entityName := datamodels[0].0;
      var rest := datamodels[1..];
      var memo' := memo[entityName := NormalizeBinding(bindings[entityName], datamodels[0].1)];
      var r := NormalizeFrom(datamodels, bindings, memo);
      assert r == NormalizeFrom(rest, bindings, memo');
      assert forall i :: 1 <= i < |datamodels| ==> datamodels[i] == rest[i - 1];
      NormalizeFromContents(rest, bindings, memo');
      assert EntityNames(datamodels) == {entityName} + EntityNames(rest) by {
        assert forall e :: e in datamodels <==> e == datamodels[0] || e in rest;
      }
      forall i | LastOccurrence(datamodels, i)
        ensures r.value[datamodels[i].0] == NormalizeBinding(bindings[datamodels[i].0], datamodels[i].1)
      {
        if i == 0 {
          assert forall e :: e in rest ==> e.0 != entityName by {
            forall e | e in rest ensures e.0 != entityName {
              var j :| 0 <= j < |rest| && rest[j] == e;
              assert datamodels[j + 1] == e;
            }
          }
        } else {
          assert datamodels[i] == rest[i - 1];
          assert LastOccurrence(rest, i - 1);
        }
      }
    }
  }

  /**
    `normalize` fails, naming the first entity of the data model without a
    binding, exactly when some entity has none; otherwise its entities are
    exactly the data model's, each with its binding normalised.
   */
  lemma NormalizeOutcome(datamodels: seq<(string, ReplicationModel)>, bindings: map<string, Binding>)
    ensures var r := Normalize(datamodels, bindings);
      && (r.Err? <==> exists i :: 0 <= i < |datamodels| && datamodels[i].0 !in bindings)
      && (r.Err? ==> exists i :: 0 <= i < |datamodels| && datamodels[i].0 !in bindings
                       && (forall j :: 0 <= j < i ==> datamodels[j].0 in bindings)
                       && r.error == MissingBindingMessage(datamodels[i].0))
      && (r.Ok? ==> r.value.Keys == EntityNames(datamodels))
      && (r.Ok? ==> forall i :: LastOccurrence(datamodels, i) ==>
            r.value[datamodels[i].0] == NormalizeBinding(bindings[datamodels[i].0], datamodels[i].1))
  {
    NormalizeFromFails(datamodels, bindings, map[]);
    if forall i :: 0 <= i < |datamodels| ==> datamodels[i].0 in bindings {
      NormalizeFromContents(datamodels, bindings, map[]);
    }
  }

  // ----------------------------------------------------------------------------
  // The binding of `adgangsadresse`

  /** The first attribute bindings of `adgangsadresse`. */
  function AdgangsadresseBinding(): Binding {
    Binding(Some("/replikering/adgangsadresser"), Some("adgangsadresser"), Some(true),
      map[
        "status" := BindingAttr(Some("objekttype"), None, None),
        "kilde" := BindingAttr(Some("adgangspunktkilde"), None, None),
        "oprettet" := BindingAttr(None, Some(Named("timestampFormatter")), Some(Named("selectLocalDateTime"))),
        "ændret" := BindingAttr(Some("aendret"), Some(Named("timestampFormatter")), Some(Named("selectLocalDateTime"))),
        "ikrafttrædelsesdato" := BindingAttr(Some("ikraftfra"), Some(Named("timestampFormatter")), Some(Named("selectLocalDateTime"))),
        "kommunekode" := BindingAttr(None, Some(Named("kode4String")), None)])
  }

  /**
    Normalised, `status` of `adgangsadresse` is read from column `objekttype`
    and passed through as it is, and `id`, which the binding does not mention,
    is read from column `id`.
   */
  lemma AdgangsadresseStatusColumn(model: ReplicationModel)
    requires exists a :: a in model.attributes && a.name == "status"
    requires exists a :: a in model.attributes && a.name == "id"
    ensures var r := Normalize([("adgangsadresse", model)], map["adgangsadresse" := AdgangsadresseBinding()]);
      && r.Ok? && r.value.Keys == {"adgangsadresse"}
      && r.value["adgangsadresse"].table == Some("adgangsadresser")
      && "status" in r.value["adgangsadresse"].attributes && "id" in r.value["adgangsadresse"].attributes
      && r.value["adgangsadresse"].attributes["status"] == NormalizedAttr("objekttype", Identity, Identity)
      && r.value["adgangsadresse"].attributes["id"] == NormalizedAttr("id", Identity, Identity)
  {
    var binding := AdgangsadresseBinding();
    var bindings := map["adgangsadresse" := binding];
    var nb := NormalizeBinding(binding, model);
    var datamodels := [("adgangsadresse", model)];
    var memo: map<string, NormalizedBinding> := map[];
    assert Normalize(datamodels, bindings) == NormalizeFrom(datamodels[1..], bindings, memo["adgangsadresse" := nb]);
    assert datamodels[1..] == [];
    assert memo["adgangsadresse" := nb] == map["adgangsadresse" := nb];
    StatusAndIdBindings();
    var status :| status in model.attributes && status.name == "status";
    var id :| id in model.attributes && id.name == "id";
    assert nb.attributes[status.name] == NormalizeAttr("status", AttrBinding(binding, "status"));
    assert nb.attributes[id.name] == NormalizeAttr("id", AttrBinding(binding, "id"));
  }

  lemma StatusAndIdBindings()
    ensures AttrBinding(AdgangsadresseBinding(), "status") == Some(BindingAttr(Some("objekttype"), None, None))
    ensures AttrBinding(AdgangsadresseBinding(), "id") == None
  {
  }
}
