/** The `loadSource` callback of `ChiselSource`: load the model registry,
    then emit a node for each entry in the page of published entries each
    model's table query returns. */
module ChiselSource {
  import opened Wrappers
  import opened Values
  import opened ContentTypes
  import opened Entries

  /** Everything the store observes during one load: the collections
      registered, the nodes added, and whether the load completed. */
  datatype Run = Run(registered: seq<string>, emitted: seq<Emitted>, outcome: Result<(), LoadError>)

  /** `getContentTypes` followed by `getEntries`. The entry phase runs only
      when the registry loaded; a rejected registry ends the run. */
  function LoadSource(createTypeName: string -> string, models: seq<ModelRecord>, published: string -> seq<ParseObject>): (run: Run)
    ensures run.registered == GetContentTypes(createTypeName, models).registered
    ensures run.outcome.Success? <==> AllHaveFields(models)
    ensures run.outcome.Failure? ==> run.emitted == []
  {
    var load := GetContentTypes(createTypeName, models);
    match load.modelsArray
    case Failure(e) => Run(load.registered, [], Failure(e))
    case Success(descriptors) => Run(load.registered, GetEntries(descriptors, published), Success(()))
  }

  /** Every node goes to a collection that was registered earlier in the run. */
  lemma EmittedCollectionsRegistered(createTypeName: string -> string, models: seq<ModelRecord>, published: string -> seq<ParseObject>)
    ensures forall k :: 0 <= k < |LoadSource(createTypeName, models, published).emitted| ==>
      LoadSource(createTypeName, models, published).emitted[k].typeName in LoadSource(createTypeName, models, published).registered
  {
    var run := LoadSource(createTypeName, models, published);
    var load := GetContentTypes(createTypeName, models);
    if load.modelsArray.Success? {
      var ds := load.modelsArray.value;
      assert run.emitted == GetEntries(ds, published);
      EmittedTypeNames(ds, published);
      forall k | 0 <= k < |run.emitted|
        ensures run.emitted[k].typeName in run.registered
      {
        var d :| d in ds && d.typeName == run.emitted[k].typeName;
        var i :| 0 <= i < |ds| && ds[i] == d;
        assert run.registered[i] == ds[i].typeName;
      }
    }
  }

  /** A completed run emits exactly one node per entry of the page each
      table's query returns: entry `j`
      of model `i` lands at its own position, built from that entry by that
      model's descriptor and addressed to that model's collection. */
  lemma OneNodePerEntry(createTypeName: string -> string, models: seq<ModelRecord>, published: string -> seq<ParseObject>, ds: seq<ModelDescriptor>, i: int, j: int)
    requires DescribeAll(createTypeName, models) == Success(ds)
    requires 0 <= i < |models|
    requires 0 <= j < |published(models[i].tableName)|
    ensures EntryCount(ds[..i], published) + j < |LoadSource(createTypeName, models, published).emitted|
    ensures LoadSource(createTypeName, models, published).emitted[EntryCount(ds[..i], published) + j]
         == Emitted(createTypeName(models[i].nameId), BuildNode(ds[i], published(models[i].tableName)[j]))
  {
    CompletedRunEmitsEntries(createTypeName, models, published);
    DescriptorOfModel(createTypeName, models, i);
    EmittedAt(ds, published, i, j);
  }

  /** A completed run's emissions are those of `getEntries` over the loaded descriptors. */
  lemma CompletedRunEmitsEntries(createTypeName: string -> string, models: seq<ModelRecord>, published: string -> seq<ParseObject>)
    requires AllHaveFields(models)
    ensures DescribeAll(createTypeName, models).Success?
    ensures LoadSource(createTypeName, models, published).emitted
         == GetEntries(DescribeAll(createTypeName, models).value, published)
  {
  }

  /** Descriptor `i` is addressed to model `i`'s collection and reads model `i`'s table. */
  lemma DescriptorOfModel(createTypeName: string -> string, models: seq<ModelRecord>, i: int)
    requires AllHaveFields(models)
    requires 0 <= i < |models|
    ensures |DescribeAll(createTypeName, models).value| == |models|
    ensures DescribeAll(createTypeName, models).value[i].typeName == createTypeName(models[i].nameId)
    ensures DescribeAll(createTypeName, models).value[i].tableName == models[i].tableName
  {
    assert BuildDescriptor(createTypeName, models[i]) == Success(DescribeAll(createTypeName, models).value[i]);
  }

  /** With no required field (and no field named `title`) the title is read
      under the first field's `name`, a label, while entries are keyed by
      `nameId`: an entry with no attribute of that label gets an undefined
      title. */
  lemma TitleFallbackUsesLabel(createTypeName: string -> string, m: ModelRecord, entry: ParseObject)
    requires |m.enabledFields| > 0
    requires NoneRequired(m.enabledFields)
    requires forall i :: 0 <= i < |m.enabledFields| ==> m.enabledFields[i].nameId != "title"
    ensures BuildNode(BuildDescriptor(createTypeName, m).value, entry)["title"] == Get(entry, m.enabledFields[0].name)
    ensures m.enabledFields[0].name !in entry.attributes ==>
      BuildNode(BuildDescriptor(createTypeName, m).value, entry)["title"] == Undefined
  {
    var d := BuildDescriptor(createTypeName, m).value;
    assert "title" !in FieldKeys(d.fields);
  }

  /** With a required field the title is that field's own value, the same
      value the node carries under the field's `nameId`. */
  lemma TitleFromLastRequired(createTypeName: string -> string, m: ModelRecord, entry: ParseObject, i: int)
    requires IsLastRequired(m.enabledFields, i)
    requires forall k :: 0 <= k < |m.enabledFields| ==> m.enabledFields[k].nameId != "title"
    ensures
      var node := BuildNode(BuildDescriptor(createTypeName, m).value, entry);
      node["title"] == Get(entry, m.enabledFields[i].nameId) == node[m.enabledFields[i].nameId]
  {
    var d := BuildDescriptor(createTypeName, m).value;
    assert "title" !in FieldKeys(d.fields);
    assert d.fields[i].nameId == m.enabledFields[i].nameId;
  }
}
