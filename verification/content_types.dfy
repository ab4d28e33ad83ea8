/** The model registry built by `getContentTypes`: one descriptor per Chisel
    model of the site, with its projected field list and display field. */
module ContentTypes {
  import opened Wrappers
  import opened Values

  /** One enabled `ModelField` row, as the field query returns it. */
  datatype FieldRecord = FieldRecord(name: string, nameId: string, isRequired: Value)

  /** The projection of a field kept in the descriptor. */
  datatype FieldSpec = FieldSpec(nameId: string, name: string)

  /** One `Model` row of the site together with the result of its field query
      (enabled fields only, in query order). */
  datatype ModelRecord = ModelRecord(id: string, nameId: string, tableName: string, enabledFields: seq<FieldRecord>)

  /** An element of `modelsArray`. */
  datatype ModelDescriptor = ModelDescriptor(
    name: string,
    typeName: string,
    id: string,
    tableName: string,
    displayName: string,
    fields: seq<FieldSpec>)

  /** Why loading the registry aborts: `modelFields[0]` is undefined when a
      model has no enabled field, and reading `.get` of it throws. */
  datatype LoadError = NoEnabledFields

  /** What `getContentTypes` leaves behind: the collections registered with
      the store, in call order, and the settled `Promise.all`. */
  datatype ContentTypesLoad = ContentTypesLoad(registered: seq<string>, modelsArray: Result<seq<ModelDescriptor>, LoadError>)

  predicate Required(f: FieldRecord)
  {
    Truthy(f.isRequired)
  }

  /** Field `i` is required and no later field is. */
  ghost predicate IsLastRequired(fields: seq<FieldRecord>, i: int)
  {
    && 0 <= i < |fields|
    && Required(fields[i])
    && forall j :: i < j < |fields| ==> !Required(fields[j])
  }

  ghost predicate NoneRequired(fields: seq<FieldRecord>)
  {
    forall j :: 0 <= j < |fields| ==> !Required(fields[j])
  }

  /** Every model's field query returned at least one enabled field. */
  predicate AllHaveFields(models: seq<ModelRecord>)
  {
    forall i :: 0 <= i < |models| ==> |models[i].enabledFields| > 0
  }

  /** The callback of `modelFields.map`, run over the remaining `fields` with
      the current `displayFieldName`: each required field overwrites the
      display key with its `nameId`, and each field is projected to
      `{nameId, name}`. Returns the final display key and the projections. */
  function MapFields(displayFieldName: string, fields: seq<FieldRecord>): (r: (string, seq<FieldSpec>))
    ensures |r.1| == |fields|
    ensures forall i :: 0 <= i < |fields| ==> r.1[i] == FieldSpec(fields[i].nameId, fields[i].name)
    ensures NoneRequired(fields) ==> r.0 == displayFieldName
    ensures forall i :: IsLastRequired(fields, i) ==> r.0 == fields[i].nameId
    decreases |fields|
  {
    if |fields| == 0 then (displayFieldName, [])
    else
      var f := fields[0];
      var next := if Required(f) then f.nameId else displayFieldName;
      var rest := MapFields(next, fields[1..]);
      assert forall i :: 0 < i < |fields| ==> fields[i] == fields[1..][i - 1];
      assert forall i :: 0 < i < |fields| && IsLastRequired(fields, i) ==> IsLastRequired(fields[1..], i - 1);
      (rest.0, [FieldSpec(f.nameId, f.name)] + rest.1)
  }

  /** Building the descriptor of one model, once its field query has returned:
      the display key starts as the `name` of the first field and is then
      handed to `MapFields`. */
  function BuildDescriptor(createTypeName: string -> string, m: ModelRecord): (r: Result<ModelDescriptor, LoadError>)
    ensures r.Failure? <==> |m.enabledFields| == 0
    ensures r.Success? ==>
      && r.value.name == m.nameId
      && r.value.typeName == createTypeName(m.nameId)
      && r.value.id == m.id
      && r.value.tableName == m.tableName
      && |r.value.fields| == |m.enabledFields|
      && (forall i :: 0 <= i < |m.enabledFields| ==>
            r.value.fields[i] == FieldSpec(m.enabledFields[i].nameId, m.enabledFields[i].name))
      && (NoneRequired(m.enabledFields) ==> r.value.displayName == m.enabledFields[0].name)
      && (forall i :: IsLastRequired(m.enabledFields, i) ==> r.value.displayName == m.enabledFields[i].nameId)
  {
    if |m.enabledFields| == 0 then Failure(NoEnabledFields)
    else
      var projected := MapFields(m.enabledFields[0].name, m.enabledFields);
      Success(ModelDescriptor(m.nameId, createTypeName(m.nameId), m.id, m.tableName, projected.0, projected.1))
  }

  /** The `addCollection` calls: one per model, in `models` order. They all
      happen before the first field query settles, so they happen whether or
      not the load later fails. */
  function Register(createTypeName: string -> string, models: seq<ModelRecord>): (r: seq<string>)
    ensures |r| == |models|
    ensures forall i :: 0 <= i < |models| ==> r[i] == createTypeName(models[i].nameId)
  {
    if |models| == 0 then [] else [createTypeName(models[0].nameId)] + Register(createTypeName, models[1..])
  }

  /** `Promise.all` over the per-model descriptors: all of them, in input
      order, or a rejection as soon as one model throws. */
  function DescribeAll(createTypeName: string -> string, models: seq<ModelRecord>): (r: Result<seq<ModelDescriptor>, LoadError>)
    ensures r.Success? <==> AllHaveFields(models)
    ensures r.Success? ==>
      && |r.value| == |models|
      && forall i :: 0 <= i < |models| ==> BuildDescriptor(createTypeName, models[i]) == Success(r.value[i])
  {
    if |models| == 0 then Success([])
    else
      var head := BuildDescriptor(createTypeName, models[0]);
      var rest := DescribeAll(createTypeName, models[1..]);
      assert AllHaveFields(models) <==> |models[0].enabledFields| > 0 && AllHaveFields(models[1..]) by {
        assert forall i :: 0 < i < |models| ==> models[i] == models[1..][i - 1];
      }
      if head.Failure? then Failure(head.error)
      else if rest.Failure? then Failure(rest.error)
      else
        assert forall i :: 0 < i < |models| ==> models[i] == models[1..][i - 1];
        Success([head.value] + rest.value)
  }

  /** `getContentTypes`: register a collection per model, then build every
      model's descriptor. */
  function GetContentTypes(createTypeName: string -> string, models: seq<ModelRecord>): (load: ContentTypesLoad)
    ensures |load.registered| == |models|
    ensures forall i :: 0 <= i < |models| ==> load.registered[i] == createTypeName(models[i].nameId)
    ensures load.modelsArray.Success? <==> AllHaveFields(models)
    ensures load.modelsArray.Success? ==>
      && |load.modelsArray.value| == |models|
      && forall i :: 0 <= i < |models| ==> load.modelsArray.value[i].typeName == load.registered[i]
  {
    ContentTypesLoad(Register(createTypeName, models), DescribeAll(createTypeName, models))
  }

  /** When some field is flagged required, a last required field exists, and
      it is the only one. */
  lemma {:induction false} LastRequiredExists(fields: seq<FieldRecord>)
    ensures !NoneRequired(fields) <==> exists i :: IsLastRequired(fields, i)
    ensures forall i, j :: IsLastRequired(fields, i) && IsLastRequired(fields, j) ==> i == j
  {
    if !NoneRequired(fields) {
      var k :| 0 <= k < |fields| && Required(fields[k]);
      var i := k;
      while i + 1 < |fields| && exists j :: i < j < |fields| && Required(fields[j])
        invariant k <= i < |fields| && Required(fields[i])
        decreases |fields| - i
      {
        var j :| i < j < |fields| && Required(fields[j]);
        i := j;
      }
      assert IsLastRequired(fields, i);
    }
  }

  /** The display key of a loaded model: the `nameId` of the last required
      field when one exists, otherwise the `name` (not the `nameId`) of the
      first field. */
  lemma DisplayKeyChoice(createTypeName: string -> string, m: ModelRecord)
    requires |m.enabledFields| > 0
    ensures BuildDescriptor(createTypeName, m).Success?
    ensures NoneRequired(m.enabledFields) ==> BuildDescriptor(createTypeName, m).value.displayName == m.enabledFields[0].name
    ensures !NoneRequired(m.enabledFields) ==>
      exists i :: IsLastRequired(m.enabledFields, i) && BuildDescriptor(createTypeName, m).value.displayName == m.enabledFields[i].nameId
  {
    LastRequiredExists(m.enabledFields);
  }
}
