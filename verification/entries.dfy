/** Node assembly and emission performed by `getEntries`. */
module Entries {
  import opened Values
  import opened ContentTypes

  /** A node as handed to `addNode`: a plain object, key to value. */
  type Node = map<string, Value>

  /** A node together with the type name of the collection it is added to. */
  datatype Emitted = Emitted(typeName: string, node: Node)

  /** The keys written before any field is copied. */
  const MetadataKeys: set<string> := {"id", "title", "date", "createdAt", "updatedAt"}

  /** The keys written by the per-field copy loop. */
  function FieldKeys(fields: seq<FieldSpec>): set<string>
  {
    set f | f in fields :: f.nameId
  }

  /** The node after its five metadata writes. */
  function Metadata(m: ModelDescriptor, entry: ParseObject): Node
  {
    map["id" := Str(entry.id)]
       ["title" := Get(entry, m.displayName)]
       ["date" := Get(entry, "createdAt")]
       ["createdAt" := Get(entry, "createdAt")]
       ["updatedAt" := Get(entry, "updatedAt")]
  }

  /** The loop `node[field.nameId] = entry.get(field.nameId)` over `fields`,
      in order, on top of `node`. */
  function CopyFields(node: Node, fields: seq<FieldSpec>, entry: ParseObject): (r: Node)
    ensures r.Keys == node.Keys + FieldKeys(fields)
    ensures forall k :: k in FieldKeys(fields) ==> r[k] == Get(entry, k)
    ensures forall k :: k in node && k !in FieldKeys(fields) ==> r[k] == node[k]
    decreases |fields|
  {
    if |fields| == 0 then node
    else
      assert FieldKeys(fields) == {fields[0].nameId} + FieldKeys(fields[1..]) by {
        assert forall f :: f in fields <==> f == fields[0] || f in fields[1..];
      }
      CopyFields(node[fields[0].nameId := Get(entry, fields[0].nameId)], fields[1..], entry)
  }

  /** The node built for one entry of model `m`. */
  function BuildNode(m: ModelDescriptor, entry: ParseObject): (node: Node)
    ensures node.Keys == MetadataKeys + FieldKeys(m.fields)
    // a declared field's value is copied unchanged, whatever key it lands on
    ensures forall i :: 0 <= i < |m.fields| ==> node[m.fields[i].nameId] == Get(entry, m.fields[i].nameId)
    // the timestamps are right even when a field overrides them
    ensures node["createdAt"] == Get(entry, "createdAt")
    ensures node["updatedAt"] == Get(entry, "updatedAt")
    // the other metadata keys hold their metadata unless a field of the same name overrides them
    ensures "id" !in FieldKeys(m.fields) ==> node["id"] == Str(entry.id)
    ensures "title" !in FieldKeys(m.fields) ==> node["title"] == Get(entry, m.displayName)
    ensures "date" !in FieldKeys(m.fields) ==> node["date"] == node["createdAt"]
  {
    assert forall i :: 0 <= i < |m.fields| ==> m.fields[i].nameId in FieldKeys(m.fields);
    var metadata := Metadata(m, entry);
    assert metadata.Keys == MetadataKeys;
    assert metadata["id"] == Str(entry.id) && metadata["title"] == Get(entry, m.displayName);
    assert metadata["date"] == metadata["createdAt"] == Get(entry, "createdAt");
    CopyFields(metadata, m.fields, entry)
  }

  /** The inner loop over one model's entries: one node per entry, in query
      order, all for the model's collection. */
  function EmitModel(m: ModelDescriptor, entries: seq<ParseObject>): (out: seq<Emitted>)
    ensures |out| == |entries|
    ensures forall j :: 0 <= j < |entries| ==> out[j] == Emitted(m.typeName, BuildNode(m, entries[j]))
    decreases |entries|
  {
    if |entries| == 0 then []
    else
      var rest := EmitModel(m, entries[1..]);
      assert forall j :: 0 < j < |entries| ==> entries[j] == entries[1..][j - 1];
      [Emitted(m.typeName, BuildNode(m, entries[0]))] + rest
  }

  /** The type names of `models`. */
  function TypeNames(models: seq<ModelDescriptor>): set<string>
  {
    set d | d in models :: d.typeName
  }

  /** The number of entries over `models`, each model counting the page of
      published entries its table's query returns. */
  function EntryCount(models: seq<ModelDescriptor>, published: string -> seq<ParseObject>): nat
    decreases |models|
  {
    if |models| == 0 then 0 else |published(models[0].tableName)| + EntryCount(models[1..], published)
  }

  /** `getEntries`: the models visited in `modelsArray` order, each with the
      page of published entries its table's query returns. */
  function GetEntries(models: seq<ModelDescriptor>, published: string -> seq<ParseObject>): (out: seq<Emitted>)
    ensures |out| == EntryCount(models, published)
    decreases |models|
  {
    if |models| == 0 then []
    else
      EmitModel(models[0], published(models[0].tableName)) + GetEntries(models[1..], published)
  }

  /** Every node is addressed to the collection of one of the models. */
  lemma {:induction false} EmittedTypeNames(models: seq<ModelDescriptor>, published: string -> seq<ParseObject>)
    ensures forall k :: 0 <= k < |GetEntries(models, published)| ==>
      GetEntries(models, published)[k].typeName in TypeNames(models)
    decreases |models|
  {
    if |models| > 0 {
      var head := EmitModel(models[0], published(models[0].tableName));
      var rest := GetEntries(models[1..], published);
      EmittedTypeNames(models[1..], published);
      assert TypeNames(models) == {models[0].typeName} + TypeNames(models[1..]) by {
        assert forall d :: d in models <==> d == models[0] || d in models[1..];
      }
      assert GetEntries(models, published) == head + rest;
    }
  }

  /** Emission is grouped by model: the run over `a + b` is the run over `a`
      followed by the run over `b`. */
  lemma {:induction false} GetEntriesAppend(a: seq<ModelDescriptor>, b: seq<ModelDescriptor>, published: string -> seq<ParseObject>)
    ensures GetEntries(a + b, published) == GetEntries(a, published) + GetEntries(b, published)
    ensures EntryCount(a + b, published) == EntryCount(a, published) + EntryCount(b, published)
    decreases |a|
  {
    if |a| == 0 {
      assert a + b == b;
    } else {
      assert (a + b)[0] == a[0];
      assert (a + b)[1..] == a[1..] + b;
      GetEntriesAppend(a[1..], b, published);
      assert GetEntries(a + b, published)
          == EmitModel(a[0], published(a[0].tableName)) + GetEntries(a[1..] + b, published);
    }
  }

  /** Entry `j` of model `i` produces the node at position
      `EntryCount(models[..i]) + j`, built from that entry with that model's
      descriptor and addressed to that model's collection. */
  lemma {:induction false} EmittedAt(models: seq<ModelDescriptor>, published: string -> seq<ParseObject>, i: int, j: int)
    requires 0 <= i < |models|
    requires 0 <= j < |published(models[i].tableName)|
    ensures EntryCount(models[..i], published) + j < |GetEntries(models, published)|
    ensures GetEntries(models, published)[EntryCount(models[..i], published) + j]
         == Emitted(models[i].typeName, BuildNode(models[i], published(models[i].tableName)[j]))
  {
    assert models == models[..i] + [models[i]] + models[i + 1..];
    GetEntriesAppend(models[..i] + [models[i]], models[i + 1..], published);
    GetEntriesAppend(models[..i], [models[i]], published);
    assert [models[i]][1..] == [];
  }
}
