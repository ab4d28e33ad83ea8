# Chisel source loader for Gridsome, modelled in Dafny

`ChiselSource` (index.js) is a Gridsome data source. It reads a Chisel site's
content models from a Parse server and turns every published entry that its
queries return into a Gridsome node. Its logic comes down to two record-shaping steps. This project
models them as pure functions over immutable data:

* **`getContentTypes`**: one descriptor per model of the site (module
  `ContentTypes`). The enabled field list is projected to `{nameId, name}`
  pairs, in order. The *display key* starts as the `name` of the first field.
  Every field whose `isRequired` is truthy then overwrites it with that field's
  `nameId`, so the last required field wins. A model with no enabled field
  makes `modelFields[0].get` throw. That rejects the whole `Promise.all`, and
  the model returns `Failure(NoEnabledFields)`. A collection is registered for
  every model before any field query settles, so the registrations happen
  whatever the outcome.
* **`getEntries`**: node assembly and emission (module `Entries`). For each
  entry, the node gets `id`, `title` (the entry's value under the display key),
  `date` and `createdAt` (both the entry's `createdAt`) and `updatedAt`. After
  that, every declared field's value is copied unchanged under its `nameId`.
  The field writes come last, so a field named `id`, `title` or `date`
  overrides that metadata key. Nodes are emitted model by model in
  `modelsArray` order, with entries in query order.
* **`loadSource`**: the two phases in sequence (module `ChiselSource`).

The model assumes two pieces of JavaScript and Parse semantics, written as
helpers in module `Values`:

* `Values.Get`: Parse objects are a `ParseObject(id, attributes)`, and
  `get(key)` returns the stored attribute, or `Undefined` when the object has
  no own attribute of that name.
* `Values.Truthy`: JavaScript truthiness, used for the `if` on `isRequired`
  (index.js:59).

Query results are inputs, each being the page of rows one `find()` returns:
each `ModelRecord` carries the page of rows its enabled-field query returned,
and `published: string -> seq<ParseObject>` gives the page of published entries
the query on a table returns. `createTypeName` (which calls the `camelcase` package) is an opaque
parameter `string -> string`.

The loader copies field values verbatim. It has no reference, media or list
transformation and no per-field error recovery, and a model with no enabled
field aborts the load.

Also note: with no required field, the display key is the first field's `name`
(its label), while entries are keyed by `nameId`. So when no field is named
`title` and the entry has no attribute under that label, the node's `title` is
undefined (`ChiselSource.TitleFallbackUsesLabel`). The entry can still have
such an attribute, for instance when the label equals some field's `nameId`.

## Model

| member | source | states |
|---|---|---|
| ContentTypes.MapFields | index.js:57-64 | The `map` callback keeps the length and order of the field list, and projects element i to exactly field i's `nameId` and `name`. The display key is left unchanged when no field is required. Otherwise it is the `nameId` of the last required field. |
| ContentTypes.BuildDescriptor | index.js:48-74 | Fails exactly when the model has no enabled field (element 0 is dereferenced). Otherwise the descriptor carries the model's `nameId`, `createTypeName` of it, its id and table name, and the projected fields. Its display key is the first field's `name` when none is required, and the last required field's `nameId` otherwise. |
| ContentTypes.Register | index.js:46-50 | One `addCollection` per model, in model order, each with `createTypeName(nameId)`. |
| ContentTypes.DescribeAll | index.js:45-76 | `Promise.all` rejects exactly when some model has no enabled field. Otherwise it yields one descriptor per model, in input order, each being that model's descriptor. |
| ContentTypes.GetContentTypes | index.js:36-78 | A collection is registered for every model, even when the load fails. The load fails exactly when some model has no enabled field. On success, descriptor i's type name is the collection registered i-th. |
| ContentTypes.LastRequiredExists | index.js:58-59 | If some field is required, there is exactly one last required field, so the overwrite chain has a well-defined winner. |
| ContentTypes.DisplayKeyChoice | index.js:57-59 | A model with at least one field always loads. Its display key is the first field's `name` when none is required, and otherwise the `nameId` of some last required field. |
| Entries.CopyFields | index.js:94-96 | The copy loop adds exactly the declared `nameId`s as keys. Each gets the entry's value under that key, unchanged (`undefined` when absent). Every other key keeps its earlier value. |
| Entries.BuildNode | index.js:88-96 | The node's keys are exactly the five metadata keys plus the declared `nameId`s. Each declared field's value is copied unchanged. `createdAt` and `updatedAt` always hold the entry's timestamps. `id`, `title` and `date` hold the entry id, the value under the display key, and `createdAt`, unless a field of the same name overrides them. |
| Entries.EmitModel | index.js:87-98 | One node per entry of the model, in query order, each built from its own entry and addressed to the model's type name. |
| Entries.GetEntries | index.js:81-100 | The number of emitted nodes is the total, over all models, of the entries each model's query returns. |
| Entries.EmittedTypeNames | index.js:82-83 | Every emitted node is addressed to the type name of one of the models. |
| Entries.GetEntriesAppend | index.js:81-100 | Emission is grouped by model in `modelsArray` order: the run over `a + b` is the run over `a` followed by the run over `b`. |
| Entries.EmittedAt | index.js:81-98 | Entry j of model i is emitted at position (entries of the models before i) + j. It is built by model i's descriptor and addressed to model i's collection. |
| ChiselSource.LoadSource | index.js:30-33 | The registrations are those of `getContentTypes`. The run fails exactly when some model has no enabled field. A failed run adds no node. |
| ChiselSource.EmittedCollectionsRegistered | index.js:45-83 | Every node is added to a collection whose type name was registered earlier in the same run. |
| ChiselSource.OneNodePerEntry | index.js:81-98 | When the registry loads as descriptors `ds`, the run adds one node per entry the query returns. Entry j of model i sits at its own position (the entries of the models before i, plus j). It is built from that entry by descriptor i and addressed to `createTypeName` of model i's `nameId`. |
| ChiselSource.CompletedRunEmitsEntries | index.js:30-33 | When every model has a field, the registry loads, and the run's nodes are exactly those `getEntries` emits over the loaded descriptors. |
| ChiselSource.DescriptorOfModel | index.js:45-71 | On a successful load, descriptor i carries `createTypeName` of model i's `nameId` and model i's table name. |
| ChiselSource.TitleFallbackUsesLabel | index.js:90 | With no required field (and no field named `title`), the title is the entry's value under the first field's `name` (its label, not its `nameId`). So an entry with no attribute of that name gets an undefined title. |
| ChiselSource.TitleFromLastRequired | index.js:90 | With a required field (and no field named `title`), the title is the last required field's value. This is the same value the node holds under that field's `nameId`. |

## Left out

- Parse initialisation, credentials and `defaultOptions` (index.js:9-27): configuration only.
- The Parse queries and their `find()` calls: network I/O. Their results are inputs. Each `ModelRecord` carries the page of enabled fields its query returned, in query order, and `published` gives the page of published entries the query on a table returns.
- Parse's default result limit: none of the `find()` calls (index.js:44, 56, 86) sets a limit, so the server returns at most its default page (100 rows). A site with more than 100 models registers only 100, a model with more than 100 enabled fields picks its display key among the first 100, and a table with more than 100 published entries yields at most 100 nodes. The model takes each page as given and does not promise anything about the rows beyond it. The `isDisabled = false` and `t__status = 'Published'` filters are assumed to have been applied by the server.
- Timing of `Promise.all`: which rejection is reported when several models have no field depends on timing. `LoadError` therefore carries no model identity, and neither does the TypeError it stands for.
- `addCollection`, `getCollection` and `addNode`: store calls. They are recorded as the `registered` list and the `(typeName, node)` emission list.
- `createTypeName` and the `camelcase` package: an uninterpreted function parameter.
- `console.log`: logging.
- JavaScript object key order, and the special behaviour of a `__proto__` key in a node: a node is a map from key to value.
- A `Model` or `ModelField` row whose `nameId` or `name` is missing: these are strings here, not possibly-undefined values. So `createTypeName`'s default argument is not modelled.
- A `Model` row whose `tableName` is missing: `new Parse.Query(undefined)` (index.js:84) then throws in the middle of `getEntries`, after the nodes of the earlier models were added. Here `tableName` is always a string.
- Keys inherited from `Object.prototype`: Parse's `get` reads a plain object, so `get('constructor')` or `get('toString')` returns a function, which a field or display key of that name copies into the node (index.js:90, 95). `Values.Get` returns `Undefined` for every key the entry does not hold itself.
- JavaScript numbers: `Number` holds a real, so `NaN` (falsy) is not modelled in `Truthy`.
- Data changing between queries: `published` is one snapshot, so two models on the same table see the same entries.
