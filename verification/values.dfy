/** JavaScript values as the loader sees them, and Parse-style attribute lookup. */
module Values {

  /** The values a Parse object attribute can hold, as far as the loader
      distinguishes them. Relations, pointers, files and plain objects are all
      `Object`: the loader only ever copies them. */
  datatype Value =
    | Undefined
    | Null
    | Bool(b: bool)
    | Number(x: real)
    | Str(s: string)
    | Date(millis: int)
    | Object(repr: string)

  /** JavaScript truthiness, as used by `if (record.get('isRequired'))`. */
  predicate Truthy(v: Value)
  {
    match v
    case Undefined => false
    case Null => false
    case Bool(b) => b
    case Number(x) => x != 0.0
    case Str(s) => s != ""
    case Date(_) => true
    case Object(_) => true
  }

  /** A Parse object as returned by a query: its object id and its attributes. */
  datatype ParseObject = ParseObject(id: string, attributes: map<string, Value>)

  /** `object.get(key)`: the stored attribute, or `undefined` when there is none. */
  function Get(o: ParseObject, key: string): Value
  {
    if key in o.attributes then o.attributes[key] else Undefined
  }
}
