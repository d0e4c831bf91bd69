/** Python values, dictionaries and exceptions as the connection code sees them. */
module Values {

  /** The scalar values a parameter dictionary holds (None, bool, int, float, str). */
  datatype Value = None | Bool(b: bool) | Int(i: int) | Real(r: real) | Str(s: string)

  /** Python truthiness of a scalar: None, False, 0, 0.0 and '' are falsy. */
  predicate Truthy(v: Value)
  {
    match v
    case None => false
    case Bool(b) => b
    case Int(i) => i != 0
    case Real(r) => r != 0.0
    case Str(s) => s != ""
  }

  /** A parameter dictionary, keyed by property name. */
  type Params = map<string, Value>

  /** `params.get(key)`: the stored value, or None when the key is absent. */
  function Get(params: Params, key: string): Value
  {
    if key in params then params[key] else None
  }

  /** The exceptions that construction and tag creation can raise. */
  datatype Error =
    | MissingProperty(key: string)   // PropertyError "Missing expected property <key>"
    | UnknownTagType(key: string)    // PropertyError "Error creating tag, unknown type: <key>"
    | KeyErrorRaised(key: string)    // a KeyError escaping from a tag constructor
    | OtherError                     // any other exception of a tag constructor

  datatype Option<T> = Nothing | Some(value: T)

  datatype Result<T> = Success(value: T) | Failure(error: Error)

  /** A caller's dictionary, which `new_tag` updates in place. */
  class ParamDict {
    var entries: Params

    constructor (entries: Params)
      ensures this.entries == entries
    {
      this.entries := entries;
    }
  }
}
