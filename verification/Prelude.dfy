/** Shared datatypes: results, options, and the JSON-like values that reach the
    modelled code from requests and remote services. */
module Prelude {

  datatype Option<+T> = None | Some(value: T)

  datatype Result<+T, +E> = Ok(value: T) | Err(error: E)

  /** A decoded JSON value. A number that Python's `float` cannot hold as a finite
      value (NaN, an infinity, an integer too large to convert) is `NotFinite`. */
  datatype Value =
    | Null
    | Bool(b: bool)
    | Int(n: int)
    | Float(x: real)
    | NotFinite
    | Str(s: string)
    | List(items: seq<Value>)
    | Dict(entries: map<string, Value>)
}
