/** The JSON values that request payloads and response bodies are made of. */
module Json {

  /** A JSON value: the dictionaries built by the `to_dict` methods are `Obj`s. */
  datatype Value =
    | Int(i: int)
    | Str(s: string)
    | Null
    | Arr(items: seq<Value>)
    | Obj(fields: map<string, Value>)
}
