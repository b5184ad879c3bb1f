/** JavaScript values as they reach the toolkit from the network and from
    the schema engine (io-ts's `unknown`). Numbers are modelled as integers:
    the toolkit never does arithmetic on them. */
module JsValues {
  import opened Records

  datatype Value =
    | Undefined
    | Null
    | Bool(b: bool)
    | Num(n: int)
    | Str(s: string)
    | Arr(items: seq<Value>)
    | Obj(fields: Record<Value>)

  /** `JSON.stringify(value, null, indent)`. The renderer is a foreign
      collaborator; the model only ever applies it to defined values. */
  type Stringify = (Value, nat) -> string
}
