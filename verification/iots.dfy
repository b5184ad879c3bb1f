/** The part of io-ts's contract the toolkit relies on: a codec has a display
    name and a `decode` that either returns a (possibly transformed) value or
    a list of validation errors, each naming the chain of context entries from
    the root to the failing leaf. The engine itself is foreign; a codec is
    modelled by its name and its decoding function. */
module Iots {
  import opened JsValues

  /** One step of an io-ts context: the property key (`""` at the root) and
      the display name of the codec applied there. */
  datatype ContextEntry = ContextEntry(key: string, typeName: string)

  datatype ValidationError = ValidationError(context: seq<ContextEntry>, value: Value)

  /** io-ts's `Either<Errors, A>`. */
  datatype Validation = Left(errors: seq<ValidationError>) | Right(value: Value)

  datatype Codec = Codec(name: string, decode: Value -> Validation)

  /** The error io-ts reports when a codec rejects the value it was given at
      the top level: a one-entry context with the empty key. */
  function RootFailure(name: string, v: Value): ValidationError {
    ValidationError([ContextEntry("", name)], v)
  }

  /** `t.void`: accepts exactly `undefined`. */
  const VoidCodec: Codec :=
    Codec("void", (v: Value) => if v.Undefined? then Right(v) else Left([RootFailure("void", v)]))

  /** `t.unknown`: accepts every value unchanged. */
  const UnknownCodec: Codec := Codec("unknown", (v: Value) => Right(v))
}
