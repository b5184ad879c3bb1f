/** `decode`: run a codec and either return what it produced or throw the
    structured error built from its validation errors. */
module Decoding {
  import opened Wrappers
  import opened JsValues
  import opened Iots
  import opened Errors
  import ParseErrors
  import FormatIotsError

  /** `$decode(t)(x)` of src/decode.ts: `Right` gives the decoded value; `Left`
      throws `new IotsParseError(left)`, whose constructor may itself throw. */
  function DecodeWith(codec: Codec, x: Value, stringify: Stringify): (r: Outcome<Value>)
    ensures codec.decode(x).Right? ==> r == Ok(codec.decode(x).value)
    ensures codec.decode(x).Left? ==> r.Thrown?
    ensures codec.decode(x).Left? && FormatIotsError.AllRooted(codec.decode(x).errors) ==>
      && r.error.ParseFailure?
      && r.error.parse == ParseErrors.Make(codec.decode(x).errors, stringify).value
      && r.error.parse.cls == ModuleErrorClass
      && r.error.parse.originalErrors == codec.decode(x).errors
  {
    match codec.decode(x)
    case Right(v) => Ok(v)
    case Left(errors) =>
      match ParseErrors.Make(errors, stringify)
      case Ok(e) => Thrown(ParseFailure(e))
      case Thrown(e) => Thrown(e)
  }

  /** What the overloaded `decode` returns: the curried decoder, or the
      outcome of decoding. */
  datatype Decoded = Curried(codec: Codec) | Result(outcome: Outcome<Value>)

  /** Calling a curried decoder. */
  function Apply(d: Decoded, x: Value, stringify: Stringify): Outcome<Value>
    requires d.Curried?
  {
    DecodeWith(d.codec, x, stringify)
  }

  /** `decode(t, x)` of src/decode.ts as written: it tells the one-argument
      form from the two-argument form by `typeof x === 'undefined'`, so an
      explicit `undefined` is not decoded; the curried decoder comes back
      instead. */
  function Decode(codec: Codec, x: Value, stringify: Stringify): (r: Decoded)
    ensures r.Curried? <==> x.Undefined?
    ensures r.Curried? ==> r.codec == codec
  {
    if x.Undefined? then Curried(codec) else Result(DecodeWith(codec, x, stringify))
  }

  /** `decode(t, x)` for a defined `x` is `decode(t)(x)`. */
  lemma DecodeDefinedIsCurriedApplication(codec: Codec, x: Value, stringify: Stringify)
    requires !x.Undefined?
    ensures Decode(codec, x, stringify) == Result(Apply(Decode(codec, Undefined, stringify), x, stringify))
  {
  }

  /** `t.string`, used to exhibit the overload: it rejects `undefined`. */
  const StringCodec: Codec :=
    Codec("string", (v: Value) => if v.Str? then Right(v) else Left([RootFailure("string", v)]))

  /** Decoding `undefined` against `t.string` should throw an
      `IotsParseError`, but `decode(t.string, undefined)` throws nothing and
      returns a function: validation is skipped. */
  lemma DecodeUndefinedSkipsValidation(stringify: Stringify)
    ensures DecodeWith(StringCodec, Undefined, stringify).Thrown?
    ensures DecodeWith(StringCodec, Undefined, stringify).error.ParseFailure?
    ensures Decode(StringCodec, Undefined, stringify).Curried?
  {
    var errors := [RootFailure("string", Undefined)];
    assert StringCodec.decode(Undefined) == Left(errors);
    assert FormatIotsError.AllRooted(errors);
  }

  /** The evidently intended overload: the curried form only when the second
      argument is absent (`arguments.length === 1`), so every supplied value,
      `undefined` included, is decoded. */
  function DecodeStrict(codec: Codec, x: Option<Value>, stringify: Stringify): (r: Decoded)
    ensures r.Curried? <==> x.None?
    ensures r.Curried? ==> r.codec == codec
  {
    match x
    case None => Curried(codec)
    case Some(v) => Result(DecodeWith(codec, v, stringify))
  }

  /** The intended overload decodes every supplied value, and agrees with
      the code as written whenever that value is defined. */
  lemma DecodeStrictDecodes(codec: Codec, x: Value, stringify: Stringify)
    ensures DecodeStrict(codec, Some(x), stringify) == Result(DecodeWith(codec, x, stringify))
    ensures !x.Undefined? ==> DecodeStrict(codec, Some(x), stringify) == Decode(codec, x, stringify)
    ensures DecodeStrict(codec, None, stringify) == Decode(codec, Undefined, stringify)
  {
  }

  /** `t.unknown` accepts every value unchanged, so decoding with it never
      throws. */
  lemma DecodeUnknownIsIdentity(x: Value, stringify: Stringify)
    ensures DecodeWith(UnknownCodec, x, stringify) == Ok(x)
  {
  }

  /** `t.void` accepts only `undefined`; any other value throws an
      `IotsParseError` whose single formatted error is at `#root`, expects
      `void` and carries the value. */
  lemma DecodeVoid(x: Value, stringify: Stringify)
    ensures DecodeWith(VoidCodec, x, stringify).Ok? <==> x.Undefined?
    ensures !x.Undefined? ==>
      && DecodeWith(VoidCodec, x, stringify).error.ParseFailure?
      && DecodeWith(VoidCodec, x, stringify).error.parse.formattedErrors
         == [FormattedError(FormatIotsError.RootLabel, "void", OriginalValue(x))]
  {
    if !x.Undefined? {
      var errors := [RootFailure("void", x)];
      assert VoidCodec.decode(x) == Left(errors);
      FormatIotsError.FormatRootFailure("void", x);
      assert FormatIotsError.AllRooted(errors);
    }
  }

  /** `decode(t)(x)` of src/index.ts and src/iots-utils.ts: the same, but
      the error is the variant's own `IotsParseError` class. */
  function DecodeLegacy(cls: ErrorClass, codec: Codec, x: Value, stringify: Stringify): (r: Outcome<Value>)
    ensures codec.decode(x).Right? ==> r == Ok(codec.decode(x).value)
    ensures codec.decode(x).Left? ==> r.Thrown?
    ensures r.Thrown? && r.error.ParseFailure? ==>
      r.error.parse.cls == cls && r.error.parse.originalErrors == codec.decode(x).errors
    ensures codec.decode(x).Left? ==>
      (r.error.ParseFailure? <==> ParseErrors.MakeLegacy(cls, codec.decode(x).errors, stringify).Ok?)
    ensures codec.decode(x).Left? && ParseErrors.MakeLegacy(cls, codec.decode(x).errors, stringify).Ok? ==>
      r == Thrown(ParseFailure(ParseErrors.MakeLegacy(cls, codec.decode(x).errors, stringify).value))
    ensures codec.decode(x).Left? && ParseErrors.MakeLegacy(cls, codec.decode(x).errors, stringify).Thrown? ==>
      r == Thrown(ParseErrors.MakeLegacy(cls, codec.decode(x).errors, stringify).error)
  {
    match codec.decode(x)
    case Right(v) => Ok(v)
    case Left(errors) =>
      match ParseErrors.MakeLegacy(cls, errors, stringify)
      case Ok(e) => Thrown(ParseFailure(e))
      case Thrown(e) => Thrown(e)
  }

  /** The legacy decoders turn a rejected `null` into a `TypeError`, where
      the decoder of src/decode.ts throws an `IotsParseError`. */
  lemma DecodeLegacyNullThrowsTypeError(cls: ErrorClass, stringify: Stringify)
    ensures DecodeLegacy(cls, StringCodec, Null, stringify).Thrown?
    ensures DecodeLegacy(cls, StringCodec, Null, stringify).error.TypeError?
    ensures DecodeWith(StringCodec, Null, stringify).error.ParseFailure?
  {
    var errors := [RootFailure("string", Null)];
    assert StringCodec.decode(Null) == Left(errors);
    ParseErrors.LegacyNullValueThrows(cls, stringify);
    assert FormatIotsError.AllRooted(errors);
  }
}
