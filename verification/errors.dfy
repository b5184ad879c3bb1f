/** The error taxonomy of the toolkit: the structured decode error
    (`IotsParseError`) and the other thrown values the recovery handlers and
    the call function see. */
module Errors {
  import opened Wrappers
  import opened JsValues
  import opened Iots

  /** The value part of a formatted error: either the
      `originalValueIsUndefined: true` flag or the `originalValue` itself. */
  datatype Original = ValueIsUndefined | OriginalValue(value: Value)

  /** One entry of `formatIotsError`'s result. */
  datatype FormattedError = FormattedError(path: string, expectedType: string, original: Original)

  /** The repository defines the `IotsParseError` class three times; an
      `instanceof` test only recognises its own. */
  datatype ErrorClass =
    | ModuleErrorClass     // src/IotsParseError.ts
    | PatmanErrorClass     // src/index.ts
    | IotsUtilsErrorClass  // src/iots-utils.ts

  datatype IotsParseError = IotsParseError(
    cls: ErrorClass,
    originalErrors: seq<ValidationError>,
    formattedErrors: seq<FormattedError>,
    message: string)

  /** Anything a promise can reject with or a function can throw. */
  datatype JsError =
    | ParseFailure(parse: IotsParseError)
      /** An axios error; `status` is `undefined` when no response arrived. */
    | AxiosFailure(status: Option<int>, message: string)
    | TypeError(message: string)
    | OtherError(name: string, message: string)

  /** Normal completion (or fulfilment) versus a throw (or rejection). */
  datatype Outcome<+T> = Ok(value: T) | Thrown(error: JsError)
}
