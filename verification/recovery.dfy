/** The two recovery handlers a caller attaches with `.catch(...)`: each
    either yields the fallback value or rethrows what it caught. */
module Recovery {
  import opened Wrappers
  import opened Errors

  /** `handleIotsParseError(fallback)(e)`: only the `IotsParseError` class of
      src/IotsParseError.ts passes `instanceof`; the classes of src/index.ts
      and src/iots-utils.ts are rethrown like any other error. */
  function HandleIotsParseError<T>(fallback: T, e: JsError): (r: Outcome<T>)
    ensures r.Ok? <==> e.ParseFailure? && e.parse.cls == ModuleErrorClass
    ensures r.Ok? ==> r.value == fallback
    ensures r.Thrown? ==> r.error == e
  {
    if e.ParseFailure? && e.parse.cls == ModuleErrorClass then Ok(fallback) else Thrown(e)
  }

  /** `handleAxios404Response(fallback)(e)`: the fallback for an axios error
      whose response has status 404, a rethrow for anything else, including
      an axios error without a response. */
  function HandleAxios404Response<T>(fallback: T, e: JsError): (r: Outcome<T>)
    ensures r.Ok? <==> e.AxiosFailure? && e.status == Some(404)
    ensures r.Ok? ==> r.value == fallback
    ensures r.Thrown? ==> r.error == e
  {
    if e.AxiosFailure? && e.status == Some(404) then Ok(fallback) else Thrown(e)
  }

  /** `promise.catch(handler)`: a fulfilled promise is left alone. */
  function Catch<T>(o: Outcome<T>, handler: JsError -> Outcome<T>): (r: Outcome<T>)
    ensures o.Ok? ==> r == o
  {
    match o
    case Ok(_) => o
    case Thrown(e) => handler(e)
  }

  /** Each handler's only outcomes are the fallback and the error it was
      given, so chaining both recovers from exactly a parse failure of
      src/IotsParseError.ts or a 404, and otherwise rethrows the original
      error unchanged. */
  lemma ChainedHandlers<T>(o: Outcome<T>, onParse: T, on404: T)
    ensures var r := Catch(Catch(o, e => HandleIotsParseError(onParse, e)), e => HandleAxios404Response(on404, e));
      && (o.Ok? ==> r == o)
      && (o.Thrown? && o.error.ParseFailure? && o.error.parse.cls == ModuleErrorClass ==> r == Ok(onParse))
      && (o.Thrown? && o.error.AxiosFailure? && o.error.status == Some(404) ==> r == Ok(on404))
      && (&& o.Thrown?
          && !(o.error.ParseFailure? && o.error.parse.cls == ModuleErrorClass)
          && !(o.error.AxiosFailure? && o.error.status == Some(404))
          ==> r == o)
  {
  }

  /** A parse failure of the legacy classes is not recovered. */
  lemma LegacyParseErrorsRethrown<T>(fallback: T, p: IotsParseError)
    requires p.cls != ModuleErrorClass
    ensures HandleIotsParseError(fallback, ParseFailure(p)) == Thrown(ParseFailure(p))
  {
  }
}
