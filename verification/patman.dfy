/** The older `Patman` class of src/index.ts: named services and endpoints,
    `$({ service: endpoint })` to pick a pair, and a call function that
    builds the request from a global counter and decodes the whole axios
    response. */
module Patman {
  import opened Wrappers
  import opened Records
  import opened JsValues
  import opened Iots
  import opened Errors
  import opened Endpoints
  import opened CallFunctions
  import Decoding

  /** An endpoint of src/index.ts: the body and argument codecs are optional. */
  datatype LegacyEndpoint = LegacyEndpoint(
    httpMethod: string,
    body: Option<Codec>,
    args: Option<Codec>,
    path: Spec<string>,
    headers: Option<Spec<Headers>>,
    params: Option<Spec<Params>>)

  datatype Patman = Patman(services: Record<Service>, endpoints: Record<LegacyEndpoint>)

  /** What `$` hands back: the service and endpoint it looked up, either of
      which is `undefined` when the name is not declared. */
  datatype LegacyCaller = LegacyCaller(service: Option<Service>, endpoint: Option<LegacyEndpoint>)

  /** The key JavaScript uses for a lookup by `undefined`. */
  const UndefinedKey: string := "undefined"

  /** `$(path)`: the FIRST key of `path` names the service, and the value
      stored under it names the endpoint; any further keys are ignored. With
      an empty argument both lookups are by `undefined`. */
  function Select(p: Patman, path: Record<string>): (c: LegacyCaller)
    ensures |path| > 0 ==> c == LegacyCaller(Get(p.services, path[0].0), Get(p.endpoints, path[0].1))
    ensures |path| == 0 ==> c == LegacyCaller(Get(p.services, UndefinedKey), Get(p.endpoints, UndefinedKey))
  {
    var serviceName := if |path| == 0 then UndefinedKey else Keys(path)[0];
    var endpointName := Get(path, serviceName).GetOr(UndefinedKey);
    LegacyCaller(Get(p.services, serviceName), Get(p.endpoints, endpointName))
  }

  /** Only the first key counts: whatever follows it picks nothing. */
  lemma SelectIgnoresLaterKeys(p: Patman, first: (string, string), rest: Record<string>)
    ensures Select(p, [first] + rest) == Select(p, [first])
  {
  }

  /** What the endpoint's headers add when spread over the service's:
      spreading a function copies no properties, so a computed `headers` is
      never called and contributes nothing. */
  function StaticHeaders(spec: Option<Spec<Headers>>): (h: Option<Headers>)
    ensures spec.Some? && spec.value.Static? ==> h == Some(spec.value.value)
    ensures spec.None? || spec.value.Computed? ==> h.None?
  {
    match spec
    case Some(Static(headers)) => Some(headers)
    case _ => None
  }

  /** The request options of src/index.ts. */
  datatype LegacyRequest = LegacyRequest(
    httpMethod: string,
    url: string,
    headers: Headers,
    params: Option<Params>,
    reqId: nat)

  function BuildLegacyRequest(s: Service, e: LegacyEndpoint, args: Value, reqId: nat): (r: LegacyRequest)
    ensures r.reqId == reqId && r.httpMethod == e.httpMethod
    ensures r.headers == MergeHeaders(s.headers, StaticHeaders(e.headers))
    ensures r.params == ResolveOptional(e.params, args)
    ensures |r.url| == |s.baseUrl| + |e.path.Resolve(args)|
    ensures r.url[..|s.baseUrl|] == s.baseUrl && r.url[|s.baseUrl|..] == e.path.Resolve(args)
  {
    LegacyRequest(
      e.httpMethod,
      s.baseUrl + e.path.Resolve(args),
      MergeHeaders(s.headers, StaticHeaders(e.headers)),
      ResolveOptional(e.params, args),
      reqId)
  }

  /** Function-valued headers are not invoked: the request carries exactly
      the service headers, whatever the function and the arguments. */
  lemma ComputedHeadersIgnored(s: Service, e: LegacyEndpoint, args: Value, reqId: nat)
    requires e.headers.Some? && e.headers.value.Computed?
    requires s.headers.Some? ==> UniqueKeys(s.headers.value)
    ensures BuildLegacyRequest(s, e, args, reqId).headers == s.headers.GetOr([])
  {
    if s.headers.Some? {
      MergeWithoutEndpointHeaders(s.headers.value);
    }
  }

  /** Static endpoint headers win over the service's on a shared key. */
  lemma StaticHeadersWin(s: Service, e: LegacyEndpoint, args: Value, reqId: nat, k: string)
    requires e.headers.Some? && e.headers.value.Static?
    requires UniqueKeys(e.headers.value.value)
    requires s.headers.Some? ==> UniqueKeys(s.headers.value)
    ensures k in Keys(e.headers.value.value) ==>
      Get(BuildLegacyRequest(s, e, args, reqId).headers, k) == Get(e.headers.value.value, k)
  {
    MergeHeadersGet(s.headers, StaticHeaders(e.headers), k);
  }

  /** How a legacy call ends: a `TypeError` thrown synchronously, before any
      request exists, or a request sent and the promise it settles to. */
  datatype LegacyCall = ThrewSync(error: JsError) | Sent(request: LegacyRequest, outcome: Outcome<Value>)

  datatype LegacyInvocation = LegacyInvocation(call: LegacyCall, next: nat)

  /** The environment of a legacy call: the transport, which resolves with
      the whole axios response as a value; the `AxiosResponse(body)` codec
      factory of src/index.ts; and `JSON.stringify`. */
  datatype LegacyEnvironment = LegacyEnvironment(
    send: LegacyRequest -> Outcome<Value>,
    responseCodec: Codec -> Codec,
    stringify: Stringify)

  const NoEndpointMessage: string := "Cannot read properties of undefined (reading 'method')"
  const NoServiceMessage: string := "Cannot read properties of undefined (reading 'baseUrl')"

  /** Calling the function `$` returned, with the global `reqId` at
      `counter`. The options object is evaluated field by field: `e.method`
      first, then `s.baseUrl`, and `reqId++` last, so a missing endpoint or
      service throws before the counter moves. */
  function LegacyInvoke(c: LegacyCaller, args: Value, counter: nat, env: LegacyEnvironment): (inv: LegacyInvocation)
    ensures c.endpoint.None? ==> inv == LegacyInvocation(ThrewSync(TypeError(NoEndpointMessage)), counter)
    ensures c.endpoint.Some? && c.service.None? ==> inv == LegacyInvocation(ThrewSync(TypeError(NoServiceMessage)), counter)
    ensures inv.call.Sent? <==> c.endpoint.Some? && c.service.Some?
    ensures inv.call.Sent? ==> inv.call.request.reqId == counter && inv.next == counter + 1
    ensures inv.call.Sent? ==> inv.call.request == BuildLegacyRequest(c.service.value, c.endpoint.value, args, counter)
    ensures inv.call.Sent? && env.send(inv.call.request).Thrown? ==> inv.call.outcome == env.send(inv.call.request)
    ensures inv.call.Sent? && env.send(inv.call.request).Ok? ==>
      inv.call.outcome == Decoding.DecodeLegacy(
        PatmanErrorClass, env.responseCodec(c.endpoint.value.body.GetOr(UnknownCodec)),
        env.send(inv.call.request).value, env.stringify)
  {
    match (c.endpoint, c.service)
    case (None, _) => LegacyInvocation(ThrewSync(TypeError(NoEndpointMessage)), counter)
    case (Some(_), None) => LegacyInvocation(ThrewSync(TypeError(NoServiceMessage)), counter)
    case (Some(e), Some(s)) =>
      var request := BuildLegacyRequest(s, e, args, counter);
      var outcome :=
        match env.send(request)
        case Thrown(err) => Thrown(err)
        case Ok(response) =>
          Decoding.DecodeLegacy(PatmanErrorClass, env.responseCodec(e.body.GetOr(UnknownCodec)), response, env.stringify);
      LegacyInvocation(Sent(request, outcome), counter + 1)
  }

  /** The response is checked against `AxiosResponse(e.body ?? t.unknown)`:
      a rejection is an `IotsParseError` of the class of src/index.ts or a
      `TypeError` from its constructor. */
  lemma LegacyDecodeErrors(c: LegacyCaller, args: Value, counter: nat, env: LegacyEnvironment, response: Value)
    requires c.endpoint.Some? && c.service.Some?
    requires env.send(BuildLegacyRequest(c.service.value, c.endpoint.value, args, counter)) == Ok(response)
    ensures var inv := LegacyInvoke(c, args, counter, env);
            var codec := env.responseCodec(c.endpoint.value.body.GetOr(UnknownCodec));
            && (codec.decode(response).Right? ==> inv.call.outcome == Ok(codec.decode(response).value))
            && (inv.call.outcome.Thrown? ==>
                  || inv.call.outcome.error.TypeError?
                  || (inv.call.outcome.error.ParseFailure? && inv.call.outcome.error.parse.cls == PatmanErrorClass))
  {
  }

  /** An undeclared pair picked with `$` fails at call time and leaves the
      counter where it was. */
  lemma UndeclaredPairKeepsCounter(p: Patman, path: Record<string>, args: Value, counter: nat, env: LegacyEnvironment)
    requires Select(p, path).service.None? || Select(p, path).endpoint.None?
    ensures LegacyInvoke(Select(p, path), args, counter, env).call.ThrewSync?
    ensures LegacyInvoke(Select(p, path), args, counter, env).next == counter
  {
  }
}
