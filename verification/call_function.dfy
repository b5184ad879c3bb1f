/** `createCallFunction` of src/createCallFunction.ts: binds a service and an
    endpoint into a function that takes a request id, resolves the endpoint's
    static-or-computed fields against the arguments, builds the request,
    hands it to the transport, decodes the response body and logs the
    transaction. The transport, the random logger suffix and `JSON.stringify`
    are parameters. */
module CallFunctions {
  import opened Wrappers
  import opened Records
  import opened JsValues
  import opened Iots
  import opened Errors
  import opened Endpoints
  import Text
  import Decoding
  import UndefinedProps
  import Censor
  import FormatIotsError

  /** `Service`: the target origin and the default headers. */
  datatype Service = Service(baseUrl: string, headers: Option<Headers>)

  /** A call function is determined by what it binds. */
  datatype CallFunction = CallFunction(service: Service, endpoint: Endpoint)

  /** `createCallFunction(service, endpoint)`: whatever the arguments, the
      counter, the logger suffix and the environment, the function sends the
      request built from this service and endpoint and settles it against
      this endpoint's return codec. */
  function CreateCallFunction(service: Service, endpoint: Endpoint): (cf: CallFunction)
    ensures forall args, counter, suffix, env ::
      && Invoke(cf, args, counter, suffix, env).request == BuildRequest(service, endpoint, args, counter, suffix)
      && Invoke(cf, args, counter, suffix, env).outcome
         == Settle(endpoint, env.send(Invoke(cf, args, counter, suffix, env).request), env.stringify)
  {
    CallFunction(service, endpoint)
  }

  /** The request options handed to axios (`AxiosRequestEnhanced`). */
  datatype Request = Request(
    httpMethod: string,
    url: string,
    headers: Headers,
    params: Option<Params>,
    reqId: nat,
    loggerName: string)

  const LoggerSeparator: char := '.'

  /** The sub-logger of one transaction: the request id in decimal, a dot,
      then the random suffix. */
  function LoggerName(reqId: nat, suffix: string): (name: string)
    ensures |name| == |Text.DecimalString(reqId)| + 1 + |suffix|
    ensures name[..|Text.DecimalString(reqId)| + 1] == Text.DecimalString(reqId) + [LoggerSeparator]
  {
    Text.DecimalString(reqId) + [LoggerSeparator] + suffix
  }

  /** The service headers overridden by the endpoint headers; an absent
      side adds nothing. */
  function MergeHeaders(serviceHeaders: Option<Headers>, endpointHeaders: Option<Headers>): (merged: Headers)
    ensures UniqueKeys(merged)
    ensures forall k :: k in Keys(merged) <==>
      || (serviceHeaders.Some? && k in Keys(serviceHeaders.value))
      || (endpointHeaders.Some? && k in Keys(endpointHeaders.value))
  {
    var base := Spread([], serviceHeaders.GetOr([]));
    SpreadKeys([], serviceHeaders.GetOr([]));
    SpreadKeys(base, endpointHeaders.GetOr([]));
    Spread(base, endpointHeaders.GetOr([]))
  }

  /** The header merge: an endpoint value wins on a shared key, a key only
      the service sets keeps its value, and a key neither sets is absent. */
  lemma MergeHeadersGet(serviceHeaders: Option<Headers>, endpointHeaders: Option<Headers>, k: string)
    requires serviceHeaders.Some? ==> UniqueKeys(serviceHeaders.value)
    requires endpointHeaders.Some? ==> UniqueKeys(endpointHeaders.value)
    ensures UniqueKeys(MergeHeaders(serviceHeaders, endpointHeaders))
    ensures Get(MergeHeaders(serviceHeaders, endpointHeaders), k)
         == if endpointHeaders.Some? && k in Keys(endpointHeaders.value) then Get(endpointHeaders.value, k)
            else if serviceHeaders.Some? then Get(serviceHeaders.value, k)
            else None
  {
    var s := serviceHeaders.GetOr([]);
    var e := endpointHeaders.GetOr([]);
    SpreadGet([], s, k);
    SpreadGet(Spread([], s), e, k);
    SpreadKeys([], s);
    SpreadKeys(Spread([], s), e);
  }

  /** Without endpoint headers the service headers go out exactly as they are. */
  lemma MergeWithoutEndpointHeaders(serviceHeaders: Headers)
    requires UniqueKeys(serviceHeaders)
    ensures MergeHeaders(Some(serviceHeaders), None) == serviceHeaders
  {
    SpreadIntoEmpty(serviceHeaders);
  }

  /** Service defaults `{A: "1", B: "2"}` and endpoint headers
      `{B: "3", C: "4"}` merge to `{A: "1", B: "3", C: "4"}`. */
  lemma MergeHeadersExample()
    ensures MergeHeaders(Some([("A", "1"), ("B", "2")]), Some([("B", "3"), ("C", "4")]))
         == [("A", "1"), ("B", "3"), ("C", "4")]
  {
    var s: Headers := [("A", "1"), ("B", "2")];
    var e: Headers := [("B", "3"), ("C", "4")];
    var a1: Headers := [("A", "1"), ("B", "3")];
    var merged: Headers := [("A", "1"), ("B", "3"), ("C", "4")];
    assert Spread([], s) == s by {
      assert Keys(s) == ["A", "B"];
      SpreadIntoEmpty(s);
    }
    assert Assign(s, "B", "3") == a1 by {
      assert s[1..] == [("B", "2")];
    }
    assert Spread(s, e) == Spread(a1, [("C", "4")]) by {
      assert e[1..] == [("C", "4")];
    }
    assert Assign(a1, "C", "4") == merged by {
      assert Keys(a1) == ["A", "B"];
      AppendAssign(a1, "C", "4");
    }
    assert Spread(a1, [("C", "4")]) == merged by {
      assert [("C", "4")][1..] == [];
    }
  }

  /** Everything that goes into the request options, for one request id. */
  function BuildRequest(service: Service, e: Endpoint, args: Value, reqId: nat, suffix: string): (r: Request)
    ensures r.reqId == reqId
    ensures r.httpMethod == e.httpMethod
    ensures |r.url| == |service.baseUrl| + |e.path.Resolve(args)|
    ensures r.url[..|service.baseUrl|] == service.baseUrl
    ensures r.url[|service.baseUrl|..] == e.path.Resolve(args)
    ensures r.params == ResolveOptional(e.params, args)
    ensures r.headers == MergeHeaders(service.headers, ResolveOptional(e.headers, args))
    ensures r.loggerName == LoggerName(reqId, suffix)
  {
    Request(
      e.httpMethod,
      service.baseUrl + e.path.Resolve(args),
      MergeHeaders(service.headers, ResolveOptional(e.headers, args)),
      ResolveOptional(e.params, args),
      reqId,
      LoggerName(reqId, suffix))
  }

  /** The URL is the base URL immediately followed by the path: a static path
      as given, a computed one applied to the arguments. */
  lemma UrlIsBaseUrlThenPath(service: Service, e: Endpoint, args: Value, reqId: nat, suffix: string)
    ensures e.path.Static? ==> BuildRequest(service, e, args, reqId, suffix).url == service.baseUrl + e.path.value
    ensures e.path.Computed? ==> BuildRequest(service, e, args, reqId, suffix).url == service.baseUrl + e.path.compute(args)
  {
    var url := BuildRequest(service, e, args, reqId, suffix).url;
    assert url == url[..|service.baseUrl|] + url[|service.baseUrl|..];
  }

  /** What `paramsSerializer.serialize` hands to `qs.stringify`: the
      parameters with every `undefined`-valued key removed. */
  function SerializerInput(r: Request): (q: Option<Record<ParamValue>>)
    ensures q.Some? <==> r.params.Some?
    ensures q.Some? ==> forall k, v :: (k, v) in q.value <==> (k, Some(v)) in r.params.value
  {
    match r.params
    case None => None
    case Some(p) => Some(UndefinedProps.RemoveUndefined(p))
  }

  /** The raw axios response. */
  datatype RawResponse = RawResponse(status: int, statusText: string, headers: Value, data: Value)

  /** `response.data` after decoding: the decoded value, or, through the
      overload of `decode`, the curried decoder itself. */
  datatype Body = Data(value: Value) | DecoderFunction(codec: Codec)

  datatype Response = Response(status: int, statusText: string, headers: Value, data: Body)

  /** `axios.request`: network I/O, a parameter of the model. */
  type Transport = Request -> Outcome<RawResponse>

  /** The response body replaced by what `decode` makes of it with the
      endpoint's return codec; every other response field is kept. */
  function DecodeResponse(e: Endpoint, raw: RawResponse, stringify: Stringify): (r: Outcome<Response>)
    ensures !raw.data.Undefined? && e.returnBody.decode(raw.data).Right? ==>
      r == Ok(Response(raw.status, raw.statusText, raw.headers, Data(e.returnBody.decode(raw.data).value)))
    ensures !raw.data.Undefined? && e.returnBody.decode(raw.data).Left? ==>
      r == Thrown(Decoding.DecodeWith(e.returnBody, raw.data, stringify).error)
    ensures raw.data.Undefined? ==>
      r == Ok(Response(raw.status, raw.statusText, raw.headers, DecoderFunction(e.returnBody)))
  {
    match Decoding.Decode(e.returnBody, raw.data, stringify)
    case Curried(c) => Ok(Response(raw.status, raw.statusText, raw.headers, DecoderFunction(c)))
    case Result(Ok(v)) => Ok(Response(raw.status, raw.statusText, raw.headers, Data(v)))
    case Result(Thrown(err)) => Thrown(err)
  }

  /** One line of the transaction log. */
  datatype LogEntry =
    | RequestLine(httpMethod: string, url: string)
    | RequestHeadersLine(sent: Headers)
    | StatusLine(status: int, statusText: string)
    | ResponseHeadersLine(received: Value)
    | BodyLine(body: Body)
    | ErrorLine(name: string, message: string)

  /** `e.name` of an axios error: axios sets it explicitly. */
  const AxiosErrorName: string := "AxiosError"
  /** `e.name` of an `IotsParseError`: the class never sets it, so the
      value inherited from `Error.prototype` shows. */
  const ParseErrorName: string := "Error"

  /** The `catch` branch logs only axios errors and the `IotsParseError` of
      src/IotsParseError.ts, as `name: message`; anything else is rethrown
      without a line. */
  function ErrorLog(e: JsError): (log: seq<LogEntry>)
    ensures |log| <= 1
    ensures log == [] <==> !e.AxiosFailure? && !(e.ParseFailure? && e.parse.cls == ModuleErrorClass)
    ensures e.AxiosFailure? ==> log == [ErrorLine(AxiosErrorName, e.message)]
    ensures e.ParseFailure? && e.parse.cls == ModuleErrorClass ==> log == [ErrorLine(ParseErrorName, e.parse.message)]
  {
    match e
    case AxiosFailure(_, message) => [ErrorLine(AxiosErrorName, message)]
    case ParseFailure(p) => if p.cls == ModuleErrorClass then [ErrorLine(ParseErrorName, p.message)] else []
    case _ => []
  }

  /** The lines logged once the promise settles: status, headers and body
      of a response, or the error line of a failure. */
  function OutcomeLog(o: Outcome<Response>): (log: seq<LogEntry>)
    ensures o.Ok? ==> log == [StatusLine(o.value.status, o.value.statusText), ResponseHeadersLine(o.value.headers), BodyLine(o.value.data)]
    ensures o.Thrown? ==> log == ErrorLog(o.error)
    ensures o.Thrown? ==> |log| <= 1
  {
    match o
    case Ok(r) => [StatusLine(r.status, r.statusText), ResponseHeadersLine(r.headers), BodyLine(r.data)]
    case Thrown(e) => ErrorLog(e)
  }

  /** The request line, then, when the interceptor is installed, the
      request headers as it logs them: censored unless `SHOW_AUTH_HEADERS`
      is set. */
  function RequestLog(r: Request, headerInterceptor: bool, showAuthHeaders: bool): (log: seq<LogEntry>)
    ensures |log| == if headerInterceptor then 2 else 1
    ensures log[0] == RequestLine(r.httpMethod, r.url)
    ensures headerInterceptor && showAuthHeaders ==> log[1] == RequestHeadersLine(r.headers)
    ensures headerInterceptor && !showAuthHeaders ==> log[1] == RequestHeadersLine(Censor.CensorHeaders(r.headers))
  {
    var line := RequestLine(r.httpMethod, r.url);
    if headerInterceptor
    then [line, RequestHeadersLine(if showAuthHeaders then r.headers else Censor.CensorHeaders(r.headers))]
    else [line]
  }

  /** The configuration of the environment a call runs in. Two switches
      govern logging: `logging` is whether the transaction's own sub-logger
      is enabled, and `headerInterceptor` whether the parent logger was
      enabled when the module loaded, which is what installs the request
      interceptor that logs the headers (through that same sub-logger). */
  datatype Environment = Environment(
    send: Transport,
    stringify: Stringify,
    logging: bool,
    headerInterceptor: bool,
    showAuthHeaders: bool)

  /** One invocation: the request built, how the returned promise settles,
      the lines logged and the counter afterwards. */
  datatype Invocation = Invocation(request: Request, outcome: Outcome<Response>, log: seq<LogEntry>, next: nat)

  /** A transport rejection is passed on untouched; a response is decoded. */
  function Settle(e: Endpoint, sent: Outcome<RawResponse>, stringify: Stringify): (r: Outcome<Response>)
    ensures sent.Thrown? ==> r == Thrown(sent.error)
    ensures sent.Ok? ==> r == DecodeResponse(e, sent.value, stringify)
  {
    match sent
    case Thrown(err) => Thrown(err)
    case Ok(raw) => DecodeResponse(e, raw, stringify)
  }

  /** Calling `createCallFunction(service, endpoint)(args)` when the request
      id counter reads `counter`. */
  function Invoke(cf: CallFunction, args: Value, counter: nat, suffix: string, env: Environment): (inv: Invocation)
    ensures inv.request.reqId == counter
    ensures inv.next == counter + 1
    ensures inv.request == BuildRequest(cf.service, cf.endpoint, args, counter, suffix)
    ensures inv.outcome == Settle(cf.endpoint, env.send(inv.request), env.stringify)
    ensures !env.logging ==> inv.log == []
    ensures env.logging ==>
      inv.log == RequestLog(inv.request, env.headerInterceptor, env.showAuthHeaders) + OutcomeLog(inv.outcome)
    ensures !env.headerInterceptor ==> forall i :: 0 <= i < |inv.log| ==> !inv.log[i].RequestHeadersLine?
  {
    var request := BuildRequest(cf.service, cf.endpoint, args, counter, suffix);
    var outcome := Settle(cf.endpoint, env.send(request), env.stringify);
    var log := if env.logging then RequestLog(request, env.headerInterceptor, env.showAuthHeaders) + OutcomeLog(outcome) else [];
    Invocation(request, outcome, log, counter + 1)
  }

  /** Logging is transparent: with or without it the same request goes out,
      the promise settles the same way and the counter moves the same. In
      the source the logging branch only taps the promise and rethrows; in
      the model this holds by construction, because `Invoke` computes the
      outcome before, and apart from, the log. */
  lemma LoggingIsTransparent(cf: CallFunction, args: Value, counter: nat, suffix: string, env: Environment)
    ensures var on := Invoke(cf, args, counter, suffix, env.(logging := true));
            var off := Invoke(cf, args, counter, suffix, env.(logging := false));
            on.request == off.request && on.outcome == off.outcome && on.next == off.next
  {
  }

  /** On a successful response the body is what the return codec produced;
      a rejected body makes the call fail with the `IotsParseError` of those
      very validation errors. */
  lemma InvokeDecodes(cf: CallFunction, args: Value, counter: nat, suffix: string, env: Environment, raw: RawResponse)
    requires env.send(BuildRequest(cf.service, cf.endpoint, args, counter, suffix)) == Ok(raw)
    requires !raw.data.Undefined?
    ensures var inv := Invoke(cf, args, counter, suffix, env);
            var v := cf.endpoint.returnBody.decode(raw.data);
            && (v.Right? ==> inv.outcome.Ok? && inv.outcome.value.data == Data(v.value))
            && (v.Left? ==> inv.outcome.Thrown?)
            && (v.Left? && FormatIotsError.AllRooted(v.errors) ==>
                  inv.outcome.error.ParseFailure? && inv.outcome.error.parse.originalErrors == v.errors)
  {
  }

  /** `reqIdRef`: the process-wide request id counter. */
  class RequestIdCounter {
    var current: nat

    constructor ()
      ensures current == 0
    {
      current := 0;
    }

    /** `reqIdRef.current++`: the id is the value before the increment. */
    method Take() returns (id: nat)
      modifies this
      ensures id == old(current) && current == old(current) + 1
    {
      id := current;
      current := current + 1;
    }
  }

  /** Calling a call function against the shared counter. */
  method CallWith(counter: RequestIdCounter, cf: CallFunction, args: Value, suffix: string, env: Environment)
    returns (inv: Invocation)
    modifies counter
    ensures inv == Invoke(cf, args, old(counter.current), suffix, env)
    ensures counter.current == inv.next
  {
    var reqId := counter.Take();
    inv := Invoke(cf, args, reqId, suffix, env);
  }

  /** A chain of calls made one after another from counter value `counter`. */
  datatype Call = Call(cf: CallFunction, args: Value, suffix: string)

  function RunSequential(calls: seq<Call>, counter: nat, env: Environment): (invs: seq<Invocation>)
    ensures |invs| == |calls|
    ensures forall i :: 0 <= i < |invs| ==> invs[i].request.reqId == counter + i
    ensures |invs| > 0 ==> invs[|invs| - 1].next == counter + |calls|
    ensures RunOf(calls, counter, env, invs)
    decreases |calls|
  {
    if |calls| == 0 then []
    else
      var first := Invoke(calls[0].cf, calls[0].args, counter, calls[0].suffix, env);
      var rest := RunSequential(calls[1..], first.next, env);
      RunOfCons(calls, counter, env, first, rest);
      [first] + rest
  }

  /** Invocation `i` is call `i` made with id `counter + i`. */
  ghost predicate RunOf(calls: seq<Call>, counter: nat, env: Environment, invs: seq<Invocation>)
    requires |invs| == |calls|
  {
    forall i :: 0 <= i < |calls| ==>
      invs[i] == Invoke(calls[i].cf, calls[i].args, counter + i, calls[i].suffix, env)
  }

  lemma RunOfCons(calls: seq<Call>, counter: nat, env: Environment, first: Invocation, rest: seq<Invocation>)
    requires |calls| > 0 && |rest| == |calls| - 1
    requires first == Invoke(calls[0].cf, calls[0].args, counter, calls[0].suffix, env)
    requires RunOf(calls[1..], counter + 1, env, rest)
    ensures RunOf(calls, counter, env, [first] + rest)
  {
    var all := [first] + rest;
    forall i | 0 <= i < |calls|
      ensures all[i] == Invoke(calls[i].cf, calls[i].args, counter + i, calls[i].suffix, env)
    {
      if i > 0 {
        assert calls[i] == calls[1..][i - 1] && all[i] == rest[i - 1];
      }
    }
  }

  /** Request ids of sequential calls strictly increase, hence never repeat. */
  lemma SequentialIdsIncrease(calls: seq<Call>, counter: nat, env: Environment, i: nat, j: nat)
    requires i < j < |calls|
    ensures RunSequential(calls, counter, env)[i].request.reqId < RunSequential(calls, counter, env)[j].request.reqId
  {
  }

  /** Two transactions with different ids get different logger names,
      whatever random suffixes they draw. */
  lemma LoggerNamesDistinct(m: nat, n: nat, s: string, t: string)
    requires m != n
    ensures LoggerName(m, s) != LoggerName(n, t)
  {
    DigitsHaveNoSeparator(m);
    DigitsHaveNoSeparator(n);
    assert LoggerName(m, s) == Text.DecimalString(m) + [LoggerSeparator] + s;
    Text.BeforeSeparator(Text.DecimalString(m), LoggerSeparator, s);
    Text.BeforeSeparator(Text.DecimalString(n), LoggerSeparator, t);
    if LoggerName(m, s) == LoggerName(n, t) {
      Text.DecimalStringInjective(m, n);
    }
  }

  lemma DigitsHaveNoSeparator(n: nat)
    ensures LoggerSeparator !in Text.DecimalString(n)
  {
    var d := Text.DecimalString(n);
    assert forall i :: 0 <= i < |d| ==> d[i] != LoggerSeparator;
  }

  /** The same call, with the body decoded as evidently intended: every
      response body is validated, an absent one included. */
  function InvokeIntended(cf: CallFunction, args: Value, counter: nat, suffix: string, env: Environment): (inv: Invocation)
    ensures inv.request == Invoke(cf, args, counter, suffix, env).request
    ensures inv.next == counter + 1
    ensures forall raw :: env.send(inv.request) == Ok(raw) ==>
      inv.outcome == match Decoding.DecodeWith(cf.endpoint.returnBody, raw.data, env.stringify)
                     case Ok(v) => Ok(Response(raw.status, raw.statusText, raw.headers, Data(v)))
                     case Thrown(err) => Thrown(err)
  {
    var request := BuildRequest(cf.service, cf.endpoint, args, counter, suffix);
    var outcome :=
      match env.send(request)
      case Thrown(err) => Thrown(err)
      case Ok(raw) =>
        match Decoding.DecodeWith(cf.endpoint.returnBody, raw.data, env.stringify)
        case Ok(v) => Ok(Response(raw.status, raw.statusText, raw.headers, Data(v)))
        case Thrown(err) => Thrown(err);
    var log := if env.logging then RequestLog(request, env.headerInterceptor, env.showAuthHeaders) + OutcomeLog(outcome) else [];
    Invocation(request, outcome, log, counter + 1)
  }

  /** The call as written and the intended call agree except on a response
      whose body is `undefined`: there the call as written fulfils with a
      function in place of the body, even when the return codec rejects
      `undefined`. */
  lemma InvokeIntendedAgrees(cf: CallFunction, args: Value, counter: nat, suffix: string, env: Environment)
    ensures var request := BuildRequest(cf.service, cf.endpoint, args, counter, suffix);
            (env.send(request).Thrown? || !env.send(request).value.data.Undefined?) ==>
              InvokeIntended(cf, args, counter, suffix, env) == Invoke(cf, args, counter, suffix, env)
    ensures var request := BuildRequest(cf.service, cf.endpoint, args, counter, suffix);
            env.send(request).Ok? && env.send(request).value.data.Undefined? ==>
              Invoke(cf, args, counter, suffix, env).outcome.Ok? &&
              Invoke(cf, args, counter, suffix, env).outcome.value.data == DecoderFunction(cf.endpoint.returnBody)
  {
  }
}
