/** The endpoint data model of src/Endpoint.ts and its factory
    `createEndpoint`. */
module Endpoints {
  import opened Wrappers
  import opened Records
  import opened JsValues
  import opened Iots

  /** A field that is either given outright or computed from the call's
      arguments (`string | ((args) => PromiseMaybe<string>)`); awaiting the
      computed value is plain application. */
  datatype Spec<T> = Static(value: T) | Computed(compute: Value -> T)
  {
    /** The value the field takes for these arguments. */
    function Resolve(args: Value): T {
      match this
      case Static(v) => v
      case Computed(f) => f(args)
    }
  }

  /** An optional static-or-computed field: `undefined` when absent, the
      value itself when static, the function applied to the arguments when
      computed. */
  function ResolveOptional<T>(spec: Option<Spec<T>>, args: Value): (r: Option<T>)
    ensures spec.None? ==> r.None?
    ensures spec.Some? && spec.value.Static? ==> r == Some(spec.value.value)
    ensures spec.Some? && spec.value.Computed? ==> r == Some(spec.value.compute(args))
  {
    match spec
    case None => None
    case Some(s) => Some(s.Resolve(args))
  }

  /** `string | number | boolean`; a slot that may also be `undefined` is an
      `Option<Prim>`. Numbers are integers here: nothing computes with them. */
  datatype Prim = PStr(s: string) | PNum(n: int) | PBool(b: bool)

  /** A parameter value: one scalar or an array of possibly-undefined
      scalars. A whole value that is `undefined` is `None` in `Params`. */
  datatype ParamValue = Scalar(scalar: Prim) | List(items: seq<Option<Prim>>)

  type Params = Record<Option<ParamValue>>
  type Headers = Record<string>

  /** `Endpoint<ARGS, BODY>`: both codecs are always present; `headers` and
      `params` are optional. */
  datatype Endpoint = Endpoint(
    args: Codec,
    returnBody: Codec,
    httpMethod: string,
    path: Spec<string>,
    headers: Option<Spec<Headers>>,
    params: Option<Spec<Params>>)

  /** The first argument of `createEndpoint`: an endpoint without its codecs. */
  datatype EndpointOptions = EndpointOptions(
    httpMethod: string,
    path: Spec<string>,
    headers: Option<Spec<Headers>>,
    params: Option<Spec<Params>>)

  /** The optional second argument `{ args?, returnBody? }`. */
  datatype Types = Types(args: Option<Codec>, returnBody: Option<Codec>)

  /** `createEndpoint(options, types?)`: the options copied as they are, the
      argument codec defaulting to `t.void` and the body codec to
      `t.unknown`. */
  function CreateEndpoint(options: EndpointOptions, types: Option<Types>): (e: Endpoint)
    ensures e.httpMethod == options.httpMethod && e.path == options.path
    ensures e.headers == options.headers && e.params == options.params
    ensures types.Some? && types.value.args.Some? ==> e.args == types.value.args.value
    ensures types.None? || types.value.args.None? ==> e.args == VoidCodec
    ensures types.Some? && types.value.returnBody.Some? ==> e.returnBody == types.value.returnBody.value
    ensures types.None? || types.value.returnBody.None? ==> e.returnBody == UnknownCodec
  {
    var t := types.GetOr(Types(None, None));
    Endpoint(t.args.GetOr(VoidCodec), t.returnBody.GetOr(UnknownCodec),
             options.httpMethod, options.path, options.headers, options.params)
  }

  /** The options can be read back off the endpoint unchanged. */
  function OptionsOf(e: Endpoint): EndpointOptions {
    EndpointOptions(e.httpMethod, e.path, e.headers, e.params)
  }

  lemma CreateEndpointKeepsOptions(options: EndpointOptions, types: Option<Types>)
    ensures OptionsOf(CreateEndpoint(options, types)) == options
  {
  }

  /** With no types, an endpoint accepts only `undefined` arguments and
      passes every response body through untouched. */
  lemma CreateEndpointDefaults(options: EndpointOptions, x: Value)
    ensures CreateEndpoint(options, None).args.decode(x).Right? <==> x.Undefined?
    ensures CreateEndpoint(options, None).returnBody.decode(x) == Right(x)
    ensures CreateEndpoint(options, Some(Types(None, None))) == CreateEndpoint(options, None)
  {
  }
}
