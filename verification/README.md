# patman request pipeline, modelled in Dafny

This project models the core of patman, a TypeScript toolkit. You declare an HTTP endpoint once: its method, path, headers, query parameters and io-ts codecs. The toolkit then derives a call function from it. Calling that function does the following:

- it takes a correlation id from a process-wide counter;
- it resolves the endpoint's static-or-computed fields against the call's arguments;
- it builds the request and sends it;
- it decodes the response body with the endpoint's codec, and on failure throws a structured `IotsParseError` with a bounded message;
- it logs the transaction, masking the `Authorization` header.

The model covers both call-function factories. `createCallFunction` is the newer one. The `Patman` class of `src/index.ts` is the older one, modelled with its quirks. Around them the model covers:

- the error formatter and the three copies of the `IotsParseError` constructor;
- the overloaded `decode`;
- `removeUndefinedProps`;
- `censorAuthorizationHeader`;
- `combine`;
- `createEndpoint`;
- the two recovery handlers.

A JavaScript object is its ordered list of entries (`Records`). Lookup takes the first matching key. Assignment overwrites in place or appends. Spread assigns entry by entry. `undefined` in a value slot is `Option.None`. A thrown exception or rejected promise is `Outcome.Thrown`. The three `IotsParseError` classes are told apart by an `ErrorClass` tag, because `instanceof` only recognises its own class.

Foreign collaborators become parameters:

- the HTTP transport;
- io-ts codecs, modelled as a name plus a decoding function;
- `JSON.stringify`, a `Stringify` function;
- the random logger suffix, a string;
- the `AxiosResponse(body)` codec factory of the older variant.

The model follows the code as written, including its quirks. Where a quirk looks unintended, a corrected definition sits beside the as-written one, with the intended property proved about it (see Findings).

## Model

| member | source | states |
|---|---|---|
| Crop.CropEnd | src/IotsParseError.ts:4-5 | a string of at most n characters is returned unchanged; a longer one becomes its first n characters followed by `…`, so the result has n+1 characters and never more |
| Crop.CropEndIdempotent | src/index.ts:37-38 | cropping the end twice at the same length equals cropping it once |
| Crop.CropStart | src/IotsParseError.ts:6-7 | as written: a string of at most n characters is unchanged; a longer one becomes `…` followed by everything from index n, so it has length |s|-n+1 and the first n characters are dropped |
| Crop.CropStartShowsSuffix | src/iots-utils.ts:26-27 | what `cropStringStart` shows of a long string is a true suffix of it |
| Crop.CropStartUnbounded | src/index.ts:39-40 | the start-crop has no length bound: a string of 2n+2 characters comes back with n+3 of them |
| Crop.CropStartKeepsTooLittle | src/IotsParseError.ts:18 | a 51-character path shown through the start-crop at 50 keeps only its last character |
| Crop.CropStartKeepingTail | src/IotsParseError.ts:6-7 | corrected start-crop: identity on short strings, otherwise `…` plus the last n characters, so the result never exceeds n+1 characters |
| Crop.CropStartKeepingTailIdempotent | src/IotsParseError.ts:6-7 | the corrected start-crop applied twice equals applying it once |
| Crop.CropStartVersionsAgree | src/IotsParseError.ts:6-7 | the as-written and corrected start-crops agree on strings that need no crop; on longer strings their lengths match only when the string has exactly 2n characters |
| FormatIotsError.Label | src/formatIotsError.ts:6 | a non-empty context key is shown as itself, and the empty (falsy) key as `#root`; a label is never empty |
| FormatIotsError.PathRoundTrip | src/formatIotsError.ts:6 | if no key contains a dot, splitting the dotted path at `.` gives back one label per context entry, in order |
| FormatIotsError.PathNonEmpty | src/formatIotsError.ts:6 | the path built from a non-empty context is never empty |
| FormatIotsError.FormatOne | src/formatIotsError.ts:4-13 | one error formats iff its context is non-empty, and otherwise the JavaScript `TypeError` is thrown; the formatted entry has the dotted path, the last entry's type name, and either the undefined flag or the original value |
| FormatIotsError.Format | src/formatIotsError.ts:3-14 | the whole list formats iff every context is non-empty; then there is exactly one entry per error, in order, each well formatted from its own error |
| FormatIotsError.FormatRootFailure | src/iots-utils.ts:3-14 | a rejected top-level value formats as the single entry `#root` / codec name / value |
| ParseErrors.Display | src/IotsParseError.ts:16-23 | a display object's `path` is the start-cropped path and its `expectedType` the end-cropped type; `originalValue` holds the shown value; the undefined flag survives the spread exactly when the error carried it |
| ParseErrors.DisplayKeys | src/IotsParseError.ts:16-23 | the key order of a display object is the order its JSON text lists the keys in: the flag or the value first, then `path` and `expectedType` |
| ParseErrors.DisplayEntry | src/IotsParseError.ts:17-22 | an entry's `originalValue` is the end-crop of the value's JSON text when the value is defined, and `undefined` otherwise |
| ParseErrors.Rendered | src/IotsParseError.ts:15-26 | the text the message is cut from is the two-space JSON rendering of an array holding exactly one display entry per formatted error, in order |
| ParseErrors.Make | src/IotsParseError.ts:11-29 | the constructor succeeds iff formatting does; it keeps `originalErrors` as given and `formattedErrors` untruncated; the message is the rendered text when that has at most 200 characters, otherwise its first 200 characters plus `…`, so it never exceeds 201 |
| ParseErrors.CropRaw | src/index.ts:37-38 | a string is end-cropped to 50 characters plus `…`; `null` and `undefined` throw the `TypeError` for reading `length`; numbers and booleans have no `length` and come back unchanged; an array, or an object whose `length` property is a number, throws the `substring` `TypeError` iff that length exceeds 50 and otherwise comes back unchanged |
| ParseErrors.LegacyDisplayEntry | src/index.ts:46-52 | a legacy display entry always exists for an error carrying the undefined flag, and otherwise exists iff its raw value can be cropped, the crop's `TypeError` being rethrown; the entry holds the start-cropped `path`, the end-cropped `expectedType`, and as `originalValue` the raw crop of the value or `undefined`, in the key order of the display object |
| ParseErrors.LegacyDisplay | src/index.ts:45-55 | the display list is built iff every entry can be displayed, and then holds, one per formatted error and in order, exactly the legacy display entries; otherwise the mapping throws a `TypeError` |
| ParseErrors.DisplayableIffCroppable | src/index.ts:44-55 | a formatted error list can be displayed iff every offending value of the original errors can be cropped raw |
| ParseErrors.MakeLegacy | src/index.ts:41-58 | the legacy constructor succeeds iff every context is non-empty and every offending value can be cropped raw; otherwise it throws a `TypeError`; class, errors and formatted errors are kept; the message is the two-space JSON of the legacy display list when that has at most 200 characters, otherwise its first 200 characters plus `…` |
| ParseErrors.LegacyNullValueThrows | src/index.ts:50-51 | a `null` rejected where a string was expected makes the legacy constructor throw a `TypeError`, while the constructor of src/IotsParseError.ts builds its error |
| ParseErrors.LegacyAgreesOnStructure | src/index.ts:41-58 | for the class of src/index.ts and of src/iots-utils.ts alike, whenever the legacy constructor succeeds, the current one succeeds too and stores the same original and formatted errors |
| UndefinedProps.RemoveUndefined | src/removeUndefinedProps.ts:1-2 | the output holds an entry (k, v) iff the input holds k with the defined value v, and never has more entries than the input |
| UndefinedProps.RemoveUndefinedAppend | src/removeUndefinedProps.ts:2 | dropping undefined entries distributes over concatenation, so the kept entries keep their relative order |
| UndefinedProps.RemoveUndefinedSingle | src/removeUndefinedProps.ts:2 | a single entry is kept, with its value unwrapped, iff that value is defined |
| UndefinedProps.RemoveUndefinedKeys | src/removeUndefinedProps.ts:2 | the output has key k iff the input has k with a defined value |
| UndefinedProps.RemoveUndefinedGet | src/removeUndefinedProps.ts:2 | on a well-formed object the result is well formed, and looking k up gives the input's value when it is defined and nothing otherwise |
| UndefinedProps.RemoveUndefinedOfDefined | src/index.ts:20-21 | an object with no undefined value passes through unchanged |
| UndefinedProps.RemoveUndefinedIdempotent | src/removeUndefinedProps.ts:2 | removing undefined values twice equals removing them once |
| Censor.KeptLength | src/censorAuthorizationHeader.ts:8-9 | with a space, the kept prefix runs through the second character after the first space, or is the whole value when that is shorter; without one it is the first two characters, or the whole value when shorter |
| Censor.CensorValue | src/censorAuthorizationHeader.ts:7-9 | the masked value has the original's length, equals it on the kept prefix, and is `*` everywhere after |
| Censor.CensorValueIdempotent | src/censorAuthorizationHeader.ts:8-9 | masking an already-masked value changes nothing |
| Censor.CensorHeaders | src/censorAuthorizationHeader.ts:3-12 | headers without `Authorization` come back unchanged; otherwise only that header's value is masked, and the key list and every other header stay as they were |
| Censor.CensorHeadersIdempotent | src/censorAuthorizationHeader.ts:3-12 | censoring censored headers changes nothing |
| Censor.CensorBearerExample | src/censorAuthorizationHeader.ts:8-9 | `Bearer abcdef` is logged as `Bearer ab****` |
| Decoding.DecodeWith | src/decode.ts:4-10 | `Right` returns the decoded value; `Left` throws, and when every context is rooted it throws an `IotsParseError` of this class built from exactly those errors |
| Decoding.Decode | src/decode.ts:12-17 | as written: the curried decoder comes back iff the value is `undefined`, and it is the decoder for the same codec |
| Decoding.DecodeDefinedIsCurriedApplication | src/decode.ts:16 | for a defined value, `decode(t, x)` equals `decode(t)(x)` |
| Decoding.DecodeUndefinedSkipsValidation | src/decode.ts:15 | `t.string` rejects `undefined` when decoding, yet `decode(t.string, undefined)` returns the curried decoder and throws nothing |
| Decoding.DecodeStrict | src/decode.ts:12-17 | corrected overload: the curried decoder only when the argument is absent |
| Decoding.DecodeStrictDecodes | src/decode.ts:12-17 | the corrected overload decodes every supplied value, `undefined` included, and agrees with the as-written `decode` whenever the value is defined or absent |
| Decoding.DecodeUnknownIsIdentity | src/decode.ts:7-8 | decoding with `t.unknown` returns the value unchanged |
| Decoding.DecodeVoid | src/decode.ts:7-9 | decoding with `t.void` succeeds iff the value is `undefined`; any other value throws an `IotsParseError` whose one formatted error is `#root` / `void` / the value |
| Decoding.DecodeLegacy | src/iots-utils.ts:16-22 | `Right` returns the value; `Left` throws exactly the legacy constructor's `IotsParseError` of the variant's class when that constructor succeeds, and otherwise rethrows the constructor's own `TypeError` |
| Decoding.DecodeLegacyNullThrowsTypeError | src/index.ts:74-80 | the legacy decoder turns a rejected `null` into a `TypeError`, where src/decode.ts throws an `IotsParseError` |
| Endpoints.ResolveOptional | src/createCallFunction.ts:39-40 | an absent field resolves to `undefined`, a static one to itself, and a computed one to the function applied to the arguments |
| Endpoints.CreateEndpoint | src/createEndpoint.ts:5-12 | the options are copied unchanged; `$args` is the given codec or else `t.void`, and `$returnBody` the given codec or else `t.unknown` |
| Endpoints.CreateEndpointKeepsOptions | src/createEndpoint.ts:9 | the method, path, headers and params can be read back off the endpoint unchanged |
| Endpoints.CreateEndpointDefaults | src/createEndpoint.ts:7-11 | with no types, the endpoint accepts only `undefined` arguments and passes every body through unchanged; an empty types object behaves like none |
| CallFunctions.CreateCallFunction | src/createCallFunction.ts:32-33 | for any arguments, counter, suffix and environment, the call function sends the request built from the bound service and endpoint and settles it against that endpoint's return codec |
| CallFunctions.LoggerName | src/createCallFunction.ts:36 | the sub-logger name starts with the decimal request id followed by `.` |
| CallFunctions.MergeHeadersGet | src/createCallFunction.ts:44-47 | merged headers are well formed; an endpoint header wins on a shared key, a service-only key keeps the service's value, and a key neither sets is absent |
| CallFunctions.MergeHeaders | src/createCallFunction.ts:44-47 | the merged headers are a well-formed object whose keys are exactly those the service or the endpoint sets |
| CallFunctions.MergeWithoutEndpointHeaders | src/createCallFunction.ts:44-47 | without endpoint headers, the service headers go out exactly as they are |
| CallFunctions.MergeHeadersExample | src/createCallFunction.ts:44-47 | `{A:"1",B:"2"}` merged with `{B:"3",C:"4"}` is `{A:"1",B:"3",C:"4"}`, in that order |
| CallFunctions.BuildRequest | src/createCallFunction.ts:35-59 | the request carries this request id and the endpoint's method unchanged; its URL is the base URL immediately followed by the resolved path; params and headers are resolved and merged as above; the logger name uses the same id |
| CallFunctions.UrlIsBaseUrlThenPath | src/createCallFunction.ts:41-43 | the URL is `baseUrl + path` for a static path and `baseUrl + path(args)` for a computed one, with no separator inserted |
| CallFunctions.SerializerInput | src/createCallFunction.ts:54-56 | the query serializer receives exactly the defined parameters, and receives something iff the request has params |
| CallFunctions.DecodeResponse | src/createCallFunction.ts:63-65 | an accepted body is replaced by the decoded value; a rejected body makes the call fail with the decoder's error; an `undefined` body becomes the curried decoder |
| CallFunctions.ErrorLog | src/createCallFunction.ts:76-79 | a failure is logged on one line iff it is an axios error or an `IotsParseError` of src/IotsParseError.ts; the line is `AxiosError` or `Error` (the name an `IotsParseError` inherits) with the error's own message |
| CallFunctions.RequestLog | src/createCallFunction.ts:15-28 | a request logs its method and URL; then, only when the header interceptor is installed, its headers: as sent when `SHOW_AUTH_HEADERS` is set, otherwise with the `Authorization` value censored |
| CallFunctions.OutcomeLog | src/createCallFunction.ts:70-79 | a response logs its status line, its headers and its body, in that order; a failure logs exactly its error line, if any |
| CallFunctions.Settle | src/createCallFunction.ts:63-65 | a transport rejection passes through unchanged, and a response goes on to be decoded |
| CallFunctions.Invoke | src/createCallFunction.ts:32-82 | a call takes as request id the counter's prior value and leaves the counter exactly one higher; it sends the built request and settles as `Settle` says; nothing is logged when the transaction's sub-logger is off; when it is on, the log is the request lines followed by the outcome lines, and no headers line appears unless the interceptor is installed |
| CallFunctions.LoggingIsTransparent | src/createCallFunction.ts:67-81 | with logging on or off, the same request goes out, the call settles the same way and the counter ends the same |
| CallFunctions.InvokeDecodes | src/createCallFunction.ts:63-65 | on a response with a defined body, the call fulfils with the codec's output when the codec accepts it, and otherwise fails with the `IotsParseError` of exactly the codec's errors |
| CallFunctions.RequestIdCounter.Take | src/createCallFunction.ts:30-35 | taking an id returns the counter's value before the increment and leaves the counter one higher |
| CallFunctions.CallWith | src/createCallFunction.ts:30-35 | calling against the shared counter uses its current value as the id and leaves it one higher |
| CallFunctions.RunSequential | src/createCallFunction.ts:35 | in calls made one after another, invocation i is exactly call i made with id counter+i, and the counter ends at counter+n |
| CallFunctions.SequentialIdsIncrease | src/createCallFunction.ts:30-35 | ids of sequential calls strictly increase, so they never repeat |
| CallFunctions.LoggerNamesDistinct | src/createCallFunction.ts:35-36 | transactions with different ids get different logger names, whatever random suffixes they draw |
| CallFunctions.InvokeIntended | src/createCallFunction.ts:63-65 | corrected call: every response body, an `undefined` one included, is validated by the return codec |
| CallFunctions.InvokeIntendedAgrees | src/createCallFunction.ts:65 | the as-written and corrected calls agree unless the body is `undefined`; then the as-written call fulfils with the curried decoder in place of the body |
| Combine.CombineAll | src/combine.ts:14-28 | the outer keys are exactly the service names and each row's keys exactly the endpoint names; entry [i][j] is the call function of service i and endpoint j |
| Combine.CombineLookup | src/combine.ts:24 | `combine(S, E)[s][e]` is `createCallFunction(S[s], E[e])` for declared names, and is absent when either name is undeclared |
| Combine.CombineSize | src/combine.ts:20-27 | the matrix holds exactly |S|×|E| call functions |
| Patman.Select | src/index.ts:159-161 | `$` takes the first key of its argument as the service name and that key's value as the endpoint name; on an empty argument both lookups are by the key `undefined` |
| Patman.SelectIgnoresLaterKeys | src/index.ts:160 | keys after the first have no effect on what `$` picks |
| Patman.StaticHeaders | src/index.ts:126 | static endpoint headers are spread in; absent or function-valued headers contribute nothing |
| Patman.BuildLegacyRequest | src/index.ts:123-132 | the legacy request carries the global id and the method; its URL is base URL plus the path; its headers are the service headers overridden by the static endpoint headers; params are the object itself or `params(args)` |
| Patman.ComputedHeadersIgnored | src/index.ts:126 | function-valued endpoint headers are never invoked: the request carries exactly the service headers |
| Patman.StaticHeadersWin | src/index.ts:126 | a static endpoint header wins over the service's value on a shared key |
| Patman.LegacyInvoke | src/index.ts:120-157 | a missing endpoint or service throws synchronously, before any request exists and without moving the counter; otherwise the legacy request built from the service, the endpoint, the arguments and the counter goes out and the counter moves by one; a transport rejection passes through unchanged, and a response is decoded against `AxiosResponse(e.body ?? t.unknown)` by the legacy decoder |
| Patman.LegacyDecodeErrors | src/index.ts:136 | the whole response is decoded against `AxiosResponse(e.body ?? t.unknown)`; on acceptance the decoded response is returned, and a failure is a `TypeError` or a parse error of the class of src/index.ts |
| Patman.UndeclaredPairKeepsCounter | src/index.ts:120-131 | calling a pair picked with `$` whose service or endpoint is undeclared, `$({})` included, throws synchronously and leaves the counter unchanged |
| Recovery.HandleIotsParseError | src/handleIotsParseError.ts:3-8 | the fallback is returned iff the error is an `IotsParseError` of src/IotsParseError.ts, and it is exactly the value supplied; every other error is rethrown unchanged |
| Recovery.HandleAxios404Response | src/handleAxios404Response.ts:3-9 | the fallback is returned iff the error is an axios error with response status 404; every other error, including an axios error with no response, is rethrown unchanged |
| Recovery.ChainedHandlers | src/handleAxios404Response.ts:6-8 | chaining both handlers leaves a fulfilment alone, recovers a parse failure or a 404 with the corresponding fallback, and rethrows anything else unchanged |
| Recovery.LegacyParseErrorsRethrown | src/handleIotsParseError.ts:6 | a parse error of the classes in src/index.ts or src/iots-utils.ts is rethrown, not recovered |

## Left out

- HTTP transport. `axios.request` and `axios.getUri` are not modelled; of the request interceptor only the headers line it logs is modelled. The transport is a function parameter. The logged request line carries the URL without the query string that `getUri` would append.
- Query-string serialisation. `qs.stringify` with `arrayFormat: 'repeat'` is foreign. Only its input, the parameters with undefined values removed, is modelled.
- The io-ts engine. A codec is its name plus its decoding function. The `AxiosResponse(body)` codec factory of src/index.ts is a parameter of the legacy environment.
- `JSON.stringify`. It is a parameter. `Value` has no functions, symbols, BigInts or cycles, so the model never renders `undefined` and never makes stringify throw.
- Logging output. The debug module, `logger.extend` and the format strings are not modelled. The newer call function's log is a list of entries. Two switches are modelled for the newer call function: the transaction's sub-logger, which governs the request, response and error lines, and whether the parent logger was enabled when the module loaded, which installs the interceptor that logs the headers. The older variant's `requestLogger` lines (its interceptor and its request line) and its `responseLogger` lines are not modelled; its logging branch likewise passes outcomes through.
- `createRandomChars`. It uses `Math.random`, so the logger suffix is a string parameter.
- Asynchrony. Each call runs to completion before the next starts, and a promise is an `Outcome`. Computed path, header and param functions are total. A function that throws or rejects after the id was taken is not modelled.
- Astral characters. A `char` is a Unicode scalar value, while JavaScript's `length` and `substring` count UTF-16 code units. On text with characters outside the Basic Multilingual Plane the model's lengths are shorter, and it never splits a surrogate pair where a crop in JavaScript could.
- Non-integer numbers. `Value` numbers and the `PNum` parameter values of `Endpoints.Prim` are integers. A fractional number, such as an object `length` of 50.5, is not modelled.
- Counter width. Request ids are unbounded naturals. JavaScript numbers stay exact up to 2^53.
- Header names. `AxiosHeaders` matches them case-insensitively; the model uses a plain map. `hasAuthorization` is read as "the key is present". Axios's default headers, which the interceptor would also log, are not modelled.
- Object key order. JavaScript lists integer-like keys first, in ascending order. Records keep insertion order for every key.
- Prototype lookups. `$` is not modelled on names inherited from `Object.prototype`, such as `toString`.
- ParseErrors.CropRaw: only a numeric `length` property is compared with 50. A `length` that is a string or an array which JavaScript would convert to a number above 50 is treated as fitting, because string-to-number conversion is not modelled.
- Patman.LegacyDecodeErrors: it states the kinds of error a rejection can be. It does not say which one occurs, because the response codec is a parameter.
- Other files. src/createAuthHeader.ts (UTF-8 plus base64), src/tap.ts, src/AxiosRequestEnhanced.ts, the `CallerOf`/`CallersOf` type machinery, postBuild.js and example/index.ts are not part of this model.

## Findings

| source | as written | input that shows it | evidently intended | confidence | as-written member | corrected member |
|---|---|---|---|---|---|---|
| src/IotsParseError.ts:6-7 | `'…' + string.substring(maxLength)` keeps everything after the first 50 characters | a 51-character path is shown as `…` plus its last character; a path of 102 characters is shown with 53 | keep the last 50 characters, so the shown path is bounded like the other cropped fields | medium, not executed | Crop.CropStartKeepsTooLittle | Crop.CropStartKeepingTail |
| src/index.ts:50-51 | `cropStringEnd(50)` is applied to the raw `originalValue` rather than to its JSON text | `null` rejected where a string is expected: `null.length` throws a `TypeError` inside the constructor | crop the JSON text, as src/IotsParseError.ts:21 does | high, not executed | ParseErrors.LegacyNullValueThrows | ParseErrors.Make |
| src/decode.ts:15 | the one-argument form is chosen by `typeof x === 'undefined'` | `decode(t.string, undefined)` returns a function and throws nothing | choose the curried form only when the argument is absent | high, not executed | Decoding.DecodeUndefinedSkipsValidation | Decoding.DecodeStrict |
| src/createCallFunction.ts:65 | `response.data = decode(endpoint.$returnBody, response.data)` goes through that overload | a response whose `data` is `undefined`: the call fulfils with a function as its body, even if the codec rejects `undefined` | validate every body | high, not executed | CallFunctions.InvokeIntendedAgrees | CallFunctions.InvokeIntended |
