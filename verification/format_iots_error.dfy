/** `formatIotsError`: turns io-ts validation errors into flat records with a
    dotted path, the expected type's name and the offending value. */
module FormatIotsError {
  import opened JsValues
  import opened Iots
  import opened Errors
  import Text

  const RootLabel: string := "#root"
  const PathSeparator: char := '.'

  /** `c.key || '#root'`: the empty key is the only falsy string. */
  function Label(key: string): (shown: string)
    ensures |shown| > 0
    ensures key != "" ==> shown == key
    ensures key == "" ==> shown == RootLabel
  {
    if key == "" then RootLabel else key
  }

  function Labels(context: seq<ContextEntry>): (labels: seq<string>)
    ensures |labels| == |context|
    ensures forall i :: 0 <= i < |context| ==> labels[i] == Label(context[i].key)
  {
    seq(|context|, i requires 0 <= i < |context| => Label(context[i].key))
  }

  function JoinPath(context: seq<ContextEntry>): string {
    Text.Join(Labels(context), PathSeparator)
  }

  /** The dotted path can be read back: splitting it at the dots gives one
      label per context entry, in order, with `#root` for every empty key —
      provided no key itself contains a dot. */
  lemma PathRoundTrip(context: seq<ContextEntry>)
    requires |context| > 0
    requires forall i :: 0 <= i < |context| ==> PathSeparator !in context[i].key
    ensures Text.Split(JoinPath(context), PathSeparator) == Labels(context)
  {
    Text.SplitJoin(Labels(context), PathSeparator);
  }

  /** A path built from a non-empty context is never empty. */
  lemma {:induction false} PathNonEmpty(context: seq<ContextEntry>)
    requires |context| > 0
    ensures |JoinPath(context)| > 0
  {
    var labels := Labels(context);
    assert |labels[0]| > 0;
    if |labels| > 1 {
      assert Text.Join(labels, PathSeparator) == labels[0] + [PathSeparator] + Text.Join(labels[1..], PathSeparator);
    }
  }

  /** The message JavaScript gives when `error.context[-1]` is read on an
      empty context. */
  const EmptyContextMessage: string := "Cannot read properties of undefined (reading 'type')"

  /** One error: throws when the context is empty (io-ts never produces one). */
  function FormatOne(e: ValidationError): (r: Outcome<FormattedError>)
    ensures r.Ok? <==> |e.context| > 0
    ensures r.Thrown? ==> r.error == TypeError(EmptyContextMessage)
    ensures r.Ok? ==> WellFormatted(e, r.value)
  {
    if |e.context| == 0 then Thrown(TypeError(EmptyContextMessage))
    else
      Ok(FormattedError(
        JoinPath(e.context),
        e.context[|e.context| - 1].typeName,
        if e.value.Undefined? then ValueIsUndefined else OriginalValue(e.value)))
  }

  /** What a formatted entry says about the error it came from. */
  ghost predicate WellFormatted(e: ValidationError, f: FormattedError) {
    && |e.context| > 0
    && f.path == JoinPath(e.context)
    && f.expectedType == e.context[|e.context| - 1].typeName
    && (e.value.Undefined? <==> f.original == ValueIsUndefined)
    && (f.original.OriginalValue? ==> f.original.value == e.value)
  }

  predicate AllRooted(errors: seq<ValidationError>) {
    forall i :: 0 <= i < |errors| ==> |errors[i].context| > 0
  }

  /** `formatIotsError(errors)`: one entry per error, in order; the mapping
      throws as soon as it meets an error with an empty context. */
  function Format(errors: seq<ValidationError>): (r: Outcome<seq<FormattedError>>)
    ensures r.Ok? <==> AllRooted(errors)
    ensures r.Thrown? ==> r.error == TypeError(EmptyContextMessage)
    ensures r.Ok? ==> |r.value| == |errors|
    ensures r.Ok? ==> forall i :: 0 <= i < |errors| ==> WellFormatted(errors[i], r.value[i])
    decreases |errors|
  {
    if |errors| == 0 then Ok([])
    else
      assert AllRooted(errors) <==> |errors[0].context| > 0 && AllRooted(errors[1..]) by {
        assert forall i :: 1 <= i < |errors| ==> errors[i] == errors[1..][i - 1];
      }
      match FormatOne(errors[0])
      case Thrown(e) => Thrown(e)
      case Ok(head) =>
        match Format(errors[1..])
        case Thrown(e) => Thrown(e)
        case Ok(tail) =>
          var all := [head] + tail;
          assert forall i :: 0 <= i < |errors| ==> WellFormatted(errors[i], all[i]) by {
            forall i | 0 <= i < |errors| ensures WellFormatted(errors[i], all[i]) {
              if i > 0 {
                assert errors[i] == errors[1..][i - 1] && all[i] == tail[i - 1];
              }
            }
          }
          Ok(all)
  }

  /** The error io-ts reports for a rejected top-level value formats as the
      single entry `{ path: "#root", expectedType: <codec name>, … }`. */
  lemma FormatRootFailure(name: string, v: Value)
    ensures Format([RootFailure(name, v)]).Ok?
    ensures Format([RootFailure(name, v)]).value
         == [FormattedError(RootLabel, name, if v.Undefined? then ValueIsUndefined else OriginalValue(v))]
  {
    var e := RootFailure(name, v);
    assert Labels(e.context) == [RootLabel];
  }
}
