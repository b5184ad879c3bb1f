/** The `IotsParseError` constructors: the full structured error list is kept
    as is, and a bounded display message is rendered from a cropped copy. */
module ParseErrors {
  import opened Wrappers
  import opened Records
  import opened JsValues
  import opened Iots
  import opened Errors
  import opened Crop
  import FormatIotsError

  /** Display crop length for `path`, `expectedType` and `originalValue`. */
  const FieldCrop: nat := 50
  /** Cap on the rendered message, before the trailing ellipsis. */
  const MessageCap: nat := 200
  /** `JSON.stringify(x, null, 2)` for the message; `JSON.stringify(x)` for values. */
  const MessageIndent: nat := 2
  const ValueIndent: nat := 0

  /** `{ ...error }` without `path` and `expectedType`: the flag or the value. */
  function RestOf(f: FormattedError): Record<Value> {
    match f.original
    case ValueIsUndefined => [("originalValueIsUndefined", Bool(true))]
    case OriginalValue(v) => [("originalValue", v)]
  }

  /** The display object of one formatted error: the flag or the value is
      spread in first, then `path`, `expectedType` and `originalValue` are
      added or overwritten, in that order. */
  function Display(f: FormattedError, shown: Value): (fields: Record<Value>)
    ensures Get(fields, "path") == Some(Str(CropStart(FieldCrop, f.path)))
    ensures Get(fields, "expectedType") == Some(Str(CropEnd(FieldCrop, f.expectedType)))
    ensures Get(fields, "originalValue") == Some(shown)
    ensures Get(fields, "originalValueIsUndefined").Some? <==> f.original.ValueIsUndefined?
  {
    var rest := RestOf(f);
    var withPath := Assign(rest, "path", Str(CropStart(FieldCrop, f.path)));
    var withType := Assign(withPath, "expectedType", Str(CropEnd(FieldCrop, f.expectedType)));
    Assign(withType, "originalValue", shown)
  }

  /** The key order of a display object, which is the order its JSON text
      lists them in. */
  lemma DisplayKeys(f: FormattedError, shown: Value)
    ensures f.original.OriginalValue? ==> Keys(Display(f, shown)) == ["originalValue", "path", "expectedType"]
    ensures f.original.ValueIsUndefined? ==>
      Keys(Display(f, shown)) == ["originalValueIsUndefined", "path", "expectedType", "originalValue"]
  {
    var rest := RestOf(f);
    assert Keys(rest) == [rest[0].0];
    var path := Str(CropStart(FieldCrop, f.path));
    var expectedType := Str(CropEnd(FieldCrop, f.expectedType));
    if f.original.OriginalValue? {
      ValueFirstKeys(rest, path, expectedType, shown);
    } else {
      FlagFirstKeys(rest, path, expectedType, shown);
    }
  }

  /** The three assignments of a display object after spreading `{ originalValue }`. */
  lemma ValueFirstKeys<V>(rest: Record<V>, path: V, expectedType: V, shown: V)
    requires Keys(rest) == ["originalValue"]
    ensures Keys(Assign(Assign(Assign(rest, "path", path), "expectedType", expectedType), "originalValue", shown))
         == ["originalValue", "path", "expectedType"]
  {
    var withPath := Assign(rest, "path", path);
    assert "path" !in Keys(rest);
    assert Keys(withPath) == ["originalValue", "path"];
    var withType := Assign(withPath, "expectedType", expectedType);
    assert "expectedType" !in Keys(withPath);
    assert Keys(withType) == ["originalValue", "path", "expectedType"];
    assert "originalValue" in Keys(withType);
  }

  /** The three assignments of a display object after spreading
      `{ originalValueIsUndefined }`. */
  lemma FlagFirstKeys<V>(rest: Record<V>, path: V, expectedType: V, shown: V)
    requires Keys(rest) == ["originalValueIsUndefined"]
    ensures Keys(Assign(Assign(Assign(rest, "path", path), "expectedType", expectedType), "originalValue", shown))
         == ["originalValueIsUndefined", "path", "expectedType", "originalValue"]
  {
    var withPath := Assign(rest, "path", path);
    assert "path" !in Keys(rest);
    assert Keys(withPath) == ["originalValueIsUndefined", "path"];
    var withType := Assign(withPath, "expectedType", expectedType);
    assert "expectedType" !in Keys(withPath);
    assert Keys(withType) == ["originalValueIsUndefined", "path", "expectedType"];
    assert "originalValue" !in Keys(withType);
    assert Keys(withType) + ["originalValue"] == ["originalValueIsUndefined", "path", "expectedType", "originalValue"];
  }

  /** The display entry of src/IotsParseError.ts: the value is JSON-encoded
      before it is cropped, and left `undefined` (so dropped from the JSON
      text) when the error carries the flag instead. */
  function DisplayEntry(f: FormattedError, stringify: Stringify): (v: Value)
    ensures v.Obj?
    ensures Get(v.fields, "path") == Some(Str(CropStart(FieldCrop, f.path)))
    ensures Get(v.fields, "expectedType") == Some(Str(CropEnd(FieldCrop, f.expectedType)))
    ensures f.original.OriginalValue? ==>
      Get(v.fields, "originalValue") == Some(Str(CropEnd(FieldCrop, stringify(f.original.value, ValueIndent))))
    ensures f.original.ValueIsUndefined? ==> Get(v.fields, "originalValue") == Some(Undefined)
  {
    var shown :=
      if f.original.OriginalValue?
      then Str(CropEnd(FieldCrop, stringify(f.original.value, ValueIndent)))
      else Undefined;
    Obj(Display(f, shown))
  }

  /** The text the message is cut from: the two-space JSON rendering of an
      array holding exactly one display entry per formatted error, in order. */
  function Rendered(formatted: seq<FormattedError>, stringify: Stringify): (text: string)
    ensures forall entries: seq<Value> ::
      && |entries| == |formatted|
      && (forall i :: 0 <= i < |formatted| ==> entries[i] == DisplayEntry(formatted[i], stringify))
      ==> text == stringify(Arr(entries), MessageIndent)
  {
    var shown := seq(|formatted|, i requires 0 <= i < |formatted| => DisplayEntry(formatted[i], stringify));
    forall entries: seq<Value> |
      && |entries| == |formatted|
      && (forall i :: 0 <= i < |formatted| ==> entries[i] == DisplayEntry(formatted[i], stringify))
      ensures entries == shown
    {
      assert forall i :: 0 <= i < |entries| ==> entries[i] == shown[i];
    }
    stringify(Arr(shown), MessageIndent)
  }

  /** `new IotsParseError(errors)` from src/IotsParseError.ts. It throws only
      where `formatIotsError` does, on an error with an empty context. */
  function Make(errors: seq<ValidationError>, stringify: Stringify): (r: Outcome<IotsParseError>)
    ensures r.Ok? <==> FormatIotsError.AllRooted(errors)
    ensures r.Thrown? ==> r == Thrown(TypeError(FormatIotsError.EmptyContextMessage))
    ensures r.Ok? ==> r.value.cls == ModuleErrorClass
    ensures r.Ok? ==> r.value.originalErrors == errors
    ensures r.Ok? ==> r.value.formattedErrors == FormatIotsError.Format(errors).value
    ensures r.Ok? ==> |r.value.message| <= MessageCap + 1
    ensures r.Ok? ==>
      var text := Rendered(r.value.formattedErrors, stringify);
      && (|text| <= MessageCap ==> r.value.message == text)
      && (|text| > MessageCap ==> r.value.message == text[..MessageCap] + [Ellipsis])
  {
    match FormatIotsError.Format(errors)
    case Thrown(e) => Thrown(e)
    case Ok(formatted) =>
      Ok(IotsParseError(ModuleErrorClass, errors, formatted, CropEnd(MessageCap, Rendered(formatted, stringify))))
  }

  /** The message JavaScript gives for the failing member access or call. */
  const NotAStringMessage: string := "string.substring is not a function"
  const NullLengthMessage: string := "Cannot read properties of null (reading 'length')"
  const UndefinedLengthMessage: string := "Cannot read properties of undefined (reading 'length')"

  /** `cropStringEnd(50)(originalValue)` as src/index.ts and src/iots-utils.ts
      apply it: to the raw value, not to its JSON text. A string is cropped;
      `null` and `undefined` have no `length`; an array (or an object with a
      numeric `length`) longer than 50 has no `substring`; every other value
      has no `length` and comes back unchanged. */
  function CropRaw(v: Value): (r: Outcome<Value>)
    ensures v.Str? ==> r == Ok(Str(CropEnd(FieldCrop, v.s)))
    ensures v.Null? ==> r == Thrown(TypeError(NullLengthMessage))
    ensures v.Undefined? ==> r == Thrown(TypeError(UndefinedLengthMessage))
    ensures v.Num? || v.Bool? ==> r == Ok(v)
    ensures v.Arr? ==> (r.Thrown? <==> |v.items| > FieldCrop)
    ensures v.Obj? ==> (r.Thrown? <==> LongLength(v.fields))
    ensures (v.Arr? || v.Obj?) && r.Thrown? ==> r.error == TypeError(NotAStringMessage)
    ensures r.Ok? && !v.Str? ==> r.value == v
    ensures r.Thrown? ==> r.error.TypeError?
  {
    match v
    case Str(s) => Ok(Str(CropEnd(FieldCrop, s)))
    case Null => Thrown(TypeError(NullLengthMessage))
    case Undefined => Thrown(TypeError(UndefinedLengthMessage))
    case Arr(items) => if |items| > FieldCrop then Thrown(TypeError(NotAStringMessage)) else Ok(v)
    case Obj(fields) => if LongLength(fields) then Thrown(TypeError(NotAStringMessage)) else Ok(v)
    case _ => Ok(v)
  }

  /** An object whose own `length` property is a number above the crop length. */
  predicate LongLength(fields: Record<Value>) {
    var length := Get(fields, "length");
    length.Some? && length.value.Num? && length.value.n > FieldCrop
  }

  /** The display entry of the legacy variants. */
  function LegacyDisplayEntry(f: FormattedError): (r: Outcome<Value>)
    ensures f.original.ValueIsUndefined? ==> r.Ok?
    ensures f.original.OriginalValue? ==> (r.Ok? <==> CropRaw(f.original.value).Ok?)
    ensures f.original.OriginalValue? && r.Thrown? ==> r == Thrown(CropRaw(f.original.value).error)
    ensures r.Ok? ==> r.value.Obj?
    ensures r.Ok? ==> Get(r.value.fields, "path") == Some(Str(CropStart(FieldCrop, f.path)))
    ensures r.Ok? ==> Get(r.value.fields, "expectedType") == Some(Str(CropEnd(FieldCrop, f.expectedType)))
    ensures r.Ok? && f.original.OriginalValue? ==>
      Get(r.value.fields, "originalValue") == Some(CropRaw(f.original.value).value)
    ensures r.Ok? && f.original.ValueIsUndefined? ==> Get(r.value.fields, "originalValue") == Some(Undefined)
    ensures r.Ok? ==>
      r.value == Obj(Display(f, if f.original.OriginalValue? then CropRaw(f.original.value).value else Undefined))
    ensures r.Thrown? ==> r.error.TypeError?
  {
    match f.original
    case ValueIsUndefined => Ok(Obj(Display(f, Undefined)))
    case OriginalValue(v) =>
      match CropRaw(v)
      case Thrown(e) => Thrown(e)
      case Ok(shown) => Ok(Obj(Display(f, shown)))
  }

  predicate LegacyDisplayable(f: FormattedError) {
    f.original.OriginalValue? ==> CropRaw(f.original.value).Ok?
  }

  function LegacyDisplay(formatted: seq<FormattedError>): (r: Outcome<seq<Value>>)
    ensures r.Ok? <==> forall i :: 0 <= i < |formatted| ==> LegacyDisplayable(formatted[i])
    ensures r.Ok? ==> |r.value| == |formatted|
    ensures r.Ok? ==> EntrywiseLegacy(formatted, r.value)
    ensures r.Thrown? ==> r.error.TypeError?
    decreases |formatted|
  {
    if |formatted| == 0 then Ok([])
    else
      DisplayableSplit(formatted);
      match LegacyDisplayEntry(formatted[0])
      case Thrown(e) => Thrown(e)
      case Ok(head) =>
        match LegacyDisplay(formatted[1..])
        case Thrown(e) => Thrown(e)
        case Ok(tail) =>
          EntrywiseCons(formatted, head, tail);
          Ok([head] + tail)
  }

  /** Entry `i` of the list is the legacy display entry of error `i`. */
  predicate EntrywiseLegacy(formatted: seq<FormattedError>, entries: seq<Value>)
    requires |entries| == |formatted|
  {
    forall i :: 0 <= i < |formatted| ==>
      LegacyDisplayEntry(formatted[i]).Ok? && entries[i] == LegacyDisplayEntry(formatted[i]).value
  }

  lemma DisplayableSplit(formatted: seq<FormattedError>)
    requires |formatted| > 0
    ensures (forall i :: 0 <= i < |formatted| ==> LegacyDisplayable(formatted[i]))
        <==> LegacyDisplayable(formatted[0])
             && forall i :: 0 <= i < |formatted[1..]| ==> LegacyDisplayable(formatted[1..][i])
  {
    assert forall i :: 1 <= i < |formatted| ==> formatted[i] == formatted[1..][i - 1];
  }

  lemma EntrywiseCons(formatted: seq<FormattedError>, head: Value, tail: seq<Value>)
    requires |formatted| > 0 && |tail| == |formatted| - 1
    requires LegacyDisplayEntry(formatted[0]) == Ok(head)
    requires EntrywiseLegacy(formatted[1..], tail)
    ensures EntrywiseLegacy(formatted, [head] + tail)
  {
    var all := [head] + tail;
    forall i | 0 <= i < |formatted|
      ensures LegacyDisplayEntry(formatted[i]).Ok? && all[i] == LegacyDisplayEntry(formatted[i]).value
    {
      if i > 0 {
        assert formatted[i] == formatted[1..][i - 1] && all[i] == tail[i - 1];
      }
    }
  }

  /** The legacy constructor can crop this error's offending value. */
  predicate RawCroppable(e: ValidationError) {
    !e.value.Undefined? ==> CropRaw(e.value).Ok?
  }

  lemma {:induction false} DisplayableIffCroppable(errors: seq<ValidationError>, formatted: seq<FormattedError>)
    requires FormatIotsError.Format(errors) == Ok(formatted)
    ensures (forall i :: 0 <= i < |formatted| ==> LegacyDisplayable(formatted[i]))
        <==> (forall i :: 0 <= i < |errors| ==> RawCroppable(errors[i]))
  {
    forall i | 0 <= i < |errors|
      ensures LegacyDisplayable(formatted[i]) <==> RawCroppable(errors[i])
    {
      assert FormatIotsError.WellFormatted(errors[i], formatted[i]);
    }
  }

  /** `new IotsParseError(errors)` from src/index.ts and src/iots-utils.ts:
      like `Make`, except that the constructor also throws when an offending
      value cannot be cropped raw. */
  function MakeLegacy(cls: ErrorClass, errors: seq<ValidationError>, stringify: Stringify): (r: Outcome<IotsParseError>)
    ensures r.Ok? <==>
      && FormatIotsError.AllRooted(errors)
      && forall i :: 0 <= i < |errors| ==> RawCroppable(errors[i])
    ensures r.Thrown? ==> r.error.TypeError?
    ensures r.Ok? ==> r.value.cls == cls && r.value.originalErrors == errors
    ensures r.Ok? ==> r.value.formattedErrors == FormatIotsError.Format(errors).value
    ensures r.Ok? ==> |r.value.message| <= MessageCap + 1
    ensures r.Ok? ==> LegacyDisplay(r.value.formattedErrors).Ok?
    ensures r.Ok? ==>
      var text := stringify(Arr(LegacyDisplay(r.value.formattedErrors).value), MessageIndent);
      && (|text| <= MessageCap ==> r.value.message == text)
      && (|text| > MessageCap ==> r.value.message == text[..MessageCap] + [Ellipsis])
  {
    match FormatIotsError.Format(errors)
    case Thrown(e) => Thrown(e)
    case Ok(formatted) =>
      DisplayableIffCroppable(errors, formatted);
      match LegacyDisplay(formatted)
      case Thrown(e) => Thrown(e)
      case Ok(entries) =>
        Ok(IotsParseError(cls, errors, formatted, CropEnd(MessageCap, stringify(Arr(entries), MessageIndent))))
  }

  /** A `null` where a string was expected: the legacy constructor throws a
      `TypeError` instead of producing an `IotsParseError`, while the
      constructor of src/IotsParseError.ts builds one. */
  lemma LegacyNullValueThrows(cls: ErrorClass, stringify: Stringify)
    ensures MakeLegacy(cls, [RootFailure("string", Null)], stringify).Thrown?
    ensures MakeLegacy(cls, [RootFailure("string", Null)], stringify).error.TypeError?
    ensures Make([RootFailure("string", Null)], stringify).Ok?
  {
    assert !CropRaw(Null).Ok?;
  }

  /** The two constructors agree on the structured part whenever the legacy
      one succeeds. */
  lemma {:induction false} LegacyAgreesOnStructure(cls: ErrorClass, errors: seq<ValidationError>, stringify: Stringify)
    requires MakeLegacy(cls, errors, stringify).Ok?
    ensures Make(errors, stringify).Ok?
    ensures Make(errors, stringify).value.originalErrors == MakeLegacy(cls, errors, stringify).value.originalErrors
    ensures Make(errors, stringify).value.formattedErrors == MakeLegacy(cls, errors, stringify).value.formattedErrors
  {
  }
}
