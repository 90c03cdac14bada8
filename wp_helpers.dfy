// Accessors for WordPress "rendered" text and ACF "formatted_value" wrappers.

module WpHelpers {
  import opened JsValues
  import Scf

  /** `isRenderedText`: a record carrying a `rendered` key whose value is a
    * string, null or undefined. */
  predicate IsRenderedText(value: JsValue) {
    value.Obj? && HasField(value.fields, "rendered") &&
    (Get(value, "rendered").Str? || IsNullish(Get(value, "rendered")))
  }

  /** `getRenderedString`: the rendered text, only when it is a string. */
  function GetRenderedString(value: JsValue): (r: Option<string>)
    ensures r.Some? <==> value.Obj? && HasField(value.fields, "rendered") && Get(value, "rendered").Str?
    ensures r.Some? ==> IsRenderedText(value) && r.value == Get(value, "rendered").s
  {
    if IsRenderedText(value) && Get(value, "rendered").Str? then Some(Get(value, "rendered").s)
    else None
  }

  /** `getFormattedValue`; `String(...)` on the wrapped value is `ToJsString`
    * over the runtime's number and JSON formatting. */
  function GetFormattedValue(value: JsValue, rt: Runtime): (r: Option<string>)
    ensures value.Str? ==> r == Some(value.s)
    ensures value.Obj? && HasField(value.fields, "formatted_value") ==>
      (r.None? <==> IsNullish(Get(value, "formatted_value")))
    ensures value.Obj? && HasField(value.fields, "formatted_value") && r.Some? ==>
      r.value == ToJsString(Get(value, "formatted_value"), rt)
    ensures !value.Str? && !(value.Obj? && HasField(value.fields, "formatted_value")) ==> r.None?
  {
    if value.Str? then Some(value.s)
    else if value.Obj? && HasField(value.fields, "formatted_value") then
      var formatted := Get(value, "formatted_value");
      if IsNullish(formatted) then None else Some(ToJsString(formatted, rt))
    else None
  }

  /** `getFormattedValue` agrees with the descriptor reader `readField` of
    * scf.ts: on a record with `formatted_value`, it is defined exactly when
    * `readField` gives a non-nullish value, and then it is that value as text. */
  lemma FormattedAgreesWithReadField(value: JsValue, rt: Runtime)
    requires value.Obj? && HasField(value.fields, "formatted_value")
    ensures GetFormattedValue(value, rt).Some? <==> !IsNullish(Scf.ReadField(value))
    ensures GetFormattedValue(value, rt).Some? ==>
      GetFormattedValue(value, rt).value == ToJsString(Scf.ReadField(value), rt)
  {
  }

  /** A rendered-text record never holds a non-string, non-nullish `rendered`;
    * `getRenderedString` rejects exactly those records whose `rendered` is
    * null or undefined, and every non-record. */
  lemma RenderedStringNone(value: JsValue)
    ensures GetRenderedString(value).None? <==>
      !IsRenderedText(value) || IsNullish(Get(value, "rendered"))
  {
  }
}
