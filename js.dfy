/** JavaScript values as the player's code sees them: fields that may be
    `undefined` or `null`, and the truthiness tests the code applies. */
module Js {

  /** An option field or argument: absent (`undefined`), `null`, or a value. */
  datatype JsValue<+T> = Undefined | Null | Value(value: T)

  datatype Option<+T> = None | Some(value: T)

  datatype Result<+R, +E> = Success(value: R) | Failure(error: E)

  /** `x === undefined ? d : x`: only an absent field takes the default;
      `null` and every supplied value are kept. */
  function OrDefault<T>(x: JsValue<T>, d: T): (r: JsValue<T>)
    ensures !r.Undefined?
    ensures x.Undefined? ==> r == Value(d)
    ensures !x.Undefined? ==> r == x
  {
    if x.Undefined? then Value(d) else x
  }

  /** JavaScript truthiness of a string-valued field: `undefined`, `null`
      and the empty string are falsy. */
  predicate TruthyString(x: JsValue<string>) {
    x.Value? && x.value != ""
  }

  /** JavaScript truthiness of a boolean-valued field. */
  predicate TruthyBool(x: JsValue<bool>) {
    x.Value? && x.value
  }
}
