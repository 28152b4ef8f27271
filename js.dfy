/**
 * JavaScript value conventions shared by the whole model.
 *
 * `Option<T>` stands for a property that may be `undefined`/`null`;
 * `Reply<T>` stands for an awaited call into code outside the model (a
 * browser API, an HTTP request) that either throws or produces a value.
 */
module Js {

  datatype Option<+T> = None | Some(value: T) {
    function GetOr(default: T): T {
      match this
      case Some(v) => v
      case None => default
    }
  }

  /** The outcome of an awaited call into code the model does not see. */
  datatype Reply<+T> = Threw | Returned(value: T)

  /** JavaScript truthiness of an optional string: `undefined`, `null` and `''` are falsy. */
  predicate Truthy(s: Option<string>) {
    s.Some? && s.value != ""
  }

  /** The JavaScript expression `a || b` on optional strings. */
  function Or(a: Option<string>, b: Option<string>): (r: Option<string>)
    ensures Truthy(a) ==> r == a
    ensures !Truthy(a) ==> r == b
  {
    if Truthy(a) then a else b
  }

  /** The JavaScript expression `s || ''` on an optional string. */
  function OrEmpty(s: Option<string>): (r: string)
    ensures s.Some? ==> r == s.value
    ensures s.None? ==> r == ""
  {
    s.GetOr("")
  }
}
