/** The optional value used wherever the source has `T | null` or an absent field. */
module Wrappers {

  datatype Option<+T> = None | Some(value: T)

  /** JavaScript truthiness of a `string | null`: null and the empty string are falsy. */
  predicate Truthy(s: Option<string>)
  {
    s.Some? && s.value != ""
  }

  /** `message || fallback` for an optional error message. */
  function MessageOr(message: Option<string>, fallback: string): (r: string)
    ensures Truthy(message) ==> r == message.value
    ensures !Truthy(message) ==> r == fallback
  {
    if Truthy(message) then message.value else fallback
  }
}
