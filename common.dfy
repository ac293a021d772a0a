/** Values shared by the request handlers: optional values and the caller
    that the authentication step attaches to a request. */
module Common {

  /** An absent (`undefined`/`null`) or present value. */
  datatype Option<T> = None | Some(value: T)

  /** A stored identifier in its string form (an ObjectId's hex string). */
  type Id = string

  /** The authenticated caller attached to `req.user`: its `_id` and `role`,
      either of which may be missing. */
  datatype User = User(id: Option<Id>, role: Option<string>)

  /** JavaScript's `v || fallback` on an optional string: an absent value
      and the empty string are both falsy. */
  function OrElse(v: Option<string>, fallback: string): (r: string)
    ensures v.Some? && v.value != "" ==> r == v.value
    ensures v.None? || v.value == "" ==> r == fallback
    ensures fallback != "" ==> r != ""
  {
    if v.Some? && v.value != "" then v.value else fallback
  }
}
