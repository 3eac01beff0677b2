/** How the JavaScript code sees a string-valued field of a request body or
    a function argument: absent (`undefined`/`null`) or a string. */
module JsValue {
  import opened Wrappers

  /** `!v` is false: the value is present and is not the empty string. */
  predicate Truthy(v: Option<string>)
  {
    v.Some? && v.value != []
  }

  /** The text of a value, the empty string when it is absent. */
  function TextOf(v: Option<string>): string
  {
    if v.Some? then v.value else []
  }
}
