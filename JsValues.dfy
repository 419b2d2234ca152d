/**
 JavaScript values as the server code sees them after `JSON.parse`: a field
 is either absent (`undefined`) or present. Only the two JavaScript rules the
 server relies on are modelled: truthiness of a string-valued field and the
 string that `+` produces when it concatenates such a field.
 */
module JsValues {

  /** An optional value: `None` is JavaScript's `undefined`. */
  datatype Option<+T> = None | Some(value: T)

  /** `if (x)` on a string-valued field: present and not the empty string. */
  predicate Truthy(o: Option<string>)
  {
    o.Some? && o.value != ""
  }

  /** `'' + x` on a string-valued field: the string itself, or "undefined". */
  function Str(o: Option<string>): (s: string)
    ensures o.Some? ==> s == o.value
    ensures o.None? ==> s == "undefined"
  {
    match o
    case Some(v) => v
    case None => "undefined"
  }
}
