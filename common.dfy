/** Option, Result and Outcome as the handlers use them, the numbers that
    `parseFloat` produces, and two small sequence helpers. */
module Common {

  datatype Option<+T> = None | Some(value: T)

  datatype Result<+T, +E> = Ok(value: T) | Err(error: E)

  /** The result of an operation that changes state and returns nothing else. */
  datatype Outcome<+E> = Pass | Fail(error: E)

  /** A number as `parseFloat` yields it: NaN, or a value in whole CFA units. */
  datatype Numeric = NotANumber | Num(value: int)

  /** JavaScript truthiness of an optional text field: present and non-empty. */
  predicate Truthy(s: Option<string>)
  {
    s.Some? && s.value != ""
  }

  function Init<T>(s: seq<T>): seq<T>
    requires s != []
  {
    s[..|s| - 1]
  }

  function Last<T>(s: seq<T>): T
    requires s != []
  {
    s[|s| - 1]
  }
}
