/** Go's conventions for missing values, shared by the fetchers and handlers. */
module Wrappers {

  /** A Go `(value, error)` pair: either a value or the error that replaced it. */
  datatype Result<+T, +E> = Success(value: T) | Failure(error: E)

  /**
   * A string that may be left empty, with a default: the value itself, or the
   * default when the value is empty (an omitted query parameter reads as "").
   */
  function OrDefault(value: string, default: string): (r: string)
    ensures r == "" ==> default == ""
    ensures r == value || r == default
    ensures value != "" ==> r == value
  {
    if value == "" then default else value
  }
}
