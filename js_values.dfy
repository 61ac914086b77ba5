/** The JavaScript values the library tells apart, and the ways a promise can settle. */
module JsValues {

  datatype Option<+T> = None | Some(value: T)

  /** An `Error` object. `PagingError` is the library's own subclass, which carries
      the page and the index in the page that it concerns. */
  datatype Failure =
    | PagingError(message: string, page: int, index: int)
    | OtherError(message: string)

  /** A JavaScript value as far as the library looks at it; `V` is the caller's payload. */
  datatype Js<V> =
    | Undefined
    | Null
    | Str(s: string)
    | ErrorObject(failure: Failure)
    | Other(payload: V)

  /** How an awaited promise settles. */
  datatype Raw<V> = Resolved(value: Js<V>) | Rejected(reason: Js<V>)

  /** What calling a caller-supplied predicate gives: a truth value, or the exception it threw. */
  datatype Verdict<V> = Returns(holds: bool) | Throws(exception: Js<V>)

  function Min(a: int, b: int): int
  {
    if a <= b then a else b
  }
}
