/** Optional values and the outcome of an operation that can raise, with the exception kinds the
    modelled code raises. */
module Outcomes {

  datatype Option<T> = None | Some(value: T)

  /** The Python exception an operation ends with. */
  datatype PyError =
    | AssertionError
    | KeyError
    | ValueError
    | TypeError
    | AttributeError
    | NotImplementedError
    | IndexError

  /** The result of an operation that either returns a value or raises. */
  datatype Outcome<T> = Ok(value: T) | Raise(error: PyError) {
    predicate IsOk() {
      Ok?
    }
  }
}
