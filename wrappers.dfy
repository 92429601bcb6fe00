/** Option and Result: an absent table reference and a query that may throw. */
module Wrappers {

  /** A value that may be absent, in place of a possibly-null pointer. */
  datatype Option<+T> = None | Some(value: T)

  /** The outcome of a call that either returns a value or raises an error. */
  datatype Result<+T, +E> = Success(value: T) | Failure(error: E)
}
