/** Option and Result, the two failure-carrying shapes the model needs. */
module Wrappers {

  /** A query's `.first()`: a row, or None when nothing matches. */
  datatype Option<+T> = None | Some(value: T)

  /** An operation that either yields a value or raises. */
  datatype Result<+R, +E> = Success(value: R) | Failure(error: E)
}
