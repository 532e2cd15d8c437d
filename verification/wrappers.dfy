/** Failure-carrying return types shared by the store model. */
module Wrappers {

  /** A value that may be missing, as the store's lookups return None when no record matches. */
  datatype Option<+T> = None | Some(value: T)

  /** The outcome of an operation that either returns a value or ends in a Python exception. */
  datatype Result<+T, +E> = Success(value: T) | Failure(error: E)
}
