/** Optional values and results with a typed error, used by every other module. */
module Wrappers {

  /** A value that may be absent, such as a JSON field the client did not send. */
  datatype Option<+T> = None | Some(value: T)

  /** The outcome of an operation that can fail with a typed error. */
  datatype Result<+T, +E> = Success(value: T) | Failure(error: E)
}
