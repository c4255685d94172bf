/** Optional values and success/failure outcomes. */
module Wrappers {

  /** A value that may be absent, as an optional JSON field is. */
  datatype Option<T> = None | Some(value: T)

  /** The outcome of a request handler: a value, or the error it reports. */
  datatype Result<T, E> = Success(value: T) | Failure(error: E)
}
