/** Optional values and results, used for SQL NULL, PHP null and failures. */
module Wrappers {

  /** A value that may be absent (PHP null). */
  datatype Option<+T> = None | Some(value: T)

  /** The outcome of an operation that can fail with an error of type E. */
  datatype Result<+T, +E> = Success(value: T) | Failure(error: E)
}
