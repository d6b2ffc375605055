/** Optional values and results with an error, used for PHP's `false`/`null` returns and for failures. */
module Wrappers {

  datatype Option<+T> = None | Some(value: T)

  datatype Result<+T, +E> = Success(value: T) | Failure(error: E)
}
