/** Optional values and results with an error message, for the places where the
    scanner's Go code returns `(value, ok)` or `(value, err)`. */
module Wrappers {

  datatype Option<+T> = None | Some(value: T)

  datatype Result<+T, +E> = Success(value: T) | Failure(error: E)
}
