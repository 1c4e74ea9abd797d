/** Optional values and error returns, standing for Python's `None` and for
    the `(value, error_message)` tuples the translator's functions return. */
module Wrappers {

  datatype Option<+T> = None | Some(value: T)

  datatype Result<+R, +E> = Success(value: R) | Failure(error: E)
}
