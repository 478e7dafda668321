/** Optional values and error returns: how this project writes the `None` and the exceptions of the
    modelled programs. */
module Wrappers {
  datatype Option<+T> = None | Some(value: T)

  datatype Result<+T, +E> = Success(value: T) | Failure(error: E)
}
