/** Optional values and results with an error, used for the store lookup,
    URL parsing and the outcome of a shorten request. */
module Wrappers {

  datatype Option<+T> = None | Some(value: T)

  datatype Result<+T, +E> = Success(value: T) | Failure(error: E)
}
