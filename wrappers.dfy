/** Optional values and results with an error value, used for Python's None
    and for the exceptions the scraper raises or catches. */
module Wrappers {

  datatype Option<+T> = None | Some(value: T)

  datatype Result<+T, +E> = Success(value: T) | Failure(error: E)
}
