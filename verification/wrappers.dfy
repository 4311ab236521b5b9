/** Optional values, and results that may carry an error, shared by the cache and the ranking models. */
module Wrappers {

  /** An optional value: a store read that finds nothing, or a document field that is missing. */
  datatype Option<+T> = None | Some(value: T)

  /** Either a value or the error that was raised instead of producing it. */
  datatype Result<+T, +E> = Success(value: T) | Failure(error: E)
}
