/** Optional values and outcomes that can fail. */
module Wrappers {
  datatype Option<T> = None | Some(value: T)

  /** `Failure` stands for the exception the source raises. */
  datatype Result<T, E> = Success(value: T) | Failure(error: E)
}
