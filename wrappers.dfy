/** Optional values and results with an error, for the source's `None`
    returns and for the exceptions it raises. */
module Wrappers {

  datatype Option<T> = None | Some(value: T)

  /** `Failure` carries the name of the Python exception the source raises. */
  datatype Result<T> = Success(value: T) | Failure(error: string)
  {
    predicate IsFailure() { Failure? }
  }
}
