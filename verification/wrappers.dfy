/** Failure-carrying values used throughout the model: a Python call either
    returns a value or raises with a message. */
module Wrappers {

  datatype Option<+T> = None | Some(value: T)

  /** `Failure` carries the text of the exception the source would raise. */
  datatype Result<+T, +E> = Success(value: T) | Failure(error: E)
}
