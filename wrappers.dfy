/** Failure-compatible types shared by the model's modules. */
module Wrappers {

  /** A value that may be absent: the model's stand-in for a NaN result or a missing argument. */
  datatype Option<+T> = None | Some(value: T)

  /** A value, or the reason the source would have raised an exception instead. */
  datatype Result<+R, +E> = Success(value: R) | Failure(error: E)
}
