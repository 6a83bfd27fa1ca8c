/** Failure-carrying datatypes shared by the rest of the model. */
module Wrappers {

  /** A value that may be absent: JavaScript's `undefined` / `null`. */
  datatype Option<+T> = None | Some(value: T)

  /** Either a new value or the reason the operation was refused. */
  datatype Result<+R, +E> = Success(value: R) | Failure(error: E)
}
