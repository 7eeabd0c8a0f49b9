/** Failure-carrying results, used for the exceptions the handler throws. */
module Wrappers {
  datatype Option<+T> = None | Some(value: T)

  /** Success(value) for a normal return, Failure(message) for a thrown exception's message. */
  datatype Result<+R, +E> = Success(value: R) | Failure(error: E)
}
