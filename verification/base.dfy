/** Failure-carrying wrappers shared by the whole model. */
module Base {

  /** A value that may be absent: a missing cell of a data frame, a regex without a match. */
  datatype Option<+T> = None | Some(value: T)

  /** The outcome of an operation that may raise. */
  datatype Result<+T, +E> = Success(value: T) | Failure(error: E)
}
