/** Failure-carrying values used for the Java exceptions and null results of the model. */
module Wrappers {

  /** A value that may be absent (a Java `null` result). */
  datatype Option<+T> = None | Some(value: T)

  /** A value or the error that a Java method would have thrown instead. */
  datatype Result<+T, +E> = Success(value: T) | Failure(error: E)
}
