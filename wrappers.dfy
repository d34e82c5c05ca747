/** Failure-carrying results for the Java exceptions the chunk operations can throw. */
module Wrappers {

  datatype Option<+T> = None | Some(value: T)

  /** A computed value, or the exception that aborted the computation. */
  datatype Result<+T, +E> = Success(value: T) | Failure(error: E)

  /** The outcome of a void Java method: it returned normally, or it threw. */
  datatype Outcome<+E> = Pass | Fail(error: E)
}
