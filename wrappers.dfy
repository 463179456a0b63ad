/** Option and Result, the usual failure-carrying wrappers. */
module Wrappers {

  /** An optional value; `None` stands for Java's `null`. */
  datatype Option<+T> = None | Some(value: T)

  /** A value or the error that the source raises instead of returning one. */
  datatype Result<+R, +E> = Success(value: R) | Failure(error: E)
}
