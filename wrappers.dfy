/** Failure-compatible result type shared by the modules of this project. */
module Wrappers {

  /** Either a value or the error that the source raises instead. */
  datatype Result<+T, +E> = Success(value: T) | Failure(error: E)
}
