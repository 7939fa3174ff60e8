/** Failure-carrying result types used across the model. */
module Wrappers {

  /** An optional value: `None` stands for "no value" (a skipped line, a failed parse). */
  datatype Option<+T> = None | Some(value: T)

  /** Either a value or one of the run's fatal errors. */
  datatype Result<+R, +E> = Success(value: R) | Failure(error: E)
}
