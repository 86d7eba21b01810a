/** Failure-carrying result types shared by every module of the model. */
module Wrappers {

  datatype Option<+T> = None | Some(value: T)

  /** `Expected<T>` of the source: a value or an error. */
  datatype Result<+T, +E> = Success(value: T) | Failure(error: E)
}
