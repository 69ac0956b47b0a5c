/** Option and outcome values shared by every module of the model. */
module Wrappers {

  /** A value that may be absent (`null` / `undefined` in the source). */
  datatype Option<+T> = None | Some(value: T)

  /** Either a value or the error an operation throws. */
  datatype Result<+T, +E> = Success(value: T) | Failure(error: E)

  /** Success without a value, or the error an operation throws. */
  datatype Outcome<+E> = Pass | Fail(error: E)
}
