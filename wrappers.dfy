/** Option and Result: a value that may be absent, and a value or an error. */
module Wrappers {

  /** An optional value; `None` stands for a missing or falsy argument. */
  datatype Option<+T> = None | Some(value: T)

  /** Either the value an operation returns or the error it throws. */
  datatype Result<+T, +E> = Success(value: T) | Failure(error: E)
}
