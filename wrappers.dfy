/** Option and Result types shared by every module of the model. */
module Wrappers {
  datatype Option<T> = None | Some(value: T)

  /** The exception classes the modelled code raises. */
  datatype Error =
    | ValueError
    | IndexError
    | KeyError
    | RuntimeError
    | ZeroDivisionError
    | OutOfRange
    | TypeError
    | Exception  // Python's base `Exception`, raised directly

  datatype Result<T> = Ok(value: T) | Err(error: Error)
  {
    predicate IsOk() { Ok? }
  }
}
