/** Failure-compatible result types used where the Python code raises. */
module Wrappers {

  datatype Option<+T> = None | Some(value: T)

  /** A value, or the message of the exception the Python code raises instead. */
  datatype Result<+T> = Ok(value: T) | Err(msg: string)

  /** The result of an operation that only changes state. */
  datatype Outcome = Pass | Fail(msg: string)
}
