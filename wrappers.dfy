/** Option, Result and Outcome values used for nullable columns and for errors that the source raises. */
module Wrappers {

  /** A value that may be absent (a nullable column, a Python `None`). */
  datatype Option<+T> = None | Some(value: T)

  /** The result of an operation that either returns a value or raises an error. */
  datatype Result<+R, +E> = Ok(value: R) | Err(error: E)

  /** The result of an operation that returns nothing or raises an error. */
  datatype Outcome<+E> = Pass | Fail(error: E)
}
