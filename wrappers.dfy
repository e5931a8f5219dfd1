/** Option, Result and Outcome, used across the model. */
module Wrappers {

  /** An optional value: JavaScript's `undefined` is `None`. */
  datatype Option<+T> = None | Some(value: T)

  /** A value or the error that was thrown instead of producing it. */
  datatype Result<+T, +E> = Ok(value: T) | Err(error: E)

  /** Completion without a value, or the error that was thrown. */
  datatype Outcome<+E> = Pass | Fail(error: E)
}
