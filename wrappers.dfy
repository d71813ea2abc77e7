/** The two wrappers the model uses in place of C#'s null reference and thrown exceptions. */
module Wrappers {

  /** A reference that may be null. */
  datatype Option<+T> = None | Some(value: T)

  /** The result of a call that either returns a value or throws. */
  datatype Result<+T, +E> = Ok(value: T) | Err(error: E)

  /** The result of a call that returns nothing or throws. */
  datatype Outcome<+E> = Pass | Fail(error: E)
}
