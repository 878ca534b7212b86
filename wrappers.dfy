/** Option, Result and Outcome: the model's stand-ins for Java's null results
    and thrown exceptions. */
module Wrappers {

  datatype Option<+T> = None | Some(value: T)

  /** A value, or the error the source would have thrown instead. */
  datatype Result<+R, +E> = Success(value: R) | Failure(error: E)

  /** Success without a value (a `void` method that completed), or an error. */
  datatype Outcome<+E> = Pass | Fail(error: E)
}
