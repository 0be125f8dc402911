/** Option, Result and Outcome: the model's stand-ins for C# null references and
    thrown exceptions. */
module Wrappers {

  /** A value that may be absent (a C# null reference or an unset Nullable). */
  datatype Option<+T> = None | Some(value: T)

  /** The outcome of an operation that either returns a value or throws. */
  datatype Result<+T, +E> = Success(value: T) | Failure(error: E)

  /** The outcome of an operation that returns nothing but may throw. */
  datatype Outcome<+E> = Pass | Fail(error: E)
}
