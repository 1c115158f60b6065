/** Option and Result: the model's stand-ins for C# nulls and thrown exceptions. */
module Wrappers {

  datatype Option<+T> = None | Some(value: T)

  /** A service call either returns a value or fails with the error it would throw. */
  datatype Result<+T, +E> = Ok(value: T) | Err(error: E)
}
