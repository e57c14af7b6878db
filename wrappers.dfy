/** The optional-value and outcome types shared by the rest of the model. */
module Wrappers {

  /** A value that may be absent; stands for a C# reference that may be null
      and for the `out` result of a `TryParse` that may fail. */
  datatype Option<+T> = None | Some(value: T)

  /** The result of an operation that may throw: `Ok` carries the returned
      value, `Err` the exception that ended it. */
  datatype Result<+T, +E> = Ok(value: T) | Err(error: E)
}
