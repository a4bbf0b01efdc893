/** The optional value used throughout the model: the source's `undefined` or `null`. */
module Wrappers {
  datatype Option<+T> = None | Some(value: T)

  /** The outcome of an awaited operation that may throw. */
  datatype Outcome<+T, +E> = Ok(value: T) | Err(error: E)
}
