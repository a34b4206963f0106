/** Optional values and results with an error, as the model's modules share them. */
module Wrappers {

  /** A value that may be absent: Python's `Optional[T]`, where `None` is `None`. */
  datatype Option<+T> = None | Some(value: T)

  /** The outcome of an operation that either returns a value or raises an error. */
  datatype Result<+T, +E> = Ok(value: T) | Err(error: E)
}
