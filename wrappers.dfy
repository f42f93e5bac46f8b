/** Option and Result, the two wrappers the model uses for Python's None and for exceptions. */
module Wrappers {

  /** `None` is Python's None; `Some(v)` any other value. */
  datatype Option<+T> = None | Some(value: T)

  /** The outcome of an operation that may raise instead of returning. */
  datatype Result<+T, +E> = Ok(value: T) | Err(error: E)
}
