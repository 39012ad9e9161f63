/** Optional values and results with an error, shared by every module of the model. */
module Wrappers {
  /** A value that may be absent; stands for a null pointer or a Python `None`. */
  datatype Option<T> = None | Some(value: T)

  /** The outcome of an operation that can throw; `Err` carries what was thrown. */
  datatype Result<T, E> = Ok(value: T) | Err(error: E)
}
