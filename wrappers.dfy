/** Option and Result values shared by every module of the model. */
module Wrappers {
  datatype Option<T> = None | Some(value: T)

  /** Outcome of an operation that may raise: the Python exception becomes `Err`. */
  datatype Result<T, E> = Ok(value: T) | Err(error: E)
}
