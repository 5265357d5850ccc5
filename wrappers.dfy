/** Option/Result wrappers shared by every module of the model. */
module Wrappers {
  datatype Option<T> = None | Some(value: T)

  datatype Result<T, E> = Ok(value: T) | Err(error: E)
}
