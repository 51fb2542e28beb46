/** Optional values and results with an error, shared by every module of the model. */
module Wrappers {

  /** std::optional<T> and Rust's Option<T>. */
  datatype Option<+T> = None | Some(value: T)

  /** Rust's Result<T, E> (anyhow::Result). */
  datatype Result<+T, +E> = Ok(value: T) | Err(error: E)
}
