/** Optional and fallible values shared by the modules of the engine model. */
module Common {

  /** A lookup that may miss (Python's `None`). */
  datatype Option<T> = None | Some(value: T)

  /** An operation that may raise: `Err` carries the exception the source raises. */
  datatype Result<T, E> = Ok(value: T) | Err(error: E)
}
