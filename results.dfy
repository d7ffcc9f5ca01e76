/** Rust's `Option`, `Result<T, E>` and `Result<(), E>`, as plain datatypes. */
module Results {

  datatype Option<T> = None | Some(value: T)

  datatype Result<T, E> = Ok(value: T) | Err(error: E)

  /** `Result<(), E>`: success carries nothing. */
  datatype Outcome<E> = Pass | Fail(error: E)
}
