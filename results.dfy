/** Rust's `Option` and `Result`, with Rust's constructor names. */
module Results {

  datatype Option<T> = None | Some(value: T)

  datatype Result<T, E> = Ok(value: T) | Err(error: E)
}
