/** Failure-carrying wrappers used by the decoders and the session handlers. */
module Results {

  datatype Option<T> = None | Some(value: T)

  datatype Result<T, E> = Ok(value: T) | Err(error: E)
}
