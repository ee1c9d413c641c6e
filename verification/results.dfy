/** Small failure-carrying wrappers used by the session model. */
module Results {

  /** An optional value: the `Optional[...]` fields of the session record. */
  datatype Option<+T> = None | Some(value: T)

  /** The outcome of a store operation that can fail with an error value. */
  datatype Result<+T, +E> = Ok(value: T) | Err(error: E)
}
