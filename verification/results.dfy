/** Success/failure carriers shared by the storage model and the handlers. */
module Results {

  /** A value that may be absent; Go's `error` return is `None` on success. */
  datatype Option<+T> = None | Some(value: T)

  /** Either a value or an error, as a Go `(T, error)` pair is used. */
  datatype Result<+T, +E> = Success(value: T) | Failure(error: E)
}
