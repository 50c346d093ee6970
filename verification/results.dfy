/** Failure-carrying values shared by every module of the model. */
module Results {

  /** A value that may be absent, such as the outcome of a fallible path conversion. */
  datatype Option<+T> = None | Some(value: T)

  /** The `(value, error)` pair returned by fallible operations; errors are messages. */
  datatype Result<+T> = Success(value: T) | Failure(error: string)
}
