/** Failure-compatible wrappers used across the model. */
module Results {

  /** A value that may be absent. */
  datatype Option<+T> = None | Some(value: T)

  /** Either a computed value or the message of the error that stopped the computation. */
  datatype Result<+T> = Success(value: T) | Failure(error: string)
}
