/** Failure-carrying values used across the model: an optional value and a
    success-or-error outcome (the scripts signal errors by raising ValueError). */
module Results {

  /** A value that may be absent. */
  datatype Option<+T> = None | Some(value: T)

  /** Either the computed value or the error that aborted the computation. */
  datatype Result<+R, +E> = Success(value: R) | Failure(error: E)
}
