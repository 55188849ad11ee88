/** Failure-carrying return types shared by the chain readers and the aggregator. */
module Results {

  /** A value that may be absent, e.g. the outcome of parsing one numeric token. */
  datatype Option<+T> = None | Some(value: T)

  /** Either a computed value or the error that aborted the computation. */
  datatype Result<+T, +E> = Success(value: T) | Failure(error: E)
}
