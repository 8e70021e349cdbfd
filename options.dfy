/** Optional and failure-carrying values shared by the other modules. */
module Options {

  /** A value that may be absent: an `undefined` property or lookup miss. */
  datatype Option<T> = None | Some(value: T)

  /** The outcome of an operation that reports an error instead of throwing. */
  datatype Result<T> = Success(value: T) | Failure(error: string)
}
