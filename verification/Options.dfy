/** Optional values, and results of operations that may be refused. */
module Options {
  datatype Option<+T> = None | Some(value: T)

  datatype Result<+T> = Success(value: T) | Failure
}
