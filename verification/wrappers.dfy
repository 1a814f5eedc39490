/** Optional values and results, shared by every module of the model. */
module Wrappers {

  /** An optional value: what Java expresses with a possibly-null reference. */
  datatype Option<+T> = None | Some(value: T)

  /** Either a value or the error that prevented computing it. */
  datatype Result<+T, +E> = Success(value: T) | Failure(error: E)
}
