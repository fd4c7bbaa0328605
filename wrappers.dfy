/** Optional values and error-carrying results, used where the source has
    `undefined`/`null` fields or throws. */
module Wrappers {

  datatype Option<+T> = None | Some(value: T)

  datatype Result<+R, +E> = Success(value: R) | Failure(error: E)
}
