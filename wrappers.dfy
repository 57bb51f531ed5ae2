/** Optional values and success-or-failure results, used wherever the
    source has `undefined` fields or throws an Error. */
module Wrappers {

  datatype Option<+T> = None | Some(value: T)

  datatype Result<+R, +E> = Success(value: R) | Failure(error: E)
}
