/** Optional values and results, used for JavaScript's `undefined`-or-value
    and for the error paths of the modelled operations. */
module Wrappers {

  datatype Option<+T> = None | Some(value: T)

  datatype Result<+T, +E> = Success(value: T) | Failure(error: E)
}
