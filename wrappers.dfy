/** Optional values and results with an error, used for the source's optional
    fields (`field?: T`) and for operations that throw. */
module Wrappers {

  datatype Option<+T> = None | Some(value: T)

  datatype Result<+R, +E> = Success(value: R) | Failure(error: E)
}
