/** Optional values and results with an error, shared by the converter models.
    A Java reference that may be `null` becomes an `Option`; an exception a
    method throws towards its caller becomes the `Failure` of a `Result`. */
module Wrappers {

  datatype Option<+T> = None | Some(value: T)

  datatype Result<+R, +E> = Success(value: R) | Failure(error: E)
}
