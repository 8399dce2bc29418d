/** Option and Result values: the model's stand-ins for a missing dictionary
    key and for an exception that ends a call. */
module Wrappers {

  datatype Option<+T> = None | Some(value: T)

  datatype Result<+R, +E> = Success(value: R) | Failure(error: E)
}
