/** Option and Result, the two failure-carrying datatypes the model uses for
    values that JavaScript leaves undefined and for calls that throw. */
module Wrappers {

  datatype Option<+T> = None | Some(value: T)

  datatype Result<+R, +E> = Success(value: R) | Failure(error: E)
}
