/** Option and Result, the two failure-carrying shapes the model needs. */
module Wrappers {

  /** A Go value that may be `nil`. */
  datatype Option<+T> = None | Some(value: T)

  /** A Go `(value, error)` pair in which exactly one side is meaningful. */
  datatype Result<+R, +E> = Success(value: R) | Failure(error: E)
}
