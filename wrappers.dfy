/** Option and Result: the optional values and the raise-or-return outcomes of the model. */
module Wrappers {

  datatype Option<+T> = None | Some(value: T)

  /** Success carries the value a Python call returns, Failure the exception it raises. */
  datatype Result<+R, +E> = Success(value: R) | Failure(error: E)
}
