/** Option and Result wrappers. */
module Wrappers {

  datatype Option<+T> = None | Some(value: T)

  /** The outcome of a dispatch: a value, or the error the mediator raised. */
  datatype Result<+T, +E> = Success(value: T) | Failure(error: E)
}
