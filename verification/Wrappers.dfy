/** Option and Result values shared by the modules of the project. */
module Wrappers {

  datatype Option<+T> = None | Some(value: T)

  /** `Failure` stands for an exception thrown by `require`. */
  datatype Result<+T, +E> = Success(value: T) | Failure(error: E)
}
