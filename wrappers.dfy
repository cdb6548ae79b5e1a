/** Option and Result values shared by the modules of this model. */
module Wrappers {
  datatype Option<+T> = None | Some(value: T)

  /** A Python call that either returns a value or raises; `error` names the exception. */
  datatype Result<+R, +E> = Success(value: R) | Failure(error: E)
}
