/** Option and Result types shared by every module. */
module Wrappers {

  /** Some value, or nothing (Python's None where it means "absent"). */
  datatype Option<+T> = None | Some(value: T)

  /** A value, or the error a Python call would raise instead of returning. */
  datatype Result<+R, +E> = Success(value: R) | Failure(error: E)
}
