/** Failure-carrying results shared by the modules of this model. */
module Wrappers {

  /** A value that may be absent (a nil pointer, a missing map entry, a nil error). */
  datatype Option<+T> = None | Some(value: T)

  /** A value or the error that prevented it (Go's `(T, error)` pairs). */
  datatype Result<+T, +E> = Success(value: T) | Failure(error: E)
}
