/** The Option and Result datatypes shared by every module of the model. */
module Wrappers {

  /** An optional value: the source's `None` versus a present value. */
  datatype Option<+T> = None | Some(value: T)

  /** The outcome of an HTTP handler that can raise an `HTTPException`. */
  datatype Result<+R, +E> = Success(value: R) | Failure(error: E)
}
