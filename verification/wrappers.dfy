/** Option and Result types used for the model's partial results and error paths. */
module Wrappers {

  /** A value that may be absent; used where the source returns NaN or null. */
  datatype Option<+T> = None | Some(value: T)

  /** Either a computed value or an error code. */
  datatype Result<+R, +E> = Success(value: R) | Failure(error: E)
}
