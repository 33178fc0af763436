/** Option and result types shared by every module. */
module Wrappers {

  /** An optional value: the model of Python's `X | None`. */
  datatype Option<+T> = None | Some(value: T)

  /** Either a value or the error the modelled code raises instead of returning. */
  datatype Result<+T, +E> = Success(value: T) | Failure(error: E)
}
