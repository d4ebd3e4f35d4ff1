/** Option and Result: the model's stand-ins for Python's `None` and for
    raising an exception. */
module Wrappers {

  datatype Option<+T> = None | Some(value: T)

  /** `Failure(e)` is a call that raised `e`; `Success(v)` is one that returned `v`. */
  datatype Result<+R, +E> = Success(value: R) | Failure(error: E)
}
