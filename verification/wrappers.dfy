/** Failure-carrying datatypes shared by the model. */
module Wrappers {

  /** Python's `None`-or-value, as returned by `create_image_lists`. */
  datatype Option<+T> = None | Some(value: T)

  /** A value, or the error the Python code would raise instead of returning. */
  datatype Result<+T, +E> = Success(value: T) | Failure(error: E)
}
