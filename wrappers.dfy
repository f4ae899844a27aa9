/** Option and Result, used for the nullable `selectedDate`, the optional
    `role` field and the validators' outcomes. */
module Wrappers {

  datatype Option<+T> = None | Some(value: T)

  datatype Result<+T, +E> = Success(value: T) | Failure(error: E)
}
