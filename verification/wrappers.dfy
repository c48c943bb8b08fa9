/** The success-or-error result that each fallible builder call returns in
    place of throwing. */
module Wrappers {

  /** Either the value a call produced or the error it raised. */
  datatype Result<+R, +E> = Success(value: R) | Failure(error: E)
}
