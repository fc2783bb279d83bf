/** Option and Result values, used for the JavaScript `null` returns and thrown errors of the model. */
module Wrappers {

  /** `None` stands for JavaScript's `null` or `undefined`. */
  datatype Option<+T> = None | Some(value: T)

  /** `Failure` stands for an exception that a member throws. */
  datatype Result<+R, +E> = Success(value: R) | Failure(error: E)
}
