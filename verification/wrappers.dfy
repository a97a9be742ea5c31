/** Failure-carrying return types for operations whose JavaScript original can throw. */
module Wrappers {

  /** `None` stands for a thrown exception (a property read on `undefined`). */
  datatype Option<+T> = None | Some(value: T)

  /** A result or the kind of error the JavaScript runtime would raise. */
  datatype Result<+R, +E> = Success(value: R) | Failure(error: E)
}
