/** Failure-carrying values: Swift optionals become Option, and `throws` becomes
    Result (a value or an error) or Outcome (nothing or an error). */
module Wrappers {

  datatype Option<+T> = None | Some(value: T) {
    /** Swift's `??` operator. */
    function GetOr(default: T): T {
      match this
      case Some(v) => v
      case None => default
    }
  }

  datatype Result<+R, +E> = Success(value: R) | Failure(error: E)

  datatype Outcome<+E> = Pass | Fail(error: E)
}
