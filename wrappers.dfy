/** The optional-value datatype that stands for JavaScript's `null`/`undefined` results. */
module Wrappers {
  datatype Option<+T> = None | Some(value: T) {
    function GetOr(default: T): T {
      match this
      case Some(v) => v
      case None => default
    }
  }

  /** An answer of the API: accepted (with what it returned) or failed with
      an error message. */
  datatype Outcome<T> = Done(value: T) | Failed(message: string)
}
