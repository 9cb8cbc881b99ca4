/** Option and Result, the failure-carrying values the model uses where the
    application has `undefined`, a missing document or a thrown error. */
module Wrappers {

  datatype Option<+T> = None | Some(value: T) {
    /** The held value, or `default` when there is none. */
    function GetOr(default: T): T {
      if Some? then value else default
    }
  }

  datatype Result<+R, +E> = Success(value: R) | Failure(error: E)
}
