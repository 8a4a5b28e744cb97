/** Option and Result, the failure-carrying types every other module uses
    in place of Go's nil pointers and `(value, error)` pairs. */
module Wrappers {

  /** A nullable value: a Go `*T` that may be nil, or an SQL column that may be NULL. */
  datatype Option<+T> = None | Some(value: T) {

    /** The value, or `default` when absent (SQL `COALESCE(this, default)`). */
    function GetOr(default: T): T {
      match this
      case Some(v) => v
      case None => default
    }
  }

  /** The outcome of a call that returns either a value or an error message. */
  datatype Result<+R> = Ok(value: R) | Err(error: string) {

    function ToOption(): Option<R> {
      match this
      case Ok(v) => Some(v)
      case Err(_) => None
    }
  }
}
