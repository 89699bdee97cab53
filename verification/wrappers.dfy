/** Option and Result: the model's stand-ins for Go's nil pointers and
    `(value, error)` returns. */
module Wrappers {

  /** An optional value: a nil pointer or an absent header is `None`. */
  datatype Option<+T> = None | Some(value: T) {

    function GetOr(default: T): T
    {
      match this
      case Some(v) => v
      case None => default
    }
  }

  /** Either a value or the error a Go function would return beside nil. */
  datatype Result<+T, +E> = Ok(value: T) | Err(error: E)
}
