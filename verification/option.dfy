/** Optional values and results: the model of a JavaScript field that may be
    `undefined` (or `null`), of a lookup that may find nothing, and of an
    operation that may fail. */
module Opt {

  datatype Option<+T> = None | Some(value: T) {

    /** The value, or `default` when absent: JavaScript's `x ?? default`. */
    function GetOr(default: T): T {
      match this
      case Some(v) => v
      case None => default
    }
  }

  datatype Result<+T, +E> = Ok(value: T) | Err(error: E)
}
