/** Optional values: a JavaScript field that may be `undefined` (or `null`). */
module Wrappers {

  datatype Option<+T> = None | Some(value: T) {

    /** The value, or `default` when absent: JavaScript's `x ?? default`. */
    function GetOr(default: T): T {
      match this
      case Some(v) => v
      case None => default
    }
  }
}
