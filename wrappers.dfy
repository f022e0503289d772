/** Optional values: a Python value that may be absent (a missing dictionary key, a `None` result). */
module Wrappers {

  datatype Option<+T> = None | Some(value: T) {

    /** The value if present, else `default`: Python's `d.get(key, default)`. */
    function GetOr(default: T): T {
      match this
      case Some(v) => v
      case None => default
    }
  }
}
