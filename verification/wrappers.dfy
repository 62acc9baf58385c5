/** Optional values: the model's stand-in for JavaScript's `null`/`undefined`
    results and for operations that may fail without a reason. */
module Wrappers {

  datatype Option<+T> = None | Some(value: T) {

    /** Returns the wrapped value, or `default` when there is none. */
    function GetOr(default: T): T {
      match this
      case Some(v) => v
      case None => default
    }
  }
}
