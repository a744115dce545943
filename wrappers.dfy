/** Optional values: JavaScript's `undefined`/`null` for a missing value. */
module Wrappers {

  datatype Option<+T> = None | Some(value: T) {

    /** The value, or `default` when there is none (JavaScript's `x || default`). */
    function GetOr(default: T): T {
      if Some? then value else default
    }
  }
}
