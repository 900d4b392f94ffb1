/** Optional values. `None` stands for JavaScript's `NaN` wherever a parsed
    number may be missing. */
module Wrappers {

  datatype Option<+T> = None | Some(value: T) {

    /** The value, or `default` when there is none (JavaScript's `x || default`
        for a number that is `NaN` or `0` when the default is `0`). */
    function GetOr(default: T): T {
      match this
      case Some(v) => v
      case None => default
    }
  }
}
