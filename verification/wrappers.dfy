/** Optional values.

    `None` stands for JavaScript's `undefined` wherever the toolkit's types
    allow it: an optional property that is absent, or one explicitly set to
    `undefined` (the toolkit never distinguishes the two).
 */
module Wrappers {

  datatype Option<+T> = None | Some(value: T) {

    /** `x ?? default` for a value that can only be `undefined` or a `T`. */
    function GetOr(default: T): T {
      match this
      case Some(v) => v
      case None => default
    }
  }
}
