/** Optional values (PHP's nullable node properties) and the parser's outcome. */
module Wrappers {

  /** A value that may be absent, as a PHP property or variable that may hold null. */
  datatype Option<+T> = None | Some(value: T) {

    /** PHP's null-coalescing operator `this ?? default`. */
    function GetOr(default: T): (r: T)
      ensures Some? ==> r == value
      ensures None? ==> r == default
    {
      match this
      case Some(v) => v
      case None => default
    }
  }

  /** The outcome of the external parser: a tree, or the message of the error it threw. */
  datatype Result<+T> = Ok(value: T) | Err(message: string)
}
