/**
 * Optional values. Unless a declaration says otherwise, None is JavaScript's
 * `undefined`: a missing field or argument (not `null`).
 */
module Wrappers {

  datatype Option<+T> = None | Some(value: T) {

    /**
     * The value, or `default` when there is none: a default parameter, or
     * `??` on a value that is never `null`.
     */
    function GetOr(default: T): (r: T)
      ensures Some? ==> r == value
      ensures None? ==> r == default
    {
      match this
      case Some(v) => v
      case None => default
    }
  }
}
