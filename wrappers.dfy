/** Optional values, standing for JavaScript's `undefined` where a caller may omit a field. */
module Wrappers {
  datatype Option<T> = None | Some(value: T) {
    /** The wrapped value, or `default` when there is none (a JavaScript default parameter). */
    function GetOr(default: T): (r: T)
      ensures Some? ==> r == value
      ensures None? ==> r == default
    {
      match this
      case Some(v) => v
      case None => default
    }
  }
}
