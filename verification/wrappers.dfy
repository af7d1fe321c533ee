/** Optional values: the model's stand-in for a missing key, a JSON null or a
    Python exception raised by a parse. */
module Wrappers {

  datatype Option<+T> = None | Some(value: T) {

    /** The value carried by Some, or the default when None. */
    function GetOr(default: T): (r: T)
      ensures Some? ==> r == value
      ensures None? ==> r == default
    {
      match this
      case Some(v) => v
      case None => default
    }
  }
}
