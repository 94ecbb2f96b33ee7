/** The optional value used throughout the model for JavaScript's `null` and
    `undefined`, and for a read or parse that threw. */
module Wrappers {

  datatype Option<+T> = None | Some(value: T) {

    /** The value held, or `default`: JavaScript's `x ?? default`. */
    function GetOr(default: T): (r: T)
      ensures Some? ==> r == value
      ensures None? ==> r == default
    {
      match this
      case Some(v) => v
      case None => default
    }
  }
}
