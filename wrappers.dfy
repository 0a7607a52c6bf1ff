/** The optional value used for JavaScript's `undefined`/`null` and the `??` operator. */
module Wrappers {
  datatype Option<+T> = None | Some(value: T) {
    /** `x ?? default`: the value when present, otherwise the default. */
    function GetOr(default: T): (r: T)
      ensures Some? ==> r == value
      ensures None? ==> r == default
    {
      match this
      case Some(v) => v
      case None => default
    }
  }
}
