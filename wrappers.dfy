/** The optional value used where the Ruby code returns `nil` or a value. */
module Wrappers {

  datatype Option<+T> = None | Some(value: T) {

    /** Ruby's `x || default`: the value when present, the default otherwise. */
    function GetOr(default: T): T {
      match this
      case Some(v) => v
      case None => default
    }
  }
}
