/** The optional value used wherever the source has a nullable reference
    (`string?`, `UserInfo?`, a failed HTTP call that returns `null`). */
module Wrappers {

  datatype Option<+T> = None | Some(value: T) {

    /** Returns the value in Some, or `default` if None */
    function GetOr(default: T): T {
      match this
      case Some(v) => v
      case None => default
    }
  }
}
