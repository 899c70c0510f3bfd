/** The JavaScript `T | null` (and `T | undefined`) of the source, as a value. */
module Wrappers {

  datatype Option<+T> = None | Some(value: T) {

    /** The `x ?? d` of the source. */
    function GetOr(default: T): T {
      match this
      case Some(v) => v
      case None => default
    }
  }
}
