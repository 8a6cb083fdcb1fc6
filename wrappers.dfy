module Wrappers {

  /** A value that may be absent: JavaScript's `undefined`/`null`, or a failed parse. */
  datatype Option<+T> = None | Some(value: T) {
    function GetOr(default: T): T {
      match this
      case Some(v) => v
      case None => default
    }
  }
}
