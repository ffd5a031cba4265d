/** Small shared value types. */
module Common {

  /** A value that may be absent: Python's `None`, JavaScript's `null`. */
  datatype Option<+T> = None | Some(value: T) {
    function GetOr(default: T): T {
      match this
      case Some(v) => v
      case None => default
    }
  }
}
