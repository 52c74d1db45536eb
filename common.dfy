/** Small shared vocabulary: an optional value. */
module Common {

  /** A value that may be absent, e.g. the outcome of a parse that can fail. */
  datatype Option<+T> = None | Some(value: T) {

    /** The carried value, or `default` when there is none. */
    function GetOr(default: T): T {
      match this
      case Some(v) => v
      case None => default
    }
  }
}
