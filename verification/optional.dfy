/** A value that may be missing: JavaScript's `undefined`/`null` results. */
module Optional {

  datatype Option<+T> = None | Some(value: T) {

    /** The value, or the given default when it is missing. */
    function GetOr(default: T): T {
      match this
      case Some(v) => v
      case None => default
    }
  }
}
