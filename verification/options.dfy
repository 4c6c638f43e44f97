/** JavaScript's `undefined`/`null` for a value that may be missing. */
module Options {

  datatype Option<+T> = None | Some(value: T) {

    /** `x || fallback` for a value whose presence alone makes it truthy (arrays, objects). */
    function GetOr(fallback: T): T {
      match this
      case Some(v) => v
      case None => fallback
    }
  }
}
