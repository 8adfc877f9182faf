/** The optional value used throughout the model for JavaScript's `null`/`undefined`,
    for an absent key of an object and for `NaN` out of `parseInt`. */
module Options {

  datatype Option<+T> = None | Some(value: T) {

    /** The value, or `default` when absent (JavaScript's `x ?? default`). */
    function GetOr(default: T): T {
      match this
      case Some(v) => v
      case None => default
    }
  }
}
