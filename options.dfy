/** The optional value used for lookups that may find nothing (JavaScript's `undefined`). */
module Options {

  datatype Option<T> = None | Some(value: T) {

    /** The carried value, or `default` when there is none. */
    function GetOr(default: T): T {
      match this
      case Some(v) => v
      case None => default
    }
  }
}
