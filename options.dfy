/** The optional value used wherever the monitor may or may not have something:
    a regular-expression match, a site's URL or display name. */
module Options {

  datatype Option<T> = None | Some(value: T) {

    /** The value, or `default` when there is none (Python's `d.get(k, default)`). */
    function GetOr(default: T): T {
      match this
      case Some(v) => v
      case None => default
    }
  }
}
