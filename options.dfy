/** An optional value: a JSON field that may be absent or null, a SQL column that may be NULL,
    or a JavaScript number that may be NaN. */
module Options {

  datatype Option<+T> = None | Some(value: T) {

    /** The value, or `default` when there is none. */
    function GetOr(default: T): T {
      match this
      case Some(v) => v
      case None => default
    }
  }
}
