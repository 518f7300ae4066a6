/** The usual optional value, for the source's `Option`. */
module Options {
  datatype Option<+T> = None | Some(value: T) {
    function GetOr(fallback: T): T {
      match this
      case Some(v) => v
      case None => fallback
    }

    /** The receiver when it holds a value, else the other option. */
    function Or(other: Option<T>): Option<T> {
      if Some? then this else other
    }
  }
}
