/** Optional values (a JavaScript property that may be absent) and the
    outcome of an operation that may throw. */
module Results {

  datatype Option<T> = None | Some(value: T) {
    /** The value if present, `default` otherwise: how an object spread
        lets a present property override an earlier one. */
    function GetOr(default: T): T
    {
      match this
      case Some(v) => v
      case None => default
    }

    /** This option if present, `other` otherwise. */
    function Or(other: Option<T>): Option<T>
    {
      if Some? then this else other
    }
  }

  /** A returned value, or the error an `async` function rejects with. */
  datatype Result<T, E> = Success(value: T) | Failure(error: E)
}
