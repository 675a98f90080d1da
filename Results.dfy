/** Optional values, shared by the reader and the writer models. */
module Results {

  /** A value that may be absent: Python's `None`, a resource that could not
      be located, a library call that raised. */
  datatype Option<T> = None | Some(value: T)
  {
    /** `x or default` for an optional value. */
    function GetOr(default: T): T
    {
      match this
      case Some(v) => v
      case None => default
    }
  }
}
