/** Option and Result values standing in for the source's `None` defaults and raised exceptions. */
module Results {

  datatype Option<T> = None | Some(value: T) {
    /** The wrapped value, or `default` when there is none. */
    function GetOr(default: T): T {
      match this
      case Some(v) => v
      case None => default
    }
  }

  /** Either a value or the error that the source would raise instead of returning. */
  datatype Result<T, E> = Ok(value: T) | Err(error: E)
}
