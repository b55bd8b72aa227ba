/** Failure-carrying wrappers shared by the whole model. */
module Results {

  /** A value that may be absent: an `undefined` request field or a missing lookup. */
  datatype Option<+T> = None | Some(value: T) {

    /** The wrapped value, or `default` when absent. */
    function GetOr(default: T): T {
      match this
      case Some(v) => v
      case None => default
    }
  }

  /** Either the value an operation produced or the error that stopped it. */
  datatype Result<+T, +E> = Ok(value: T) | Err(error: E)
}
