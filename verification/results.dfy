/** Optional values and results with an error side, used by every operation
    of the model: an operation either yields its new state and output, or an
    error and no new state at all, so the caller keeps the store it had. */
module Results {

  /** A nullable column or an absent lookup. */
  datatype Option<+T> = None | Some(value: T) {

    /** The value, or `default` for a null. */
    function GetOr(default: T): T {
      match this
      case Some(v) => v
      case None => default
    }
  }

  /** The outcome of an operation: a value, or the error that aborted it. */
  datatype Result<+T, +E> = Ok(value: T) | Err(error: E)
}
