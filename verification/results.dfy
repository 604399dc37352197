/** Failure-carrying wrappers shared by the rest of the model. */
module Results {

  /** A value that may be absent: JavaScript's `undefined` on one side. */
  datatype Option<+T> = None | Some(value: T) {
    function GetOr(default: T): T {
      match this
      case Some(v) => v
      case None => default
    }
  }

  /** The outcome of a foreign call that either returns or throws. */
  datatype Result<+T, +E> = Success(value: T) | Failure(error: E)
}
