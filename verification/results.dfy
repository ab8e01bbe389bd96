/** Optional values and success-or-error results, standing in for the
    `undefined`-able fields and the thrown errors of the modelled code. */
module Results {

  /** A value that may be absent (`undefined` in the modelled code). */
  datatype Option<+T> = None | Some(value: T) {

    /** The value if present, otherwise `default` (the `??` and `||` fallbacks). */
    function GetOr(default: T): T {
      match this
      case Some(v) => v
      case None => default
    }
  }

  /** Either the result of an operation or the error it throws. */
  datatype Result<+T, +E> = Success(value: T) | Failure(error: E)
}
