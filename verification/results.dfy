/** Failure-carrying values shared by the render-service model. */
module Results {

  /** A value that may be absent: JavaScript's `undefined`/`null` on one side,
      a present value on the other. */
  datatype Option<+T> = None | Some(value: T) {

    /** The present value, or `default` when absent (the `??` operator). */
    function GetOr(default: T): T {
      match this
      case Some(v) => v
      case None => default
    }
  }

  /** The outcome of an operation that can throw: `Ok` carries the value,
      `Err` the reason it threw. */
  datatype Result<+T, +E> = Ok(value: T) | Err(error: E)
}
