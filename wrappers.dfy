/** Option and Result, the failure-carrying values the rest of the model returns. */
module Wrappers {

  /** An optional value: `None` stands for JavaScript's `undefined` or `null`. */
  datatype Option<+T> = None | Some(value: T) {

    /** The carried value, or `default` when there is none (JavaScript's `??`). */
    function GetOr(default: T): T {
      match this
      case Some(v) => v
      case None => default
    }
  }

  /** Either a value or an error value. */
  datatype Result<+R, +E> = Success(value: R) | Failure(error: E)
}
