/** Optional values and success/failure results, used wherever the dashboard
    has a nullable value (`string | null`, an optional record field) or an
    operation that can refuse (a toast instead of a state change). */
module Wrappers {

  /** `null` / `undefined` versus a present value. */
  datatype Option<+T> = None | Some(value: T) {

    /** The value, or `default` when absent (JavaScript's `x ?? default`). */
    function GetOr(default: T): T
    {
      match this
      case Some(v) => v
      case None => default
    }
  }

  /** The outcome of an operation that either yields a new state or reports
      why it refused. */
  datatype Result<+R, +E> = Ok(value: R) | Err(error: E)
}
