/** Optional values and the success-or-exception outcome of the plugin's operations. */
module Wrappers {

  datatype Option<+T> = None | Some(value: T) {
    /** The value, or `default` when there is none (JavaScript's `??`). */
    function GetOr(default: T): T {
      match this
      case Some(v) => v
      case None => default
    }
  }

  /** A call that returns a value or throws a `ScriptException` carrying a message. */
  datatype Result<+T> = Success(value: T) | Failure(error: string)
}
