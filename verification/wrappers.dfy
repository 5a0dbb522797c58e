/** Optional values and call results, shared by every module of the model:
    `Option` stands for a JavaScript value that may be `undefined`,
    `Result` for a call that either resolves or rejects with an error. */
module Wrappers {

  datatype Option<+T> = None | Some(value: T) {

    /** The wrapped value, or `default` when there is none. */
    function GetOr(default: T): T {
      match this
      case Some(v) => v
      case None => default
    }
  }

  datatype Result<+R, +E> = Success(value: R) | Failure(error: E)
}
