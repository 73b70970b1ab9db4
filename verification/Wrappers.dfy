/** Optional values and error-or-value results, standing in for JavaScript's
    `null` and for a thrown `Error` carrying its message. */
module Wrappers {

  datatype Option<+T> = None | Some(value: T) {
    function GetOr(default: T): T {
      match this
      case Some(v) => v
      case None => default
    }
  }

  datatype Result<+R> = Success(value: R) | Failure(message: string)
}
