/** Optional values and outcomes that can fail, used wherever the source has
    an `undefined` / `null` value, a thrown exception or a rejected promise. */
module Wrappers {

  datatype Option<+T> = None | Some(value: T)
  {
    function GetOr(default: T): T
    {
      match this
      case Some(v) => v
      case None => default
    }
  }

  datatype Result<+R, +E> = Success(value: R) | Failure(error: E)
}
