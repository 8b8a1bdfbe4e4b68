/** Optional values and results: JavaScript's `undefined` and thrown errors made explicit. */
module Wrappers {

  /** `None` stands for `undefined` (or an absent key); `Some(v)` for a defined value. */
  datatype Option<+T> = None | Some(value: T)
  {
    function GetOr(default: T): T
    {
      match this
      case Some(v) => v
      case None => default
    }
  }

  /** The outcome of an operation that throws in the source. */
  datatype Result<+T, +E> = Ok(value: T) | Err(error: E)
}
