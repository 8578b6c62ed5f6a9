/** Failure-carrying values shared by every module of the model. */
module Wrappers {

  /** An optional value: Python's `None` versus a present value. */
  datatype Option<+T> = None | Some(value: T)
  {
    /** The value, or `default` when absent (Python's `d.get(k, default)` on a read field). */
    function GetOr(default: T): T
    {
      match this
      case Some(v) => v
      case None => default
    }
  }

  /** A call that either returns a value or raises; `error` is the message `str(e)` of the raised exception. */
  datatype Result<+T> = Ok(value: T) | Err(error: string)

  function Min(a: int, b: int): int
  {
    if a <= b then a else b
  }
}
