/** Optional values, standing for Python's `None` / JavaScript's `null`. */
module Wrappers {
  datatype Option<T> = None | Some(value: T)
  {
    /** `x if x is not None else d` */
    function GetOr(d: T): T
    {
      match this
      case None => d
      case Some(v) => v
    }
  }

  /** A computation that may raise. */
  datatype Outcome<T> = Done(value: T) | Raised

  /** `text or ""` for an optional string. */
  function OrEmpty(s: Option<string>): string
  {
    if s.Some? then s.value else ""
  }
}
