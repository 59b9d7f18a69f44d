/** Small failure-compatible datatypes shared by the other modules. */
module Wrappers {

  /** A value that may be absent: a missing dictionary key, a SQL NULL, Python's None. */
  datatype Option<+T> = None | Some(value: T) {
    function GetOr(default: T): (r: T)
      ensures Some? ==> r == value
      ensures None? ==> r == default
    {
      match this
      case Some(v) => v
      case None => default
    }
  }

  /** The outcome of an operation that returns nothing but may raise. */
  datatype Outcome<+E> = Pass | Fail(error: E)
}
