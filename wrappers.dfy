/** Option and Result values used for Python's `None` and for raised exceptions. */
module Wrappers {

  datatype Option<+T> = None | Some(value: T) {
    /** Python's `d.get(k, default)` shape: the value if present, else the default. */
    function GetOr(default: T): T {
      match this
      case Some(v) => v
      case None => default
    }
  }

  /** `Ok` is a normal return, `Err` an exception the source raises (or an assert that fails). */
  datatype Outcome<+T, +E> = Ok(value: T) | Err(error: E)
}
