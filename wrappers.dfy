/** Optional values and the outcome of a whole run. */
module Wrappers {

  datatype Option<+T> = None | Some(value: T)
  {
    /** The value, or `default` when absent (Rust's `unwrap_or`). */
    function GetOr(default: T): T
    {
      match this
      case Some(v) => v
      case None => default
    }
  }

  /** A run either completes with its records or aborts the process
      (an `unwrap` on a missing object). */
  datatype Outcome<+T> = Completed(records: T) | Aborted
}
