/** The optional-value datatype shared by every module of the model. */
module Wrappers {

  /** A value that may be missing: Python's `None` or an absent dictionary entry. */
  datatype Option<+T> = None | Some(value: T) {

    /** The carried value, or `default` when there is none. */
    function GetOr(default: T): T {
      match this
      case Some(v) => v
      case None => default
    }
  }
}
