/** Failure-aware result type shared by every module of the model.
    The Python code signals its error paths with `assert`, `KeyError`,
    `IndexError` or `TypeError`; the model returns `None` on those paths. */
module Wrappers {

  datatype Option<+T> = None | Some(value: T) {

    /** The value, or `default` on the error path. */
    function GetOr(default: T): T {
      match this
      case Some(v) => v
      case None => default
    }
  }
}
