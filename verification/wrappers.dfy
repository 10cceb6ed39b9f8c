/** The absent-or-present value used wherever the translator answers "no
    result", and the result of a computation that may raise instead. */
module Wrappers {

  datatype Option<+T> = None | Some(value: T) {

    /** The carried value, or `default` when there is none. */
    function GetOr(default: T): T {
      match this
      case Some(v) => v
      case None => default
    }
  }

  /** The result of a call that may raise an exception instead of returning. */
  datatype Outcome<T> = Returned(value: T) | Raised
}
