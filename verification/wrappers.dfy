/** `null`/`undefined` versus a present value, as the JavaScript code tests with `||` and `?.`. */
module Wrappers {

  datatype Option<+T> = None | Some(value: T) {

    /** The value, or `default` when absent (`x || default` on an object-valued `x`). */
    function GetOr(default: T): T {
      match this
      case Some(v) => v
      case None => default
    }
  }
}
