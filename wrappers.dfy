/** The optional value used throughout the model: JavaScript's `undefined`,
    an absent document field, or NaN where a number was expected. */
module Wrappers {

  datatype Option<+T> = None | Some(value: T) {

    /** The value, or `default` when there is none (the `x || default` idiom). */
    function GetOr(default: T): T {
      match this
      case Some(v) => v
      case None => default
    }
  }
}
