/** Swift's `Optional`, for stored bindings and messages. */
module Wrappers {

  datatype Option<+T> = None | Some(value: T) {

    /** `self ?? default` with a non-optional default. */
    function GetOr(default: T): T {
      match this
      case Some(v) => v
      case None => default
    }

    /** `self ?? other` with an optional right-hand side. */
    function OrElse(other: Option<T>): Option<T> {
      match this
      case Some(_) => this
      case None => other
    }
  }
}
