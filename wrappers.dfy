/** Option and Result, the two shapes the Ruby code expresses with nil and with raised errors. */
module Wrappers {

  /** `nil` or a value. */
  datatype Option<+T> = None | Some(value: T) {
    function GetOr(default: T): T {
      match this
      case Some(v) => v
      case None => default
    }
  }

  /** A value, or the error a Ruby method would have raised (`UI.user_error!`, `NoMethodError`, ...). */
  datatype Result<+T> = Ok(value: T) | Err(message: string)
}
