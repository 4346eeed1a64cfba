/** Values that stand for what a .NET call can do: return something, return
    nothing (a null reference or a false flag), or throw. */
module Wrappers {

  datatype Option<+T> = None | Some(value: T) {
    function GetOr(default: T): T {
      match this
      case Some(v) => v
      case None => default
    }
  }

  /** The exceptions the modelled library raises. `Argument` carries the
      message the library passes, `ArgumentOutOfRange` the parameter name. */
  datatype Exception =
    | ArgumentOutOfRange(paramName: string)
    | Argument(message: string)
    | FormatError
    | Overflow

  /** The outcome of a call that may throw. */
  datatype Outcome<+T> = Returned(value: T) | Thrown(exception: Exception)
}
