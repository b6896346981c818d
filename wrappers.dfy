/** Option and Result, with the Python exceptions the modelled code can raise. */
module Wrappers {

  datatype Option<T> = None | Some(value: T)
  {
    predicate IsSome() { this.Some? }

    function GetOr(default: T): (r: T)
      ensures this.Some? ==> r == value
      ensures this.None? ==> r == default
    {
      match this
      case Some(v) => v
      case None => default
    }
  }

  /** The exception classes the modelled Python code raises. */
  datatype PyError =
    | ValueError
    | KeyError
    | IndexError
    | ZeroDivisionError
    | AttributeError
    | NameError
    | RuntimeError
    | TypeError

  datatype Result<T> = Ok(value: T) | Err(error: PyError)
  {
    predicate IsOk() { this.Ok? }
  }
}
