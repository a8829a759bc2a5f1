/** Optional values, the Python exceptions the modelled code can raise, and a
    result type that carries either a value or one of those exceptions. */
module Wrappers {

  datatype Option<+T> = None | Some(value: T) {
    function GetOr(default: T): T {
      match this
      case Some(v) => v
      case None => default
    }
  }

  /** The exceptions that the modelled code raises or lets escape. */
  datatype Error =
    | KeyError
    | TypeError
    | ValueError
    | IndexError
    | AttributeError
    | ZeroDivisionError
    | NotImplementedError
    | FileNotFoundError
    | RegexError
    | MissingKey(key: string)   // the generic `Exception("<key> not found in dict")`

  datatype Result<+T> = Ok(value: T) | Err(error: Error) {
    predicate IsFailure() {
      Err?
    }

    function PropagateFailure<U>(): Result<U>
      requires Err?
    {
      Err(error)
    }

    function Extract(): T
      requires Ok?
    {
      value
    }
  }
}
