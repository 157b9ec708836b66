/** Optional values, results and the exceptions the modelled code raises. */
module Wrappers {

  /** Python's `None` or a value; used for keyword arguments whose default is filled in by the callee. */
  datatype Option<+T> = None | Some(value: T) {
    function GetOr(default: T): T {
      match this
      case Some(v) => v
      case None => default
    }
  }

  /** The exceptions raised (or propagated) by the modelled functions. */
  datatype Error =
    | ValueError          // a guard on the arguments
    | LinAlgError         // numpy.linalg.solve rejects the system
    | IndexError          // a list index out of range
    | ZeroDivisionError   // a division (or a `** -1`) by zero

  /** The value a Python call returns, or the exception it raises. */
  datatype Result<+T> = Ok(value: T) | Err(error: Error) {
    predicate IsFailure() {
      Err?
    }

    function PropagateFailure<U>(): Result<U>
      requires Err?
    {
      Err(error)
    }

    function Extract(): T
      requires Ok?
    {
      value
    }
  }
}
