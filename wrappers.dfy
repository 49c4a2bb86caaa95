/** Optional values and fallible results shared by every module of the model. */
module Wrappers {

  /** A JavaScript value that may be `undefined`. */
  datatype Option<+T> = None | Some(value: T) {
    function GetOr(default: T): T {
      match this
      case Some(v) => v
      case None => default
    }
  }

  /** The outcome of a computation that may throw: `Fault` stands for a thrown exception. */
  datatype Result<+T> = Ok(value: T) | Fault {
    predicate IsFailure() {
      Fault?
    }

    function PropagateFailure<U>(): Result<U>
      requires Fault?
    {
      Fault
    }

    function Extract(): T
      requires Ok?
    {
      value
    }
  }
}
