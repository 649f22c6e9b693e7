/** Failure-compatible result types shared by every module of the model.

    Python signals failure by raising; the model returns a `Result` whose
    `Failure` arm names the exception class the source would raise.
 */
module Wrappers {

  /** Python's `None` or a present value. */
  datatype Option<+T> = None | Some(value: T) {
    function GetOr(default: T): T {
      match this
      case Some(v) => v
      case None => default
    }
  }

  /** The exception classes the modelled code raises or catches. */
  datatype Error =
    | KeyError(key: string)   // `data['key']` on a record without that key
    | ValueError              // bad value: priority outside [1,5], unknown schedule type, id not found
    | TypeError               // an argument of the wrong Python type
    | IndexError              // an index outside a list, `split()[k]` on too few tokens
    | AttributeError          // a method called on `None`

  /** Either the value an operation returns or the exception it raises. */
  datatype Result<+T> = Success(value: T) | Failure(error: Error) {
    predicate IsFailure() {
      Failure?
    }

    function PropagateFailure<U>(): Result<U>
      requires Failure?
    {
      Failure(error)
    }

    function Extract(): T
      requires Success?
    {
      value
    }
  }
}
