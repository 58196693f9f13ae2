/** Outcome types shared by the modules of the pipeline model. */
module Wrappers {

  datatype Option<+T> = None | Some(value: T) {
    predicate IsFailure() { None? }

    function PropagateFailure<U>(): Option<U>
      requires None?
    {
      None
    }

    function Extract(): T
      requires Some?
    {
      value
    }
  }

  /** The value of a computation that either succeeds or raises. */
  datatype Result<+R, +E> = Success(value: R) | Failure(error: E)
}
