/** Small failure-compatible datatypes shared by the other modules. */
module Wrappers {

  datatype Option<+T> = None | Some(value: T)

  /** The outcome of a Python call that either returns a value or raises an
      exception; `message` is `str(e)` of the exception raised. */
  datatype Outcome<+T> = Returned(value: T) | Raised(message: string) {

    predicate IsFailure() {
      Raised?
    }

    function PropagateFailure<U>(): Outcome<U>
      requires Raised?
    {
      Raised(message)
    }

    function Extract(): T
      requires Returned?
    {
      value
    }
  }
}
