/** Failure-compatible result types used throughout the model: `Option` for
    a C# reference that may be null, `Result` for a computation that either
    produces a value or throws. */
module Wrappers {

  datatype Option<+T> = None | Some(value: T)

  /** `Ok(v)` is a normal return; `Err(e)` is the exception `e` being thrown.
      Works with `:-`, which stops at the first failure. */
  datatype Result<+T, +E> = Ok(value: T) | Err(error: E) {

    predicate IsFailure() {
      Err?
    }

    function PropagateFailure<U>(): Result<U, E>
      requires Err?
    {
      Err(error)
    }

    function Extract(): T
      requires Ok?
    {
      value
    }
  }
}
