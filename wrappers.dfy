/** Failure-carrying values shared by every module: an optional value and a
    success-or-error value, the shapes the SDK's exceptions and the daemon's
    `Result`/`Option` returns are modelled with. */
module Wrappers {

  datatype Option<+T> = None | Some(value: T)

  datatype Result<+T, +E> = Ok(value: T) | Err(error: E) {
    predicate IsFailure() { Err? }

    function PropagateFailure<U>(): Result<U, E>
      requires Err?
    {
      Err(error)
    }

    function Extract(): T
      requires Ok?
    {
      value
    }
  }
}
