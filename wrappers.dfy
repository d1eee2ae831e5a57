/** Failure-carrying values shared by every module: an optional value, and a
    result that is either a value or the Python exception the source raises. */
module Wrappers {

  datatype Option<+T> = None | Some(value: T) {
    predicate IsFailure() { None? }

    function PropagateFailure<U>(): Option<U>
      requires None?
    {
      None
    }

    function Extract(): T
      requires Some?
    {
      value
    }
  }

  /** The two built-in exception kinds the modelled code can raise. */
  datatype PyException = ValueError | IndexError

  datatype Result<+T> = Ok(value: T) | Err(error: PyException) {
    predicate IsFailure() { Err? }

    function PropagateFailure<U>(): Result<U>
      requires Err?
    {
      Err(error)
    }

    function Extract(): T
      requires Ok?
    {
      value
    }
  }
}
