/**
 * Option and Result: JavaScript's `undefined` results and thrown errors, as
 * values; and Mode, which selects between a defect as written and its repair.
 */
module Wrappers {
  datatype Option<T> = None | Some(value: T)
  {
    function GetOr(default: T): T
    {
      match this
      case None => default
      case Some(v) => v
    }
  }

  datatype Result<T, E> = Ok(value: T) | Err(error: E)
  {
    predicate IsFailure()
    {
      Err?
    }

    function PropagateFailure<U>(): Result<U, E>
      requires Err?
    {
      Err(error)
    }

    function Extract(): T
      requires Ok?
    {
      value
    }
  }

  /**
   * Which reading of code with a defect the model follows: the code as
   * written, or the behaviour its authors evidently intended.
   */
  datatype Mode = AsWritten | Corrected
}
