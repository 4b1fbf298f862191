/** Optional values and results with an error, standing in for Python's
    `None` and for raised exceptions. */
module Wrappers {

  datatype Option<T> = None | Some(value: T)
  {
    function GetOr(default: T): (r: T)
      ensures this.Some? ==> r == value
      ensures this.None? ==> r == default
    {
      match this
      case None => default
      case Some(v) => v
    }
  }

  datatype Result<T, E> = Ok(value: T) | Err(error: E)
  {
    predicate IsFailure() { Err? }

    function PropagateFailure<U>(): Result<U, E>
      requires Err?
    {
      Err(error)
    }

    function Extract(): T
      requires Ok?
    {
      value
    }
  }
}
