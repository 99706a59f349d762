/** Optional values and results with an error, shared by the backend and the frontend models. */
module Wrappers {
  /** A Java reference or a TypeScript field that may be null / undefined. */
  datatype Option<T> = None | Some(value: T)
  {
    function GetOr(default: T): (r: T)
      ensures this.Some? ==> r == value
      ensures this.None? ==> r == default
    {
      match this
      case None => default
      case Some(v) => v
    }

    /** This value when present, otherwise the other one. */
    function Or(other: Option<T>): (r: Option<T>)
      ensures this.Some? ==> r == this
      ensures this.None? ==> r == other
    {
      if this.Some? then this else other
    }
  }

  /** The value of a call that can throw (backend) or reject (frontend). */
  datatype Result<T, E> = Ok(value: T) | Err(error: E)
  {
    predicate IsFailure() { Err? }

    function PropagateFailure<U>(): Result<U, E>
      requires Err?
    {
      Err(error)
    }

    function Extract(): T
      requires Ok?
    {
      value
    }
  }
}
