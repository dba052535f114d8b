/** Optional values and results with an error message, as the Go code's
 *  `(T, bool)`, nil-pointer and `(T, error)` returns. */
module Wrappers {

  datatype Option<T> = None | Some(value: T)
  {
    function UnwrapOr(default: T): T
    {
      if Some? then value else default
    }
  }

  datatype Result<T> = Success(value: T) | Failure(error: string)
  {
    predicate IsFailure()
    {
      Failure?
    }
  }
}
