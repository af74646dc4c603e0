/** Option and Result values shared by every module, plus the Python
  * exception kinds that the modelled code raises. */
module Wrappers {

  datatype Option<T> = None | Some(value: T)
  {
    function UnwrapOr(default: T): T
    {
      if Some? then value else default
    }
  }

  /** The exceptions raised by the modelled code, with their messages where
    * the code fixes one. */
  datatype Error =
    | ValueError(msg: string)
    | RuntimeError(msg: string)
    | TypeError(msg: string)
    | LookupError(msg: string)
    | KeyError
    | IndexError
    | AssertionError                // a failed `assert` statement
    | StopIteration
    | StopAsyncIteration
    | NotFoundError                 // a REST call answered 404
    | ForbiddenError                // a REST call answered 403
    | InternalServerError           // a REST call answered 5xx
    | RateLimitedError(retryAfter: real) // a REST call was rate limited
    | NotImplementedError(msg: string)

  datatype Result<T> = Success(value: T) | Failure(error: Error)
  {
    predicate IsFailure()
    {
      Failure?
    }

    function PropagateFailure<U>(): Result<U>
      requires Failure?
    {
      Failure(error)
    }

    function Extract(): T
      requires Success?
    {
      value
    }
  }

  /** The value a method returns when it returns nothing. */
  datatype Unit = Unit
}
