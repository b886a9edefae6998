/** The Python exceptions the mapper can raise, and a failure-compatible
    result type that carries either a value or the exception raised. */
module Exceptions {

  /** The exception classes that reach the caller of the mapper's functions. */
  datatype PyError =
    | IndexError          // a list subscript outside [-len, len)
    | TypeError           // int(None) on the auto pool-size sentinel
    | ValueError          // a chunk size below 1 passed to executor.map
    | ZeroDivisionError   // a zero node size or maps-per-node in the sizing formula

  /** Either the value a call returned or the exception it raised. */
  datatype Result<+T> = Success(value: T) | Failure(error: PyError) {

    predicate IsFailure() {
      Failure?
    }

    function PropagateFailure<U>(): Result<U>
      requires Failure?
    {
      Failure(error)
    }

    function Extract(): T
      requires Success?
    {
      value
    }
  }
}
