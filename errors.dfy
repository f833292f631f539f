/** The two exception families of the system, and the failure-compatible
    Result type that stands for "returns a value or throws". */
module Errors {

  datatype Option<+T> = None | Some(value: T)

  /** What a call that does not return normally ends with.
      JSONError and EvalError are the system's own exception classes;
      Abort covers the few inputs on which the source raises neither:
      a std::out_of_range that escapes uncaught, or behaviour the C++
      standard leaves undefined (an out-of-range int conversion, a
      modulus by zero). */
  datatype Error =
    | JSONError(message: string)
    | EvalError(message: string)
    | Abort(reason: string)

  datatype Result<+T> = Ok(value: T) | Err(error: Error) {

    predicate IsFailure() {
      Err?
    }

    function PropagateFailure<U>(): Result<U>
      requires Err?
    {
      Err(error)
    }

    function Extract(): T
      requires Ok?
    {
      value
    }
  }
}
