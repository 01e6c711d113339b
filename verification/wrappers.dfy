/** Failure-carrying results for the operations of the backend that raise a
    fatal compiler error instead of returning a value. */
module Wrappers {

  datatype Option<+T> = None | Some(value: T)

  /** The fatal conditions the modelled code raises. */
  datatype Error =
    | OpaqueSize            // size query on a type with no byte size
    | NotAConstant          // an operand that must be an OpConstant is not
    | BadComponentIndex     // a gather component outside 0..3
    | TooManyPasses         // the compile loop did not converge in 3 passes

  datatype Result<+T> = Ok(value: T) | Err(error: Error) {
    predicate IsFailure() {
      Err?
    }

    function PropagateFailure<U>(): Result<U>
      requires Err?
    {
      Err(error)
    }

    function Extract(): T
      requires Ok?
    {
      value
    }
  }
}
