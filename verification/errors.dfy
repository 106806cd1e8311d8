/** Failure-compatible wrappers for the exceptions the recommendation engine raises.
    A Python `raise E` becomes `Err(E)`; a normal return becomes `Ok(v)`. */
module Errors {

  /** The exception classes the modelled code raises. */
  datatype Error =
    | ValueError         // unknown graph vertex
    | RuntimeError       // district distance never cached
    | KeyError           // dictionary lookup of a missing key
    | AssertionError     // a failed `assert` in the similarity function
    | ZeroDivisionError  // division by an empty degree or a zero score spread
    | IndexError         // indexing an empty row

  datatype Option<+T> = None | Some(value: T)

  datatype Result<+T> = Ok(value: T) | Err(error: Error) {

    predicate IsFailure() {
      Err?
    }

    function PropagateFailure<U>(): Result<U>
      requires Err?
    {
      Err(error)
    }

    function Extract(): T
      requires Ok?
    {
      value
    }
  }
}
