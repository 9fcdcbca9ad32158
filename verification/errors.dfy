/** The exceptions the fitting script can raise, and a Result type that carries them.

    Every operation of the script either produces a value or ends the current run with
    a Python exception; `fit_linear` and `search_best_parameter` catch any of them and
    print it.  The model keeps the exception class, so that the error paths can be
    compared with the source branch by branch.
 */
module Errors {

  /** The Python exception classes the modelled code raises. */
  datatype Error =
    | IndexOutOfRange       // IndexError: `list[0]` on an empty list, `item[1]` on a one-element list
    | WrongType             // TypeError: `len(None)` for a missing field, a string compared with 0
    | DivisionByZero        // ZeroDivisionError: a zero uncertainty, constant x, or n == 2
    | LengthMismatch        // 'Input file error: Data lists are not the same length.'
    | NegativeUncertainty   // 'Input file error: Not all uncertainties are positive.'

  /** A value, or the exception that ended the computation. */
  datatype Result<+T> = Ok(value: T) | Err(error: Error) {

    predicate IsFailure() {
      Err?
    }

    function PropagateFailure<U>(): Result<U>
      requires Err?
    {
      Err(error)
    }

    function Extract(): T
      requires Ok?
    {
      value
    }
  }
}
