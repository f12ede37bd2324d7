/** Failure-carrying results shared by both engines.  Every exception the
    Python code can raise on its way to an answer becomes an `Error`. */
module Outcomes {

  datatype Option<T> = None | Some(value: T)

  datatype Error =
    | InvalidLiteral    // `Fraction(...)` or `int(...)` rejected its text (ValueError / ZeroDivisionError)
    | BadToken          // `coeff, index = token.split('_')` did not get exactly two parts
    | IndexOutOfRange   // a Python list index outside `-len .. len-1` (IndexError)
    | Unbounded         // the ratio test found no row ("solution is unbounded")
    | OutOfFuel         // the iteration budget of a pivoting loop ran out (see README)

  datatype Result<T> = Ok(value: T) | Err(error: Error)
}
