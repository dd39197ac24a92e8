/** Outcomes of parsing and evaluating an expression. */
module Results {

  /** The failures `evaluate` can report.  A grammar violation is reported
      with the input position at which the parser gave up; a zero divisor is
      reported by the multiplicative walker before any quotient is formed. */
  datatype Error =
    | ParseError(at: nat)
    | DivisionByZero

  /** A value or the error that replaced it; usable with `:-`. */
  datatype Result<+T> = Ok(value: T) | Err(error: Error) {

    predicate IsFailure() {
      Err?
    }

    function PropagateFailure<U>(): Result<U>
      requires Err?
    {
      Err(error)
    }

    function Extract(): T
      requires Ok?
    {
      value
    }
  }
}
