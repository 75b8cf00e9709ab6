/** The two ways the core can fail at run time. */
module Results {
  datatype Error =
    | OutOfRange      // std::vector::at with an index outside the vector
    | DivisionByZero  // integer division by a group capacity of 0

  /** The outcome of an operation that can fail; usable with `:-`, which stops at the
      first error and passes it on. */
  datatype Result<+T> = Ok(value: T) | Err(error: Error) {

    predicate IsFailure() {
      Err?
    }

    function PropagateFailure<U>(): Result<U>
      requires Err?
    {
      Err(error)
    }

    function Extract(): T
      requires Ok?
    {
      value
    }
  }
}
