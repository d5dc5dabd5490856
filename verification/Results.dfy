/** The exceptions that the modelled code throws, and results that may be one of them. */
module Results {

  datatype Error =
    | OutOfRange         // std::out_of_range
    | InvalidArgument    // std::invalid_argument
    | DomainError        // std::domain_error
    | AssertionFailed    // a violated assert()
    | FloatLiteral       // a floating-point number, which the model does not carry

  datatype Result<+T> = Ok(value: T) | Err(error: Error) {
    predicate IsFailure() { Err? }

    function PropagateFailure<U>(): Result<U>
      requires Err?
    {
      Err(error)
    }

    function Extract(): T
      requires Ok?
    {
      value
    }
  }
}
