/** The outcome of a computation the source can abort with an exception. */
module Outcomes {

  /** The exceptions the modelled code can raise. */
  datatype Error = DivisionByZero

  datatype Result<T> = Ok(value: T) | Err(error: Error)
}
