/** The exceptions the two class templates throw, and a result type that carries either a
    value or one of them, so that a throwing operation is modelled as a total one. */
module Errors {

  /** std::out_of_range (At), std::overflow_error (Erase), std::logic_error (ArrayPtr's operator*). */
  datatype Error = OutOfRange | OverflowError | LogicError

  datatype Result<+T> = Success(value: T) | Failure(error: Error)
}
