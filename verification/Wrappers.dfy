/** Results of operations that can fail the way the modelled programs fail. */
module Wrappers {

  datatype Option<+T> = None | Some(value: T)

  /** `Failure` stands for a raised exception; the payload says which one. */
  datatype Result<+T> = Success(value: T) | Failure(error: Error)

  datatype Error = KeyError | IndexError | ValueError | AssertionError | DivisionByZero
}
