/** The optional and fallible values the models share. */
module Wrappers {

  datatype Option<+T> = None | Some(value: T)

  /** stout's `Try`: a value or an error message. */
  datatype Try<+T> = Success(value: T) | Error(message: string)
}
