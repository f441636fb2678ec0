/** Result types shared by the other modules. */
module Wrappers {

  /** A value that may be absent: a nil pointer or a nil slice in the program. */
  datatype Option<+T> = None | Some(value: T)

  /** The outcome of an operation that may report an error. */
  datatype Result<+T> = Success(value: T) | Failure(error: string)
}
