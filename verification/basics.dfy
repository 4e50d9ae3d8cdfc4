/** Values shared by every module: Go's nil-able results and its `error` values. */
module Basics {

  /** A value that Go may leave nil: a nil slice, a nil map or a nil pointer is `None`. */
  datatype Option<+T> = None | Some(value: T)

  /** A Go `error`, identified by the text its `Error()` method returns. */
  datatype Error = Error(text: string)

  /** The result of a collaborator that either yields a value or fails with an error. */
  datatype Result<+T> = Ok(value: T) | Failed(error: Error)
}
