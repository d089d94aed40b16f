/** The optional value and the value-or-fatal-error outcome shared by the modules of this project. */
module Wrappers {

  datatype Option<T> = None | Some(value: T)

  /** The outcome of an operation that either yields a value or stops with a fatal error. */
  datatype Result<T> = Ok(value: T) | Fatal(message: string)
}
