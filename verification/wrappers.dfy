/** Result-like datatypes shared by the whole model. */
module Wrappers {

  /** Rust's `Option<T>`. */
  datatype Option<+T> = None | Some(value: T)

  /** Rust's `Result<T, &str>`: a recoverable error handed back to the caller. */
  datatype Result<+T> = Ok(value: T) | Err(error: string)

  /** How a call ends: it returns a value, or it panics (an `expect`, an
      `assert!`, an out-of-range index) and the program aborts with a message. */
  datatype Outcome<+T> = Returned(value: T) | Panicked(message: string)
}
