/** Option and Result, the two wrappers the generator's Rust code relies on. */
module Wrappers {

  datatype Option<+T> = None | Some(value: T)

  /** `Result<T, String>` of the generator: an error carries the message text. */
  datatype Result<+T> = Ok(value: T) | Err(error: string)
}
