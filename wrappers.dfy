/** Option and Result, the two failure-carrying shapes the chat backend uses:
    `null`-or-object lookups, and operations that either return a value or
    throw an `Error` whose message callers inspect. */
module Wrappers {

  datatype Option<+T> = None | Some(value: T)

  /** `Err(message)` stands for a thrown `Error(message)`. */
  datatype Result<+T> = Ok(value: T) | Err(message: string)
}
