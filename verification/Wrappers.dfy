/** A value that may be absent, and a value or the reason there is none. */
module Wrappers {
  datatype Option<T> = None | Some(value: T)
  datatype Result<T> = Ok(value: T) | Err(reason: string)
}
