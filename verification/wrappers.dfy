/** The failure-carrying return type the validators use. */
module Wrappers {

  /** Rust's Result<T, E>: either a value or an error. */
  datatype Result<+T, +E> = Ok(value: T) | Err(error: E)
}
