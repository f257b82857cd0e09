/** Failure-carrying values shared by the whole model. */
module Wrappers {

  /** Rust's `Option<T>`. */
  datatype Option<+T> = None | Some(value: T)

  /** Rust's `anyhow::Result<T>`: a value or an error description. */
  datatype Result<+T> = Success(value: T) | Failure(error: string)

  /** What a Rust call does when it may abort: it returns normally, or an
      `expect`/`unwrap` on a missing value panics with the given message. */
  datatype Outcome<+T> = Returned(value: T) | Panicked(message: string)
}
