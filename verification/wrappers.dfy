/** The two failure-carrying shapes the cracker's code returns: an optional
    value (Rust's `Option`) and a value-or-error (anyhow's `Result`, whose
    error is reduced to its message). */
module Wrappers {

  datatype Option<+T> = None | Some(value: T)

  datatype Result<+T> = Ok(value: T) | Err(message: string)

  function Min(a: int, b: int): int {
    if a <= b then a else b
  }

  function Max(a: int, b: int): int {
    if a <= b then b else a
  }
}
