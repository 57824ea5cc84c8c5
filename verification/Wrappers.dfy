// Result types shared by every module: the source's `null` / `undefined`
// becomes `None`, and its discriminated unions become `Result`.
module Wrappers {
  datatype Option<+T> = None | Some(value: T)

  datatype Result<+T, +E> = Ok(value: T) | Err(error: E)
}
