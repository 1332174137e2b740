// The two outcome types shared by the kernels: a value that may be absent
// (Python's None, JavaScript's null) and a call that may raise.
module Wrappers {
  datatype Option<+T> = None | Some(value: T)

  datatype Result<+T, +E> = Ok(value: T) | Err(error: E)
}
