/** Option and Result, used for the NULL pointers and the negative errno returns of the kernel code. */
module Wrappers {

  /** A possibly-NULL pointer or an absent value. */
  datatype Option<+T> = None | Some(value: T)

  /** A pointer-or-error return (`ERR_PTR`), or a value-or-errno return. */
  datatype Result<+T> = Ok(value: T) | Err(errno: int)
}
