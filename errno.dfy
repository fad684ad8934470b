/** Kernel error numbers and the small wrapper types shared by both models. */
module Errno {
  const ECHILD: int := 10
  const ENOMEM: int := 12
  const EINVAL: int := 22
  const ENOKEY: int := 126

  datatype Option<+T> = None | Some(value: T)

  /** A pointer that is either a real object or an ERR_PTR-encoded negative errno. */
  datatype Ptr<+T> = Ok(value: T) | ErrPtr(errno: int)
}
