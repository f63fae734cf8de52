/** What several components share: optional values, error numbers and 0-or-1 counts. */
module Common {
  datatype Option<T> = None | Some(value: T)

  const ENOENT: int := -2
  const EBADF: int := -9
  const EAGAIN: int := -11
  const ENOMEM: int := -12
  const EFAULT: int := -14
  const EEXIST: int := -17
  const EBUSY: int := -16
  const EINVAL: int := -22
  const E2BIG: int := -7
  const ENOSPC: int := -28
  const EDOM: int := -33
  const ERANGE: int := -34
  const EBADSLT: int := -57
  const EOVERFLOW: int := -75
  const EXFULL: int := -54
  const EMSGSIZE: int := -90
  const EALREADY: int := -114

  function One(b: bool): nat { if b then 1 else 0 }
}
