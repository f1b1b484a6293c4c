/** Kernel error numbers used by the page-migration engine. Functions return
    0 (MIGRATEPAGE_SUCCESS) or the negated error number, as the C code does. */
module Errno {
  const MIGRATEPAGE_SUCCESS: int := 0

  const EPERM: int := 1
  const ENOENT: int := 2
  const ESRCH: int := 3
  const EIO: int := 5
  const EAGAIN: int := 11
  const ENOMEM: int := 12
  const EACCES: int := 13
  const EFAULT: int := 14
  const EBUSY: int := 16
  const ENODEV: int := 19
  const EINVAL: int := 22
  const ENOSYS: int := 38
}
