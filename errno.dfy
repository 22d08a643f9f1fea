/** Kernel error numbers returned (negated) by the callbacks, and small integer helpers. */
module Errno {

  const E2BIG: int := 7
  const ENOMEM: int := 12
  const EFAULT: int := 14
  const EBUSY: int := 16
  const ENODEV: int := 19
  const EINVAL: int := 22
  const ENOSPC: int := 28
  const ERANGE: int := 34
  /** Kernel-internal "restart the system call" code, returned when a lock wait is interrupted. */
  const ERESTARTSYS: int := 512

  /** The kernel's min() on two non-negative sizes. */
  function Min(a: int, b: int): (m: int)
    ensures m <= a && m <= b
    ensures m == a || m == b
  {
    if a <= b then a else b
  }

  type u8 = x: int | 0 <= x < 0x100
  type u16 = x: int | 0 <= x < 0x1_0000
  type u32 = x: int | 0 <= x < 0x1_0000_0000

  const I32Min: int := -0x8000_0000
  const I32Max: int := 0x7fff_ffff

  type i32 = x: int | I32Min <= x <= I32Max
}
