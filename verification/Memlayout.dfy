/** Where things are (kernel/memlayout.h), and the result of a call that may panic. */
module Memlayout {
  const PAGE_SIZE: nat := 4096
  const SPLIT: nat := 0x3f_0000_0000
  const KERNBASE: nat := SPLIT
  const KERNPHY: nat := 0x8000_0000
  const MMIOBASE: nat := KERNBASE + 0x4000_0000
  const MMIOPHY: nat := 0
  const USERSTACK: nat := 0x3e_f000_0000
  const USERSTACKMIN: nat := 0x3e_e000_0000
  const PHYSIZE: nat := 128 * 1024 * 1024
  const KERN_PHYBASE: nat := KERNBASE
  const KERN_PHYSTOP: nat := KERN_PHYBASE + PHYSIZE
  /** The number of pages from KERN_PHYBASE to KERN_PHYSTOP. */
  const PAGES: nat := 32768

  /** Error numbers (kernel/errno.h); calls return them negated. */
  const ENOENT: int := 2
  const EFAULT: int := 14
  const EINVAL: int := 22

  type u8 = b: int | 0 <= b < 256

  datatype Option<+T> = None | Some(value: T)

  datatype PanicReason = BadOrder | OutOfMemory | Misaligned | TooDeep

  /** What a call returns; after a panic the kernel stands still. */
  datatype Outcome<+T> = Ok(value: T) | Panic(reason: PanicReason)

  /** The number of a page, counted from KERN_PHYBASE. */
  function PageOf(address: nat): nat
    requires address >= KERN_PHYBASE
  {
    (address - KERN_PHYBASE) / PAGE_SIZE
  }

  function PageAddress(page: nat): nat {
    KERN_PHYBASE + PAGE_SIZE * page
  }

  /** PA and VA: between kernel and physical addresses. */
  function Pa(address: nat): nat
    requires address >= KERNBASE
  {
    address - KERNBASE + KERNPHY
  }
}
