/** The kernel's memory layout. */
module Config {
  const WORD: nat := 0x1_0000_0000
  const PAGE_SIZE: nat := 0x1000
  const KERNEL_VSTART: nat := 0xC000_0000
  const BOOT_KERNEL_START: nat := 0x100_0000
  const MAX_FRAMES: nat := 0x10_0000  // the page frames that 32-bit addresses reach
}
