/** Sizes that the 32-bit x86 machine fixes. */
module Machine {
  const PAGE_SIZE: int := 4096

  /** One more than the largest 32-bit word, and the size of the address space. */
  const WORD_RANGE: int := 0x1_0000_0000
}
