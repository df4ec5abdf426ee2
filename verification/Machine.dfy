/** Sizes of the machine's 64-bit integers. */
module Machine {

  const MAX_INT64: int := 0x7FFF_FFFF_FFFF_FFFF
  const TWO63: int := 0x8000_0000_0000_0000
  const TWO64: int := 0x1_0000_0000_0000_0000
}
