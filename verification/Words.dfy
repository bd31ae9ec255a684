/** The machine integers of the C sources. */
module Words {
  const TWO_TO_32: int := 0x1_0000_0000
  const TWO_TO_64: int := 0x1_0000_0000_0000_0000

  /** `uintptr_t` on a 64-bit target. */
  type Word = x: int | 0 <= x < 0x1_0000_0000_0000_0000

  /** `uint32_t`. */
  type U32 = x: int | 0 <= x < 0x1_0000_0000

  datatype Option<+T> = None | Some(value: T)
}
