/** The integer widths of the machine: what is kept of a result that does not fit. */
module Machine {
  const INT_MAX := 0x7fffffff

  predicate IsInt32(x: int) {
    -0x8000_0000 <= x <= INT_MAX
  }

  /** A 32-bit result as it wraps on two's complement machines. */
  function Wrap32(x: int): int {
    (x + 0x8000_0000) % 0x1_0000_0000 - 0x8000_0000
  }

  /** The value kept of x in a signed 16-bit field. */
  function Wrap16(x: int): int {
    (x + 0x8000) % 0x1_0000 - 0x8000
  }
}
