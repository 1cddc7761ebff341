/** Fixed-width integers of the source. */
module Integers {
  const U32_RANGE := 0x1_0000_0000
  const U32_MAX := U32_RANGE - 1

  type u32 = x: int | 0 <= x < U32_RANGE
}
