/** What several models share: optional values and 32-bit words. */
module Basics {

  datatype Option<+T> = None | Some(value: T)

  const WRAP := 0x1_0000_0000

  /** A 32-bit word as a number. */
  type U32 = x: int | 0 <= x < WRAP
}
