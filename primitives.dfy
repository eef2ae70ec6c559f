/** Java's fixed-width integer types, as far as the client uses them. */
module Primitives {

  /** An unsigned octet, as produced by `String.getBytes` (Java's `byte` read unsigned). */
  newtype byte = x: int | 0 <= x < 0x100

  /** Java `int`: IPMI ids and poll frequencies. */
  newtype int32 = x: int | -0x8000_0000 <= x < 0x8000_0000

  /** Java `long`: epoch milliseconds. */
  newtype int64 = x: int | -0x8000_0000_0000_0000 <= x < 0x8000_0000_0000_0000
}
