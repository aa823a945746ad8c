/** Bytes, as the `u8` of the source. */
module Bytes {
  /** A `u8`. */
  type U8 = n: nat | n < 256
}
