/** Bytes and 32-bit words. */
module Bytes {
  type Byte = b: nat | b < 256

  const WORD: nat := 0x1_0000_0000

  function LowByte(n: nat): Byte {
    n % 256
  }
}
