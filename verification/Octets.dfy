/** Unsigned octets and 16-bit words as bounded integers. */
module Octets {

  type Byte = x: int | 0 <= x < 256
  type Word = x: int | 0 <= x < 0x1_0000

  /** The two octets of a word exchanged. */
  function Swapped(w: Word): Word {
    (w % 256) * 256 + w / 256
  }
}
