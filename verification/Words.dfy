/** 32-bit words as numbers. */
module Words {
  const U32: int := 0x1_0000_0000

  type Word = n: nat | n < 0x1_0000_0000

  /** The word as an int32_t. */
  function Signed(w: Word): int {
    if w < 0x8000_0000 then w else w - U32
  }
}
