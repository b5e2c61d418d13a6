/** Unsigned 64-bit integers. */
module Words {

  const WORD: nat := 0x1_0000_0000_0000_0000

  type Word = x: int | 0 <= x < WORD

  /** Addition and subtraction wrap around. */
  function WrapAdd(a: Word, b: Word): Word {
    if a + b < WORD then a + b else a + b - WORD
  }

  function WrapSub(a: Word, b: Word): Word {
    if a >= b then a - b else a - b + WORD
  }
}
