/** Machine words as bounded integers, with the width of every operation written out. */
module Words {
  type Word = w: int | 0 <= w < 0x1_0000_0000
  type Half = h: int | 0 <= h < 0x1_0000
  type Byte = b: int | 0 <= b < 0x100
  type Nibble = n: int | 0 <= n < 16

  /** Truncation of any integer to 32 bits. */
  function Wrap(n: int): Word {
    n % 0x1_0000_0000
  }

  function Add(a: Word, b: Word): Word {
    Wrap(a + b)
  }

  /** The value of a word read as a two's complement number. */
  function Signed(w: Word): (n: int)
    ensures -0x8000_0000 <= n < 0x8000_0000 && Wrap(n) == w
  {
    if w < 0x8000_0000 then w else w - 0x1_0000_0000
  }

  /** A 16-bit field replicated from its top bit into 32 bits. */
  function SignExtend(h: Half): (w: Word)
    ensures Signed(w) == if h < 0x8000 then h else h - 0x1_0000
  {
    if h < 0x8000 then h else h + 0xFFFF_0000
  }

  function Pow2(n: nat): (p: nat)
    ensures p > 0
  {
    if n == 0 then 1 else 2 * Pow2(n - 1)
  }

  lemma Pow2At32()
    ensures Pow2(32) == 0x1_0000_0000
  {
    assert Pow2(8) == 0x100;
    assert Pow2(16) == 0x1_0000;
    assert Pow2(24) == 0x100_0000;
  }
}
