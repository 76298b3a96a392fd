/** The single-port RAM behind the memory bus: one-cycle reads, 2048 words. */
module MainMem {
  import opened Words

  const RAM_WORDS: nat := 2048

  type Memory = m: seq<Word> | |m| == 2048 witness seq(2048, _ => 0)

  datatype AccessSize = Size32 | Size16 | Size8

  /** The registered bus outputs of the processor; the request line is always up. */
  datatype Bus = Bus(data: Word, addr: Word, write: bool, size: AccessSize)

  datatype Ram = Ram(words: Memory, out: Word)

  /** Word address: the byte address shifted right and cut to eleven bits. */
  function WordIndex(addr: Word): (i: nat)
    ensures i < 2048
  {
    addr / 4 % 2048
  }

  function Load(m: Memory, addr: Word): Word {
    m[WordIndex(addr)]
  }

  function Store(m: Memory, addr: Word, data: Word): Memory {
    m[WordIndex(addr) := data]
  }

  /** One edge: the size is ignored, and the read port shows the word as it was before a write. */
  function Step(r: Ram, b: Bus): Ram {
    Ram(if b.write then Store(r.words, b.addr, b.data) else r.words, Load(r.words, b.addr))
  }
}
