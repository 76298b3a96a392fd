/** Sixteen registers with three clocked read ports and a write port that is bypassed to them. */
module RegisterFile {
  import opened Words

  type Regs = r: seq<Word> | |r| == 16 witness seq(16, _ => 0)

  datatype WritePort = WritePort(enable: bool, sel: Nibble, data: Word)

  datatype RegFile = RegFile(regs: Regs, outA: Word, outB: Word, outC: Word)

  function Put(r: Regs, i: Nibble, v: Word): Regs {
    if i == 0 then r else r[i := v]
  }

  /** Register zero always reads as zero. */
  function Get(r: Regs, i: Nibble): Word {
    if i == 0 then 0 else r[i]
  }

  function ReadPort(f: RegFile, w: WritePort, sel: Nibble): Word {
    if w.enable && w.sel == sel && w.sel != 0 then w.data else f.regs[sel]
  }

  function Step(f: RegFile, w: WritePort, a: Nibble, b: Nibble, c: Nibble): RegFile {
    RegFile(if w.enable && w.sel != 0 then f.regs[w.sel := w.data] else f.regs,
            ReadPort(f, w, a), ReadPort(f, w, b), ReadPort(f, w, c))
  }
}
