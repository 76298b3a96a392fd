/**
 * The non-restoring divider as clocked hardware.
 *
 * Two blocks run at every edge. The iteration block uses blocking writes on
 * `Work`; the control block uses non-blocking writes on `Ctl` and reads
 * `Work`, so it sees either the old or the new `Work` depending on which
 * block the simulator runs first. `iterFirst` is that choice.
 */
module Divider {
  import opened Words

  const TWO64: int := 0x1_0000_0000_0000_0000
  const TWO65: int := 0x2_0000_0000_0000_0000

  type Wide = n: int | 0 <= n < 0x2_0000_0000_0000_0000
  type Bits32 = b: seq<bool> | |b| == 32 witness seq(32, _ => false)

  /** The iterations per clock that the build options can select. */
  type StepsPerClock = k: nat | k == 1 || k == 2 || k == 4 witness 1

  datatype DivIn = DivIn(enable: bool, signed: bool, num: Word, denom: Word)

  datatype Work = Work(quot: Bits32, counter: Byte, P: Wide, D: Wide)

  datatype Ctl = Ctl(
    stateCounter: Byte, numBuf: Word, denomBuf: Word,
    signed: bool, numNeg: bool, denomNeg: bool,
    started: bool, ended: bool, quot2: Word, rem2: Word,
    quot: Word, rem: Word, canAccept: bool, ready: bool)

  datatype DivUnit = DivUnit(work: Work, ctl: Ctl)

  function ZeroBits(): Bits32 {
    seq(32, _ => false)
  }

  const RESET_IN: DivIn := DivIn(false, false, 0, 0)

  function ResetUnit(): DivUnit {
    DivUnit(Work(ZeroBits(), 0, 0, 0),
            Ctl(0, 0, 0, false, false, false, true, true, 0, 0, 0, 0, true, false))
  }

  /** Writing a bit outside the vector is ignored. */
  function SetBit(q: Bits32, i: Byte): Bits32 {
    if i < 32 then q[i := true] else q
  }

  function Iterate(w: Work, i: Byte): Work {
    if w.P < TWO64 || w.P == 0 then
      w.(quot := SetBit(w.quot, i), P := (2 * w.P - w.D) % TWO65)
    else
      w.(P := (2 * w.P + w.D) % TWO65)
  }

  function NextIndex(i: Byte): Byte {
    (i - 1) % 256
  }

  function IterateDown(w: Work, i: Byte, n: nat): Work
    decreases n
  {
    if n == 0 then w else IterateDown(Iterate(w, i), NextIndex(i), n - 1)
  }

  /** The iteration block. */
  function WorkStep(d: DivUnit, k: StepsPerClock): Work {
    if d.ctl.stateCounter >= 128 then
      Work(ZeroBits(), 31, d.ctl.numBuf, d.ctl.denomBuf * 0x1_0000_0000)
    else if !d.ctl.canAccept then
      IterateDown(d.work, d.work.counter, k).(counter := (d.work.counter - k) % 256)
    else
      d.work
  }

  /** The number held in the quotient bits: the top `j` of them read as an integer. */
  function TopBits(q: Bits32, j: nat): (v: nat)
    requires j <= 32
    ensures v < Pow2(j)
  {
    if j == 0 then 0 else 2 * TopBits(q, j - 1) + if q[32 - j] then 1 else 0
  }

  function Value(q: Bits32): Word {
    Pow2At32();
    TopBits(q, 32)
  }

  function Negate(w: Word): (r: Word)
    ensures r == Wrap(0 - w)
  {
    if w == 0 then 0 else 0x1_0000_0000 - w
  }

  /** The digits are 1 and -1, so the quotient is the bits minus their complement. */
  function FromDigits(q: Bits32): Word {
    Wrap(Value(q) - (0xFFFF_FFFF - Value(q)))
  }

  /** The control block, reading `w` for the variables of the other block. */
  function CtlStep(c: Ctl, w: Work, i: DivIn): Ctl {
    if i.enable && c.canAccept then
      c.(canAccept := false, ready := false, stateCounter := 255,
         numBuf := i.num, denomBuf := i.denom, signed := i.signed,
         numNeg := i.num >= 0x8000_0000, denomNeg := i.denom >= 0x8000_0000,
         started := false, ended := false)
    else if !c.started then
      c.(started := true,
         numBuf := if c.signed && c.numNeg then Negate(c.numBuf) else c.numBuf,
         denomBuf := if c.signed && c.denomNeg then Negate(c.denomBuf) else c.denomBuf)
    else if !c.canAccept then
      if w.counter < 128 then
        c.(stateCounter := (c.stateCounter + 1) % 256, ended := false)
      else if !c.ended then
        var low := w.P >= TWO64;
        var q := if low then Wrap(FromDigits(w.quot) - 1) else FromDigits(w.quot);
        var r := Wrap((if low then (w.P + w.D) % TWO65 else w.P) / 0x1_0000_0000);
        c.(ended := true,
           quot2 := if c.signed && c.numNeg != c.denomNeg then Negate(q) else q,
           rem2 := if c.signed && c.numNeg then Negate(r) else r)
      else
        c.(canAccept := true, stateCounter := 255, ready := true, quot := c.quot2, rem := c.rem2)
    else
      c
  }

  /** One clock edge of the whole unit. */
  function Step(d: DivUnit, i: DivIn, k: StepsPerClock, iterFirst: bool): DivUnit {
    var w := WorkStep(d, k);
    DivUnit(w, CtlStep(d.ctl, if iterFirst then w else d.work, i))
  }

  predicate Idle(d: DivUnit) {
    d.ctl.canAccept && d.ctl.started
  }
}
