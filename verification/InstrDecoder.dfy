/** The instruction decoder: one combinational case from the word to its fields. */
module InstrDecoder {
  import opened Words

  datatype Fields = Fields(
    group: Nibble, ra: Nibble, rb: Nibble, rc: Nibble, op: Nibble,
    imm: Half, ldst: nat, stalls: bool, cond: Nibble)

  const NOP: Fields := Fields(0, 0, 0, 0, 0, 0, 0, false, 0)

  const OP_MUL: Nibble := 6
  const OP_UDIV: Nibble := 14
  const OP_SDIV: Nibble := 15
  const OP_MULI: Nibble := 6
  const OP_ADDSI: Nibble := 14
  const OP_CPYHI: Nibble := 15
  const OP_EI: Nibble := 0
  const OP_DI: Nibble := 1
  const OP_CPY_TO_IRETA: Nibble := 2
  const OP_CPY_FROM_IRETA: Nibble := 3
  const OP_CPY_TO_IDSTA: Nibble := 4
  const OP_CPY_FROM_IDSTA: Nibble := 5
  const OP_RETI: Nibble := 6

  function GroupOf(w: Word): Nibble { w / 0x1000_0000 }
  function RaOf(w: Word): Nibble { w / 0x100_0000 % 16 }
  function RbOf(w: Word): Nibble { w / 0x10_0000 % 16 }
  function RcOf(w: Word): Nibble { w / 0x1_0000 % 16 }
  function LowOpOf(w: Word): Nibble { w % 16 }
  function Imm16Of(w: Word): Half { w % 0x1_0000 }
  function Imm12Of(w: Word): (i: int) ensures 0 <= i < 4096 { w / 16 % 4096 }

  /** The 12-bit immediate with its top bit replicated into the four missing bits. */
  function Extend12(i: int): Half
    requires 0 <= i < 4096
  {
    if i < 0x800 then i else i + 0xF000
  }

  function Decode(w: Word): Fields {
    match GroupOf(w)
    case 0 =>
      var op := LowOpOf(w);
      Fields(0, RaOf(w), RbOf(w), RcOf(w), op, 0, 0, op == OP_MUL || op == OP_UDIV || op == OP_SDIV, 0)
    case 1 =>
      var op := RcOf(w);
      Fields(1, RaOf(w), RbOf(w), 0, op, Imm16Of(w), 0, op == OP_MULI, 0)
    case 2 =>
      var op := RcOf(w);
      Fields(2, RaOf(w), RbOf(w), 0, op, Imm16Of(w), 0, op < 12, op)
    case 3 =>
      var op := LowOpOf(w);
      Fields(3, RaOf(w), RbOf(w), RcOf(w), op, 0, 0, LessByBorrow(op, 10), op)
    case 4 =>
      var op := LowOpOf(w);
      Fields(4, RaOf(w), RbOf(w), RcOf(w), op, 0, 0, LessByBorrow(op, 10), op)
    case 5 =>
      var op := LowOpOf(w);
      Fields(5, RaOf(w), RbOf(w), RcOf(w), op, Extend12(Imm12Of(w)), op % 8, true, 0)
    case 6 =>
      var op := LowOpOf(w);
      Fields(6, RaOf(w), RbOf(w), RcOf(w), op, 0, 0,
             op == OP_CPY_TO_IRETA || op == OP_CPY_TO_IDSTA || op == OP_RETI || op == OP_EI || op == OP_DI, 0)
    case _ => NOP
  }

  /** The comparator's carry-out: the sum is five bits wide, so both operands are extended before the complement. */
  function LessByBorrow(a: Nibble, b: Nibble): (lt: bool)
    ensures lt == (a < b)
  {
    (a + (31 - b) + 1) % 32 / 16 == 1
  }

  /** What every decoded word satisfies, whatever its bits. */
  ghost predicate WellFormed(i: Fields) {
    && i.group <= 6
    && i.ldst < 8
    && (i.group == 0 ==> (i.stalls <==> i.op in {OP_MUL, OP_UDIV, OP_SDIV}))
    && (i.group == 1 ==> (i.stalls <==> i.op == OP_MULI) && i.rc == 0 && i.cond == 0)
    && (i.group == 2 ==> (i.stalls <==> i.op < 12) && i.cond == i.op)
    && (i.group in {3, 4} ==> (i.stalls <==> i.op < 10) && i.cond == i.op)
    && (i.group == 5 ==> i.stalls && i.ldst == i.op % 8)
    && (i.group == 6 ==> (i.stalls <==> i.op in {OP_EI, OP_DI, OP_CPY_TO_IRETA, OP_CPY_TO_IDSTA, OP_RETI}))
  }

  lemma DecodeWellFormed(w: Word)
    ensures WellFormed(Decode(w))
  {
  }
}
