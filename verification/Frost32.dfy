/**
 * The processor with its RAM as one object. The clocked blocks read the
 * registers as they are before the edge and hand back the values that land
 * after it; `PosEdge` is proved to be `Pipeline.Step`.
 */
module Frost32 {
  import opened Words
  import opened InstrDecoder
  import opened MainMem
  import opened RegisterFile
  import opened Stages
  import opened Pipeline
  import opened Hardware
  import Multiplier
  import Divider

  class Frost32System {
    const g: Config
    const bank: RegisterBank
    const mul: Multiplier32
    const div: NonRestoringDivider
    const ram: SinglePortRam

    // decode stage
    var stallCounter: nat
    var stallState: StallState
    var ex: Latch
    var exIreta: Word
    var exIdsta: Word
    // program counter and special purpose registers
    var pc: Word
    var pcVal: Word
    var ireta: Word
    var idsta: Word
    var ie: bool
    var flags: Flags
    // bus, units and write back
    var bus: Bus
    var mulIn: Multiplier.MulIn
    var divIn: Divider.DivIn
    var slot0: Slot
    var slot1: Slot
    var port: WritePort

    ghost predicate Valid() {
      bank.Valid() && ram.Valid() && bank.regs != ram.mem
    }

    function CoreValue(): Core
      reads this, mul, div, ram, ram.mem
      requires Valid()
    {
      Core(stallCounter, stallState, pc, pcVal, ireta, idsta, ie, flags, ex, exIreta, exIdsta,
           bus, ram.Value(), mulIn, mul.Value(), divIn, div.Value())
    }

    function Value(): Sys
      reads this, bank, bank.regs, mul, div, ram, ram.mem
      requires Valid()
    {
      Sys(CoreValue(), bank.Value(), port, slot0, slot1)
    }

    constructor (config: Config, image: Memory)
      ensures Valid() && g == config && Value() == Pipeline.Reset(image)
    {
      g := config;
      bank := new RegisterBank();
      mul := new Multiplier32();
      div := new NonRestoringDivider();
      ram := new SinglePortRam(image);
      stallCounter, stallState := 2, StInit;
      ex, exIreta, exIdsta := Latch(0, NOP, 0), 0, 0;
      pc, pcVal, ireta, idsta, ie, flags := 0, 0, 0, 0, false, NO_FLAGS;
      bus := Bus(0, 0, false, Size32);
      mulIn, divIn := Multiplier.RESET_IN, Divider.RESET_IN;
      slot0, slot1, port := Slot(0, 0), Slot(0, 0), WritePort(false, 0, 0);
    }

    /** One forwarding multiplexer. */
    method ForwardedOperand(idx: Nibble, read: Word) returns (v: Word)
      requires Valid()
      ensures v == Forwarded(Value(), idx, read)
    {
      if idx == 0 {
        v := 0;
      } else if idx == slot0.idx {
        v := slot0.data;
      } else if idx == slot1.idx {
        v := slot1.data;
      } else {
        v := read;
      }
    }

    method FetchBlock(o: Ops, d: Fields, accepts: bool) returns (next: Fetched)
      requires Valid() && d == Decoded(CoreValue())
      ensures next == Fetch(CoreValue(), o, accepts)
    {
      next := Fetched(pc, pcVal, bus, flags);
      var target := pc;
      var load := false;
      if stallCounter != 0 {
        if stallCounter == 1 {
          target, load := Add(pc, 4), true;
        }
        match stallState {
          case StOtherInterruptsStuff =>
            if stallCounter == 2 { target, load := Add(ex.pc, 4), true; }
          case StMemAccess =>
            if stallCounter == 3 {
              next := MemoryRequest(o);
            } else if stallCounter == 2 {
              target, load := Add(ex.pc, 4), true;
            }
          case StCtrlFlowBranch =>
            if stallCounter == 3 {
              next := next.(flags := Compare(o));
            } else if stallCounter == 2 {
              target, load := Add(ex.pc, 4), true;
              if BranchHolds(ex.f.cond, o, flags, ie) {
                target := Add(target, SignExtend(ex.f.imm));
              }
            }
          case StCtrlFlowJumpCall =>
            if stallCounter == 3 {
              next := next.(flags := Compare(o));
            } else if stallCounter == 2 {
              target, load := Add(ex.pc, 4), true;
              if Holds(ex.f.cond, o, flags) {
                target := o.c;
              }
            }
          case StInit =>
            if stallCounter == 2 { target, load := 0, true; }
          case StReti =>
            if stallCounter == 2 { target, load := ireta, true; }
          case StRespondToInterrupt =>
            if stallCounter == 2 { target, load := idsta, true; }
          case StMulDiv =>
            if stallCounter == 2 { target, load := Add(ex.pc, 4), true; }
          case StOther =>
        }
      } else if !accepts && !d.stalls {
        target, load := Add(pc, 4), true;
      }
      if load {
        next := Fetched(target, pc, Bus(0, target, false, Size32), flags);
      }
    }

    /** The data access of a load or a store. */
    method MemoryRequest(o: Ops) returns (next: Fetched)
      requires Valid()
      ensures next == MemoryCycle(CoreValue(), o)
    {
      var addr := if ex.f.op >= 8 then Add(o.b, SignExtend(ex.f.imm)) else Add(o.b, o.c);
      var b := Bus(0, addr, false, Size32);
      match ex.f.ldst {
        case 0 =>
        case 1 => b := b.(size := Size16);
        case 2 => b := b.(size := Size16);
        case 3 => b := b.(size := Size8);
        case 4 => b := b.(size := Size8);
        case 5 => b := Bus(o.a, addr, true, Size32);
        case 6 => b := Bus(o.a, addr, true, Size16);
        case _ => b := Bus(o.a, addr, true, Size8);
      }
      next := Fetched(pc, pcVal, b, flags);
    }

    method DecodeBlock(o: Ops, word: Word, d: Fields, accepts: bool) returns (next: Issue)
      requires Valid() && word == DecoderInput(CoreValue()) && d == Decode(word)
      ensures next == DecodeStage(g, CoreValue(), o, accepts)
    {
      next := Issue(stallCounter, stallState, ireta, idsta, ie, ex, exIreta, exIdsta);
      if stallCounter != 0 {
        next := next.(counter := stallCounter - 1);
        if stallCounter == 1 {
          next := next.(ex := Latch(ex.raw, Fields(0, 0, 0, 0, 0, ex.f.imm, 0, false, 0), ex.pc));
        }
        if stallCounter == 2 {
          match stallState {
            case StOtherInterruptsStuff =>
              if ex.f.op == OP_CPY_TO_IRETA {
                next := next.(ireta := o.a);
              } else if ex.f.op == OP_CPY_TO_IDSTA {
                next := next.(idsta := o.a);
              } else {
                next := next.(ie := d.op == OP_EI);
              }
            case StReti => next := next.(ie := true);
            case StRespondToInterrupt => next := next.(ie := false);
            case _ =>
          }
        }
      } else if !accepts {
        if d.stalls {
          next := next.(counter := StallFor(g, d), state := StallStateFor(d, stallState));
        }
        next := next.(ex := Latch(word, d, pcVal), exIreta := ireta, exIdsta := idsta);
      } else {
        next := next.(ireta := pcVal, state := StRespondToInterrupt, counter := STALL_RESPOND,
                      ex := Latch(ex.raw, Fields(0, 0, 0, 0, 0, ex.f.imm, 0, false, 0), ex.pc));
      }
    }

    method ExecuteBlock(o: Ops) returns (next: Executed)
      requires Valid()
      ensures next == Execute(g, CoreValue(), o)
    {
      var f := ex.f;
      var wb := Stop;
      var nMul, nDiv := mulIn, divIn;
      var multiply := (f.group == 0 && f.op == OP_MUL) || (f.group == 1 && f.op == OP_MULI);
      var divide := f.group == 0 && (f.op == OP_UDIV || f.op == OP_SDIV);
      if multiply {
        if stallCounter == STALL_MULTIPLY {
          nMul := Multiplier.MulIn(true, o.b, if f.group == 0 then o.c else f.imm);
          wb := Forward(f.ra, 0);
        } else {
          nMul := nMul.(enable := false);
          wb := Forward(f.ra, mul.prod);
        }
      } else if divide {
        if stallCounter == StallDivide(g) {
          nDiv := Divider.DivIn(true, f.op == OP_SDIV, o.b, o.c);
          wb := Forward(f.ra, 0);
        } else {
          nDiv := nDiv.(enable := false);
          wb := Forward(f.ra, if divIn.denom != 0 then div.ctl.quot else 0);
        }
      } else {
        wb := PlainWrite(o);
      }
      next := Executed(wb, nMul, nDiv);
    }

    /** The instructions that do not use the multiplier or the divider. */
    method PlainWrite(o: Ops) returns (wb: WriteBack)
      requires Valid()
      requires !(ex.f.group == 0 && ex.f.op in {OP_MUL, OP_UDIV, OP_SDIV})
      requires !(ex.f.group == 1 && ex.f.op == OP_MULI)
      ensures wb == Execute(g, CoreValue(), o).wb && Execute(g, CoreValue(), o) == Plain(CoreValue(), wb)
    {
      var f := ex.f;
      wb := Stop;
      match f.group {
        case 0 => wb := Forward(f.ra, AluOut(f, o));
        case 1 =>
          if f.op == OP_CPYHI {
            wb := Forward(f.ra, Cpyhi(f.imm, o.a));
          } else if f.op == OP_ADDSI {
            wb := Forward(f.ra, Add(ex.pc, SignExtend(f.imm)));
          } else {
            wb := Forward(f.ra, AluOut(f, o));
          }
        case 4 =>
          if f.cond < 10 {
            wb := Forward(if Holds(f.cond, o, flags) then LR else 0, Add(ex.pc, 4));
          }
        case 5 =>
          if stallCounter == 1 && f.ldst < 5 {
            wb := Forward(f.ra, LoadedValue(f.ldst, ram.out));
          }
        case 6 =>
          if f.op == OP_CPY_FROM_IRETA {
            wb := Forward(f.ra, exIreta);
          } else if f.op == OP_CPY_FROM_IDSTA {
            wb := Forward(f.ra, exIdsta);
          }
        case 2 =>
        case 3 =>
        case _ => wb := Hold;
      }
    }

    /** The clocked blocks read the registers as they are before the edge; their results make up the next state. */
    method SampleStages(interrupt: bool) returns (d: Fields, fe: Fetched, de: Issue, xe: Executed)
      requires Valid()
      ensures Pipeline.Step(g, Value(), interrupt)
              == Sys(Core(de.counter, de.state, fe.pc, fe.pcVal, de.ireta, de.idsta, de.ie, fe.flags,
                          de.ex, de.exIreta, de.exIdsta, fe.bus, MainMem.Step(ram.Value(), bus),
                          xe.mulIn, Multiplier.Step(mul.Value(), mulIn),
                          xe.divIn, Divider.Step(div.Value(), divIn, g.k, g.iterFirst)),
                     RegisterFile.Step(bank.Value(), port, d.ra, d.rb, d.rc),
                     WritePort(true, slot0.idx, slot0.data), NextSlot(slot0, xe.wb), slot0)
    {
      var a := ForwardedOperand(ex.f.ra, bank.outA);
      var b := ForwardedOperand(ex.f.rb, bank.outB);
      var c := ForwardedOperand(ex.f.rc, bank.outC);
      var o := Ops(a, b, c);
      var word := if stallCounter != 0 then ex.raw else ram.out;
      var accepts := stallCounter == 0 && ie && interrupt;
      d := Decode(word);
      fe := FetchBlock(o, d, accepts);
      de := DecodeBlock(o, word, d, accepts);
      xe := ExecuteBlock(o);
    }

    /** The instantiated modules see the registered inputs of before the edge. */
    method ClockUnits(d: Fields)
      requires Valid()
      modifies bank, bank.regs, mul, div, ram, ram.mem
      ensures bank.Value() == RegisterFile.Step(old(bank.Value()), port, d.ra, d.rb, d.rc)
      ensures mul.Value() == Multiplier.Step(old(mul.Value()), mulIn)
      ensures div.Value() == Divider.Step(old(div.Value()), divIn, g.k, g.iterFirst)
      ensures ram.Value() == MainMem.Step(old(ram.Value()), bus)
    {
      bank.PosEdge(port, d.ra, d.rb, d.rc);
      mul.PosEdge(mulIn);
      div.PosEdge(divIn, g.k, g.iterFirst);
      ram.PosEdge(bus);
    }

    // The non-blocking writes of each block land.

    method LandFetch(fe: Fetched)
      modifies this`pc, this`pcVal, this`bus, this`flags
      ensures pc == fe.pc && pcVal == fe.pcVal && bus == fe.bus && flags == fe.flags
    {
      pc, pcVal, bus, flags := fe.pc, fe.pcVal, fe.bus, fe.flags;
    }

    method LandDecode(de: Issue)
      modifies this`stallCounter, this`stallState, this`ireta, this`idsta, this`ie, this`ex, this`exIreta, this`exIdsta
      ensures stallCounter == de.counter && stallState == de.state
      ensures ireta == de.ireta && idsta == de.idsta && ie == de.ie
      ensures ex == de.ex && exIreta == de.exIreta && exIdsta == de.exIdsta
    {
      stallCounter, stallState := de.counter, de.state;
      ireta, idsta, ie := de.ireta, de.idsta, de.ie;
      ex, exIreta, exIdsta := de.ex, de.exIreta, de.exIdsta;
    }

    method LandExecuteAndWriteBack(xe: Executed)
      modifies this`port, this`slot0, this`slot1, this`mulIn, this`divIn
      ensures port == WritePort(true, old(slot0.idx), old(slot0.data))
      ensures slot0 == NextSlot(old(slot0), xe.wb) && slot1 == old(slot0)
      ensures mulIn == xe.mulIn && divIn == xe.divIn
    {
      port := WritePort(true, slot0.idx, slot0.data);
      slot1 := slot0;
      slot0 := NextSlot(slot0, xe.wb);
      mulIn, divIn := xe.mulIn, xe.divIn;
    }

    method Land(fe: Fetched, de: Issue, xe: Executed)
      requires Valid()
      modifies this
      ensures port == WritePort(true, old(slot0.idx), old(slot0.data))
      ensures slot0 == NextSlot(old(slot0), xe.wb) && slot1 == old(slot0)
      ensures CoreValue() == Core(de.counter, de.state, fe.pc, fe.pcVal, de.ireta, de.idsta, de.ie, fe.flags,
                                  de.ex, de.exIreta, de.exIdsta, fe.bus, old(ram.Value()),
                                  xe.mulIn, old(mul.Value()), xe.divIn, old(div.Value()))
      ensures bank.Value() == old(bank.Value())
    {
      LandFetch(fe);
      LandDecode(de);
      LandExecuteAndWriteBack(xe);
    }

    /** One rising edge. Everything is sampled before anything is written. */
    method PosEdge(interrupt: bool)
      requires Valid()
      modifies this, bank, bank.regs, mul, div, ram, ram.mem
      ensures Valid() && Value() == Pipeline.Step(g, old(Value()), interrupt)
    {
      var d, fe, de, xe := SampleStages(interrupt);
      ClockUnits(d);
      Land(fe, de, xe);
    }
  }
}
