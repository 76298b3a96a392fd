/**
 * The clocked modules as objects. Each `PosEdge` is one rising clock edge and
 * is proved to be the step function that the theorems are about.
 */
module Hardware {
  import opened Words
  import opened MainMem
  import opened RegisterFile
  import opened Stages
  import opened Pipeline
  import Mult = Multiplier
  import Div = Divider

  class Multiplier32 {
    var state: nat
    var x: Word
    var y: Word
    var x0y0: Word
    var x1y0: Word
    var x0y1: Word
    var canAccept: bool
    var ready: bool
    var prod: Word

    function Value(): Mult.MulUnit
      reads this
    {
      Mult.MulUnit(state, x, y, x0y0, x1y0, x0y1, canAccept, ready, prod)
    }

    constructor ()
      ensures Value() == Mult.RESET_UNIT
    {
      state, x, y := 0, 0, 0;
      x0y0, x1y0, x0y1 := 0, 0, 0;
      canAccept, ready, prod := true, false, 0;
    }

    method PosEdge(i: Mult.MulIn)
      modifies this
      ensures Value() == Mult.Step(old(Value()), i)
    {
      if i.enable && canAccept {
        x, y := i.x, i.y;
        canAccept, ready := false, false;
        state := 1;
      } else if !canAccept {
        if state == 1 {
          x0y0 := Mult.Partial(Mult.Lo(x), Mult.Lo(y));
          x0y1 := Mult.Partial(Mult.Lo(x), Mult.Hi(y));
          x1y0 := Mult.Partial(Mult.Hi(x), Mult.Lo(y));
          state := 0;
        } else {
          prod := Mult.Combine(x0y0, x1y0, x0y1);
          canAccept, ready := true, true;
          state := 1;
        }
      }
    }
  }

  class NonRestoringDivider {
    var quotBuf: Div.Bits32
    var counter: Byte
    var P: Div.Wide
    var D: Div.Wide
    var ctl: Div.Ctl

    function WorkValue(): Div.Work
      reads this
    {
      Div.Work(quotBuf, counter, P, D)
    }

    function Value(): Div.DivUnit
      reads this
    {
      Div.DivUnit(WorkValue(), ctl)
    }

    constructor ()
      ensures Value() == Div.ResetUnit()
    {
      quotBuf, counter, P, D := Div.ZeroBits(), 0, 0, 0;
      ctl := Div.ResetUnit().ctl;
    }

    method Iterate(i: Byte)
      modifies this
      ensures WorkValue() == Div.Iterate(old(WorkValue()), i) && ctl == old(ctl)
    {
      if P < Div.TWO64 || P == 0 {
        if i < 32 {
          quotBuf := quotBuf[i := true];
        }
        P := (2 * P - D) % Div.TWO65;
      } else {
        P := (2 * P + D) % Div.TWO65;
      }
    }

    /** The block with blocking writes: load, or one, two or four digits. */
    method IterationBlock(k: Div.StepsPerClock)
      modifies this
      ensures WorkValue() == Div.WorkStep(old(Value()), k) && ctl == old(ctl)
    {
      if ctl.stateCounter >= 128 {
        quotBuf := Div.ZeroBits();
        counter := 31;
        P := ctl.numBuf;
        D := ctl.denomBuf * 0x1_0000_0000;
      } else if !ctl.canAccept {
        var i := counter;
        for n := 0 to k
          invariant ctl == old(ctl) && counter == old(counter)
          invariant Div.IterateDown(WorkValue(), i, k - n) == Div.IterateDown(old(WorkValue()), old(counter), k)
        {
          Iterate(i);
          i := Div.NextIndex(i);
        }
        counter := (counter - k) % 256;
      }
    }

    /** The block with non-blocking writes: the new values, to land once both blocks have run. */
    method ControlBlock(i: Div.DivIn) returns (next: Div.Ctl)
      ensures next == Div.CtlStep(ctl, WorkValue(), i)
    {
      next := ctl;
      if i.enable && ctl.canAccept {
        next := next.(canAccept := false, ready := false, stateCounter := 255);
        next := next.(numBuf := i.num, denomBuf := i.denom, signed := i.signed);
        next := next.(numNeg := i.num >= 0x8000_0000, denomNeg := i.denom >= 0x8000_0000);
        next := next.(started := false, ended := false);
      } else if !ctl.started {
        next := next.(started := true);
        if ctl.signed && ctl.numNeg {
          next := next.(numBuf := Div.Negate(ctl.numBuf));
        }
        if ctl.signed && ctl.denomNeg {
          next := next.(denomBuf := Div.Negate(ctl.denomBuf));
        }
      } else if !ctl.canAccept {
        if counter < 128 {
          next := next.(stateCounter := (ctl.stateCounter + 1) % 256, ended := false);
        } else if !ctl.ended {
          var q := Div.FromDigits(quotBuf);
          var p := P;
          if P >= Div.TWO64 {
            q := Wrap(q - 1);
            p := (P + D) % Div.TWO65;
          }
          var r := Wrap(p / 0x1_0000_0000);
          if ctl.signed && ctl.numNeg != ctl.denomNeg {
            q := Div.Negate(q);
          }
          if ctl.signed && ctl.numNeg {
            r := Div.Negate(r);
          }
          next := next.(ended := true, quot2 := q, rem2 := r);
        } else {
          next := next.(canAccept := true, stateCounter := 255, ready := true);
          next := next.(quot := ctl.quot2, rem := ctl.rem2);
        }
      }
    }

    /** Both blocks at one edge, in either order; the non-blocking writes land last. */
    method PosEdge(i: Div.DivIn, k: Div.StepsPerClock, iterFirst: bool)
      modifies this
      ensures Value() == Div.Step(old(Value()), i, k, iterFirst)
    {
      var next: Div.Ctl;
      if iterFirst {
        IterationBlock(k);
        next := ControlBlock(i);
      } else {
        next := ControlBlock(i);
        IterationBlock(k);
      }
      ctl := next;
    }
  }

  class RegisterBank {
    const regs: array<Word>
    var outA: Word
    var outB: Word
    var outC: Word

    ghost predicate Valid() {
      regs.Length == 16
    }

    function Value(): RegFile
      reads this, regs
      requires Valid()
    {
      RegFile(regs[..], outA, outB, outC)
    }

    constructor ()
      ensures Valid() && fresh(regs) && Value() == RegFile(seq(16, _ => 0), 0, 0, 0)
    {
      regs := new Word[16](_ => 0);
      outA, outB, outC := 0, 0, 0;
      new;
      assert regs[..] == seq(16, _ => 0);
    }

    method PosEdge(w: WritePort, a: Nibble, b: Nibble, c: Nibble)
      requires Valid()
      modifies this, regs
      ensures Value() == RegisterFile.Step(old(Value()), w, a, b, c)
    {
      outA := if w.enable && w.sel == a && w.sel != 0 then w.data else regs[a];
      outB := if w.enable && w.sel == b && w.sel != 0 then w.data else regs[b];
      outC := if w.enable && w.sel == c && w.sel != 0 then w.data else regs[c];
      if w.enable && w.sel != 0 {
        regs[w.sel] := w.data;
      }
    }
  }

  class SinglePortRam {
    const mem: array<Word>
    var out: Word

    ghost predicate Valid() {
      mem.Length == RAM_WORDS
    }

    function Value(): Ram
      reads this, mem
      requires Valid()
    {
      Ram(mem[..], out)
    }

    constructor (image: Memory)
      ensures Valid() && fresh(mem) && Value() == Ram(image, 0)
    {
      mem := new Word[2048](i requires 0 <= i < 2048 => image[i]);
      out := 0;
      new;
      assert mem[..] == image;
    }

    method PosEdge(b: Bus)
      requires Valid()
      modifies this, mem
      ensures Value() == MainMem.Step(old(Value()), b)
    {
      out := mem[WordIndex(b.addr)];
      if b.write {
        mem[WordIndex(b.addr)] := b.data;
      }
    }
  }
}
