/** Which instructions the hardware performs as documented, and inputs on which it does not. */
module Departures {
  import opened Words
  import opened InstrDecoder
  import opened MainMem
  import opened RegisterFile
  import opened Stages
  import opened Assembler
  import opened Theorems
  import Isa
  import AsBuilt
  import Pipeline
  import Refinement
  import Encoding

  /** No multiply by an immediate, no signed call, and no call that names `lr`. */
  predicate Ordinary(i: Fields) {
    !AsBuilt.IsMuli(i) && (AsBuilt.IsCall(i) ==> i.op < 6 && i.ra != LR && i.rb != LR && i.rc != LR)
  }

  /** An unsigned call does not look at the old flags, and its operands survive the early write of `lr`. */
  lemma OrdinaryConforms(m: AsBuilt.Machine)
    requires Ordinary(Isa.InstrAt(m.arch))
    ensures AsBuilt.Conforms(m)
  {
    var i := Isa.InstrAt(m.arch);
    if AsBuilt.IsCall(i) {
      var o := Isa.OperandsIn(m.arch.regs, i);
      assert AsBuilt.EarlyHolds(m, i) == Isa.Taken(i.op, o);
      assert AsBuilt.LateOperands(m, i) == o;
    }
  }

  /** Every instruction that the documented machine starts in this run is an ordinary one. */
  ghost predicate OrdinaryRun(g: Config, words: Memory, ints: seq<bool>) {
    forall n | 0 <= n < |ints| :: OrdinaryStart(IsaRun(g, words, ints[..n]), ints[n])
  }

  predicate OrdinaryStart(t: TimedIsa, interrupt: bool) {
    t.wait == 0 && !(t.a.ie && interrupt) ==> Ordinary(Isa.InstrAt(t.a))
  }

  lemma {:induction false} OrdinaryRunsConform(g: Config, words: Memory, ints: seq<bool>)
    requires OrdinaryRun(g, words, ints)
    ensures RunConforms(g, words, ints)
  {
    hide Isa.Exec, AsBuilt.Exec, AsBuilt.Conforms, Theorems.TimedRun, Theorems.IsaRun;
    if |ints| > 0 {
      var last := |ints| - 1;
      var before := ints[..last];
      forall n | 0 <= n < last ensures OrdinaryStart(IsaRun(g, words, before[..n]), before[n]) {
        assert before[..n] == ints[..n];
      }
      OrdinaryRunsConform(g, words, before);
      ConformingRuns(g, words, before);
      forall n | 0 <= n < |ints| ensures StartConforms(TimedRun(g, words, ints[..n]), ints[n]) {
        if n == last {
          assert OrdinaryStart(IsaRun(g, words, ints[..n]), ints[n]);
          if Ordinary(Isa.InstrAt(TimedRun(g, words, before).m.arch)) {
            OrdinaryConforms(TimedRun(g, words, before).m);
          }
        } else {
          assert before[..n] == ints[..n];
          assert StartConforms(TimedRun(g, words, before[..n]), before[n]);
        }
      }
    }
  }

  /** Ordinary programs: the flushed pipeline is the documented machine at every clock. */
  lemma OrdinaryProgramsRunAsDocumented(g: Config, words: Memory, ints: seq<bool>)
    requires OrdinaryRun(g, words, ints)
    ensures
      var s := Run(g, words, ints);
      Refinement.ArchOf(g, Refinement.Flush(g, Pipeline.Flatten(s))) == IsaRun(g, words, ints).a &&
      s.core.counter == IsaRun(g, words, ints).wait
  {
    OrdinaryRunsConform(g, words, ints);
    PipelineImplementsIsa(g, words, ints);
  }

  predicate Compares(equal: bool, r: Regs, ra: Nibble, rb: Nibble) {
    (Get(r, ra) == Get(r, rb)) == equal
  }

  /**
   * The calls that the assembler makes for absolute targets go through `temp`. They conform whenever they
   * do not compare `lr`; one that does conforms exactly when it is not taken, still holds once `lr` has
   * changed, or cannot be told from one that does.
   */
  lemma AbsoluteCallsConform(m: AsBuilt.Machine, ra: Nibble, rb: Nibble, equal: bool)
    requires Load(m.arch.mem, m.arch.pc) == Encoding.ThreeRegs(4, ra, rb, REG_TEMP, if equal then EQ else NE)
    ensures ra != LR && rb != LR ==> AsBuilt.Conforms(m)
    ensures
      var next := Isa.NextPc(m.arch);
      AsBuilt.Conforms(m) <==>
        || !Compares(equal, m.arch.regs, ra, rb) || Compares(equal, AsBuilt.WithReturnAddress(m.arch), ra, rb)
        || m.arch.regs[LR] == next || m.arch.regs[REG_TEMP] == next
  {
    hide Encoding.ThreeRegs, InstrDecoder.Decode;
    Encoding.ThreeRegsRoundTrip(4, ra, rb, REG_TEMP, if equal then EQ else NE);
    if ra != LR && rb != LR {
      OrdinaryConforms(m);
    }
  }

  // ----- departures -----

  /** `ceq zero, zero, lr` goes to the next instruction: it conforms only if `lr` already holds that address. */
  lemma CallThroughLr(m: AsBuilt.Machine)
    requires Load(m.arch.mem, m.arch.pc) == Encoding.ThreeRegs(4, 0, 0, LR, EQ)
    ensures AsBuilt.Exec(m).arch.pc == Isa.NextPc(m.arch)
    ensures AsBuilt.Exec(m).arch == Isa.Exec(m.arch) <==> m.arch.regs[LR] == Isa.NextPc(m.arch)
  {
    hide Encoding.ThreeRegs, InstrDecoder.Decode;
    Encoding.ThreeRegsRoundTrip(4, 0, 0, LR, EQ);
    AsBuilt.ConformsExactly(m);
  }

  const CLTS: Nibble := 6

  /**
   * `clts zero, zero, u0` must not be taken; with a stale "less than" flag it writes `lr` all the same,
   * and otherwise it does nothing, as documented.
   */
  lemma SignedCallWithStaleFlag(m: AsBuilt.Machine)
    requires Load(m.arch.mem, m.arch.pc) == Encoding.ThreeRegs(4, 0, 0, 1, CLTS)
    ensures Isa.Exec(m.arch) == m.arch.(pc := Isa.NextPc(m.arch))
    ensures
      AsBuilt.Exec(m).arch ==
      m.arch.(regs := if m.shadow.flags.lts then AsBuilt.WithReturnAddress(m.arch) else m.arch.regs,
              pc := Isa.NextPc(m.arch))
  {
    hide Encoding.ThreeRegs, InstrDecoder.Decode;
    Encoding.ThreeRegsRoundTrip(4, 0, 0, 1, CLTS);
  }

  /** A program whose third instruction is that call, with the flags left by a branch that is not taken. */
  predicate StaleFlagProgram(words: Memory) {
    && words[0] == Encoding.TwoRegsImm(1, 1, 0, ADDI, 1)
    && words[1] == Encoding.TwoRegsImm(2, 0, 1, CLTS, 0)
    && words[2] == Encoding.ThreeRegs(4, 0, 0, 1, CLTS)
  }

  /** After `addi u0, zero, 1` and `blts zero, u0, 0` from reset, the call leaves `lr` at 12 and not at 0. */
  lemma StaleFlagIsReached(words: Memory)
    requires StaleFlagProgram(words)
    ensures
      var m := AsBuilt.Exec(AsBuilt.Exec(AsBuilt.Reset(words)));
      AsBuilt.Exec(m).arch.regs[LR] == 12 && Isa.Exec(m.arch).regs[LR] == 0 && !AsBuilt.Conforms(m)
  {
    hide InstrDecoder.Decode, Encoding.TwoRegsImm, Encoding.ThreeRegs;
    Encoding.TwoRegsImmRoundTrip(1, 1, 0, ADDI, 1);
    Encoding.TwoRegsImmRoundTrip(2, 0, 1, CLTS, 0);
    DecodeWellFormed(words[1]);
    var m1 := AsBuilt.Exec(AsBuilt.Reset(words));
    assert Load(words, 0) == words[0] && Load(words, 4) == words[1] && Load(words, 8) == words[2];
    assert m1.arch.pc == 4 && m1.arch.regs[1] == 1 && m1.arch.regs[LR] == 0 && m1.arch.mem == words;
    var m := AsBuilt.Exec(m1);
    assert m.arch.pc == 8 && m.shadow.flags.lts && m.arch.regs[LR] == 0 && m.arch.mem == words;
    SignedCallWithStaleFlag(m);
    AsBuilt.ConformsExactly(m);
  }

  /** A multiply by an immediate as the first instruction starts the program over. */
  lemma MuliAfterReset(words: Memory)
    requires AsBuilt.IsMuli(Decode(words[0]))
    ensures
      var m := AsBuilt.Reset(words);
      AsBuilt.Exec(m).arch.pc == 0 && Isa.Exec(m.arch).pc == 4 && !AsBuilt.Conforms(m)
  {
    hide InstrDecoder.Decode;
    var m := AsBuilt.Reset(words);
    assert Load(words, 0) == words[0];
    AsBuilt.ConformsExactly(m);
  }
}
