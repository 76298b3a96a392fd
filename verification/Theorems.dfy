/**
 * Whole runs of the hardware, from power-on, for every memory image and every
 * interrupt input: it is the sequential machine, clock by clock.
 */
module Theorems {
  import opened Words
  import opened InstrDecoder
  import opened MainMem
  import opened RegisterFile
  import opened Stages
  import opened Pipeline
  import opened Refinement
  import Isa
  import AsBuilt

  // ----- runs -----

  /** The hardware after one edge for each element of `ints`, the interrupt pin at that edge. */
  function Run(g: Config, words: Memory, ints: seq<bool>): Sys {
    if |ints| == 0 then Pipeline.Reset(words)
    else Pipeline.Step(g, Run(g, words, ints[..|ints| - 1]), ints[|ints| - 1])
  }

  function FlatRun(g: Config, words: Memory, ints: seq<bool>): Flat {
    if |ints| == 0 then FlatReset(words)
    else FlatStep(g, FlatRun(g, words, ints[..|ints| - 1]), ints[|ints| - 1])
  }

  /** A sequential machine that waits `wait` clocks before its next instruction. */
  datatype Timed = Timed(m: AsBuilt.Machine, wait: nat)

  /** Clocks beyond the first, from the opcode and the condition type alone. */
  function Cost(g: Config, i: Fields): nat {
    if i.stalls then StallFor(g, i) else 0
  }

  function TimedStep(g: Config, t: Timed, interrupt: bool): Timed {
    if t.wait > 0 then t.(wait := t.wait - 1)
    else Timed(Next(t.m, interrupt),
               if t.m.arch.ie && interrupt then STALL_RESPOND else Cost(g, Isa.InstrAt(t.m.arch)))
  }

  function TimedRun(g: Config, words: Memory, ints: seq<bool>): Timed {
    if |ints| == 0 then Timed(AsBuilt.Reset(words), 2)
    else TimedStep(g, TimedRun(g, words, ints[..|ints| - 1]), ints[|ints| - 1])
  }

  // ----- the invariant of every reachable state -----

  ghost predicate Tracks(g: Config, f: Flat, t: Timed) {
    f.core.counter == t.wait && Completes(g, f, t.m)
  }

  lemma ResetTracks(g: Config, words: Memory)
    ensures Tracks(g, FlatReset(words), Timed(AsBuilt.Reset(words), 2))
  {
    var f := FlatReset(words);
    var f1 := FlatStep(g, f, false);
    UnitsStayIdle(g, f.core, FlatOperands(f), false);
    LastClockCompletes(g, f1, AsBuilt.Reset(words));
  }

  lemma StalledIgnoresInterrupt(g: Config, f: Flat, interrupt: bool)
    requires f.core.counter != 0
    ensures FlatStep(g, f, interrupt) == FlatStep(g, f, false)
    ensures FlatStep(g, f, interrupt).core.counter == f.core.counter - 1
  {
  }

  lemma DecodeSetsCounter(g: Config, f: Flat, interrupt: bool)
    requires Boundary(f)
    ensures FlatStep(g, f, interrupt).core.counter
            == if f.core.ie && interrupt then STALL_RESPOND else Cost(g, Isa.InstrAt(ArchOf(g, f)))
  {
  }

  lemma StepTracks(g: Config, f: Flat, t: Timed, interrupt: bool)
    requires Tracks(g, f, t)
    ensures Tracks(g, FlatStep(g, f, interrupt), TimedStep(g, t, interrupt))
  {
    if f.core.counter == 0 {
      BoundaryStep(g, f, interrupt);
      DecodeSetsCounter(g, f, interrupt);
    } else {
      StalledIgnoresInterrupt(g, f, interrupt);
    }
  }

  lemma {:induction false} FlatRunTracks(g: Config, words: Memory, ints: seq<bool>)
    ensures Tracks(g, FlatRun(g, words, ints), TimedRun(g, words, ints))
  {
    if |ints| == 0 {
      ResetTracks(g, words);
    } else {
      var before := ints[..|ints| - 1];
      FlatRunTracks(g, words, before);
      StepTracks(g, FlatRun(g, words, before), TimedRun(g, words, before), ints[|ints| - 1]);
    }
  }

  lemma {:induction false} RunIsFlatRun(g: Config, words: Memory, ints: seq<bool>)
    ensures ReadsCoherent(Run(g, words, ints))
    ensures Flatten(Run(g, words, ints)) == FlatRun(g, words, ints)
  {
    if |ints| == 0 {
      assert Landed(Pipeline.Reset(words)) == seq(16, _ => 0);
    } else {
      var before := ints[..|ints| - 1];
      RunIsFlatRun(g, words, before);
      StepIsFlatStep(g, Run(g, words, before), ints[|ints| - 1]);
      CoherenceKept(g, Run(g, words, before), ints[|ints| - 1]);
    }
  }

  // ----- main results -----

  /**
   * Refinement. At every clock of every run, flushing what is in flight gives
   * the sequential machine, and the stall counter is that machine's wait.
   */
  lemma PipelineRefines(g: Config, words: Memory, ints: seq<bool>)
    ensures var s := Run(g, words, ints);
            var t := TimedRun(g, words, ints);
            && Abs(g, Flush(g, Flatten(s))) == t.m
            && s.core.counter == t.wait
  {
    RunIsFlatRun(g, words, ints);
    FlatRunTracks(g, words, ints);
  }

  /** At every clock of every run each operand multiplexer gives the register after all writes on their way. */
  lemma OperandsHaveLanded(g: Config, words: Memory, ints: seq<bool>)
    ensures var s := Run(g, words, ints);
            var f := s.core.ex.f;
            Operands(s) == Ops(Get(Landed(s), f.ra), Get(Landed(s), f.rb), Get(Landed(s), f.rc))
  {
    RunIsFlatRun(g, words, ints);
    ForwardingIsSound(Run(g, words, ints));
  }

  /**
   * Forwarding: on the first execute cycle of every instruction each operand is the register of the
   * sequential machine, after all earlier instructions.
   */
  lemma OperandsAreCurrent(g: Config, words: Memory, ints: seq<bool>, pin: bool)
    requires Run(g, words, ints).core.counter == 0 && !(Run(g, words, ints).core.ie && pin)
    ensures var a := TimedRun(g, words, ints).m.arch;
            Operands(Run(g, words, ints + [pin])) == Isa.OperandsIn(a.regs, Isa.InstrAt(a))
  {
    assert (ints + [pin])[..|ints|] == ints;
    RunIsFlatRun(g, words, ints);
    FlatRunTracks(g, words, ints);
    RunIsFlatRun(g, words, ints + [pin]);
    ForwardingIsSound(Run(g, words, ints + [pin]));
    DecodedOperands(g, FlatRun(g, words, ints), pin);
  }

  lemma DecodedOperands(g: Config, f: Flat, pin: bool)
    requires Boundary(f) && !(f.core.ie && pin)
    ensures FlatOperands(FlatStep(g, f, pin)) == Isa.OperandsIn(ArchOf(g, f).regs, Isa.InstrAt(ArchOf(g, f)))
  {
  }

  /** Fetch: whenever the counter is zero the word in decode is the current memory word at the machine's pc. */
  lemma FetchIsCoherent(g: Config, words: Memory, ints: seq<bool>)
    requires Run(g, words, ints).core.counter == 0
    ensures var c := Run(g, words, ints).core;
            var a := TimedRun(g, words, ints).m.arch;
            && c.pcVal == a.pc && c.pc == Add(a.pc, 4) && c.bus.addr == c.pc && !c.bus.write
            && DecoderInput(c) == Load(a.mem, a.pc) && c.ram.words == a.mem
  {
    RunIsFlatRun(g, words, ints);
    FlatRunTracks(g, words, ints);
  }

  /** The write line is up for exactly the clock after a store's third-last one. */
  ghost predicate WriteIsBrief(c: Core) {
    c.bus.write ==> c.counter == 2 && c.state == StMemAccess
  }

  lemma BusWritesFromClockThree(g: Config, c: Core, o: Ops, interrupt: bool)
    requires WriteIsBrief(c)
    ensures CoreStep(g, c, o, interrupt).bus.write
            <==> c.counter == 3 && c.state == StMemAccess && c.ex.f.ldst >= 5
    ensures WriteIsBrief(CoreStep(g, c, o, interrupt))
  {
  }

  lemma {:induction false} WritesAreBrief(g: Config, words: Memory, ints: seq<bool>)
    ensures WriteIsBrief(Run(g, words, ints).core)
  {
    if |ints| > 0 {
      var s := Run(g, words, ints[..|ints| - 1]);
      WritesAreBrief(g, words, ints[..|ints| - 1]);
      BusWritesFromClockThree(g, s.core, Operands(s), ints[|ints| - 1]);
    }
  }

  /** An interrupt pin raised at a boundary with interrupts enabled. */
  lemma InterruptsArePrecise(g: Config, words: Memory, ints: seq<bool>)
    requires Run(g, words, ints).core.counter == 0 && Run(g, words, ints).core.ie
    ensures var s := Run(g, words, ints);
            var before := Abs(g, Flatten(s)).arch;
            var after := Abs(g, Flush(g, Flatten(Pipeline.Step(g, s, true)))).arch;
            after == before.(ireta := before.pc, pc := before.idsta, ie := false)
  {
    var s := Run(g, words, ints);
    RunIsFlatRun(g, words, ints);
    FlatRunTracks(g, words, ints);
    StepIsFlatStep(g, s, true);
    BoundaryStep(g, Flatten(s), true);
  }

  predicate IsReti(i: Fields) {
    i.group == 6 && i.op == OP_RETI
  }

  lemma RetiExec(m: AsBuilt.Machine)
    requires IsReti(Isa.InstrAt(m.arch))
    ensures AsBuilt.Exec(m).arch == m.arch.(pc := m.arch.ireta, ie := true)
  {
  }

  /** While the counter is not zero every clock takes one off it. */
  lemma {:induction false} StallsCountDown(g: Config, words: Memory, ints: seq<bool>, more: seq<bool>)
    requires |more| <= TimedRun(g, words, ints).wait
    ensures TimedRun(g, words, ints + more).wait == TimedRun(g, words, ints).wait - |more|
  {
    if |more| == 0 {
      assert ints + more == ints;
    } else {
      var less := more[..|more| - 1];
      StallsCountDown(g, words, ints, less);
      assert (ints + more)[..|ints + more| - 1] == ints + less;
    }
  }

  /** Until the wait is over the sequential machine stands still. */
  lemma {:induction false} StallsKeepMachine(g: Config, words: Memory, ints: seq<bool>, more: seq<bool>)
    requires |more| <= TimedRun(g, words, ints).wait
    ensures TimedRun(g, words, ints + more).m == TimedRun(g, words, ints).m
  {
    hide Refinement.Next;
    if |more| == 0 {
      assert ints + more == ints;
    } else {
      var less := more[..|more| - 1];
      StallsKeepMachine(g, words, ints, less);
      StallsCountDown(g, words, ints, less);
      assert (ints + more)[..|ints + more| - 1] == ints + less;
    }
  }

  /**
   * A handler that is only `reti` comes back to the interrupted instruction and changes nothing but `ireta`:
   * an interrupt at a boundary, its response, the handler's decode and its stall, whatever the pin does meanwhile.
   */
  lemma RetiReturns(g: Config, words: Memory, ints: seq<bool>, entry: seq<bool>, pin: bool, stall: seq<bool>)
    requires Run(g, words, ints).core.counter == 0 && Run(g, words, ints).core.ie
    requires var c := Run(g, words, ints).core;
             var i := Decode(Load(c.ram.words, c.idsta));
             i.group == 6 && i.op == 6
    requires |entry| == STALL_RESPOND && |stall| == STALL_RETI
    ensures var before := ArchOf(g, Flatten(Run(g, words, ints)));
            var s := Run(g, words, ints + [true] + entry + [pin] + stall);
            s.core.counter == 0 && ArchOf(g, Flatten(s)) == before.(ireta := before.pc)
  {
    hide Run, Flatten, ArchOf, Refinement.Next, Isa.Exec, AsBuilt.Exec, InstrDecoder.Decode;
    BoundaryIsMachine(g, words, ints);
    var taken := ints + [true];
    var m := TimedRun(g, words, ints).m;
    RespondsAndReturns(g, words, ints, entry, pin, stall);
    BoundaryIsMachine(g, words, taken + entry + [pin] + stall);
    RetiExec(AsBuilt.Interrupt(m));
  }

  /** The same on the sequential machine with its waits. */
  lemma RespondsAndReturns(g: Config, words: Memory, ints: seq<bool>, entry: seq<bool>, pin: bool, stall: seq<bool>)
    requires TimedRun(g, words, ints).wait == 0 && TimedRun(g, words, ints).m.arch.ie
    requires IsReti(Decode(Load(TimedRun(g, words, ints).m.arch.mem, TimedRun(g, words, ints).m.arch.idsta)))
    requires |entry| == STALL_RESPOND && |stall| == STALL_RETI
    ensures var t := TimedRun(g, words, ints + [true] + entry + [pin] + stall);
            t.wait == 0 && t.m == AsBuilt.Exec(AsBuilt.Interrupt(TimedRun(g, words, ints).m))
  {
    hide Isa.Exec, AsBuilt.Exec, InstrDecoder.Decode;
    var taken := ints + [true];
    assert taken[..|ints|] == ints;
    StallsCountDown(g, words, taken, entry);
    StallsKeepMachine(g, words, taken, entry);
    var handler := taken + entry + [pin];
    assert handler[..|taken + entry|] == taken + entry;
    RetiCosts(g, Load(TimedRun(g, words, ints).m.arch.mem, TimedRun(g, words, ints).m.arch.idsta));
    StallsCountDown(g, words, handler, stall);
    StallsKeepMachine(g, words, handler, stall);
  }

  lemma RetiCosts(g: Config, w: Word)
    requires IsReti(Decode(w))
    ensures Cost(g, Decode(w)) == STALL_RETI
  {
  }

  /** At a boundary the hardware's registers, committed, are the sequential machine's. */
  lemma BoundaryIsMachine(g: Config, words: Memory, ints: seq<bool>)
    ensures Run(g, words, ints).core.counter == TimedRun(g, words, ints).wait
    ensures TimedRun(g, words, ints).wait == 0 ==>
              ArchOf(g, Flatten(Run(g, words, ints))) == TimedRun(g, words, ints).m.arch
    ensures var c, a := Run(g, words, ints).core, TimedRun(g, words, ints).m.arch;
            c.counter == 0 ==> c.ie == a.ie && c.idsta == a.idsta && c.ram.words == a.mem
  {
    RunIsFlatRun(g, words, ints);
    FlatRunTracks(g, words, ints);
  }

  /** The clocks from the decode of an instruction to the next, beyond the first, with `k` divider steps a clock. */
  function StallClocks(k: nat, group: Nibble, op: Nibble): nat {
    match group
    case 0 => if op == 6 then 5 else if op >= 14 then (if k == 1 then 39 else if k == 2 then 23 else 15) else 0
    case 1 => if op == 6 then 5 else 0
    case 2 => if 6 <= op <= 9 then 3 else if op <= 11 then 2 else 0
    case 3 => if 6 <= op <= 9 then 4 else if op <= 5 then 3 else 0
    case 4 => if 6 <= op <= 9 then 4 else if op <= 5 then 3 else 0
    case 5 => 3
    case 6 => if op in {0, 1, 2, 4, 6} then 2 else 0
    case _ => 0
  }

  lemma CostInClocks(g: Config, w: Word)
    ensures Cost(g, Decode(w)) == StallClocks(g.k, Decode(w).group, Decode(w).op) && STALL_RESPOND == 2
  {
    DecodeWellFormed(w);
  }

  /** The gap after the decode that is due: a response to the pin, or the instruction about to be fetched. */
  function Gap(g: Config, c: Core, pin: bool): nat {
    var i := Decode(Load(c.ram.words, c.pcVal));
    if c.ie && pin then 2 else StallClocks(g.k, i.group, i.op)
  }

  /**
   * Progress and timing: every instruction or interrupt response reaches the next decode, after exactly
   * the number of clocks that its fields give. No register or memory value it computes with plays a part.
   */
  lemma GapIsStatic(g: Config, words: Memory, ints: seq<bool>, pin: bool, more: seq<bool>)
    requires Run(g, words, ints).core.counter == 0 && |more| <= Gap(g, Run(g, words, ints).core, pin)
    ensures Run(g, words, ints + [pin] + more).core.counter == Gap(g, Run(g, words, ints).core, pin) - |more|
  {
    hide Pipeline.Step, Refinement.Next, Isa.Exec, AsBuilt.Exec, Refinement.Flush, StallClocks, Cost, Decode;
    var c := Run(g, words, ints).core;
    CostInClocks(g, Load(c.ram.words, c.pcVal));
    FetchIsCoherent(g, words, ints);
    EnableIsArchitectural(g, words, ints);
    PipelineRefines(g, words, ints);
    assert (ints + [pin])[..|ints|] == ints;
    StallsCountDown(g, words, ints + [pin], more);
    PipelineRefines(g, words, ints + [pin] + more);
  }

  lemma EnableIsArchitectural(g: Config, words: Memory, ints: seq<bool>)
    requires Run(g, words, ints).core.counter == 0
    ensures TimedRun(g, words, ints).m.arch.ie == Run(g, words, ints).core.ie
  {
    RunIsFlatRun(g, words, ints);
    FlatRunTracks(g, words, ints);
  }

  // ----- stores -----

  lemma StallHolds(g: Config, c: Core, o: Ops, interrupt: bool)
    requires c.counter >= 2
    ensures var d := CoreStep(g, c, o, interrupt);
            d.counter == c.counter - 1 && d.ex == c.ex && d.state == c.state
  {
  }

  /** Until the last clock of a stall the execute stage holds the same instruction under the same stall state. */
  lemma {:induction false} StallsHold(g: Config, words: Memory, ints: seq<bool>, more: seq<bool>)
    requires |more| < Run(g, words, ints).core.counter
    ensures var c := Run(g, words, ints).core;
            var d := Run(g, words, ints + more).core;
            d.counter == c.counter - |more| && d.ex == c.ex && d.state == c.state
  {
    hide Stages.CoreStep;
    if |more| == 0 {
      assert ints + more == ints;
    } else {
      var less := more[..|more| - 1];
      StallsHold(g, words, ints, less);
      assert (ints + more)[..|ints + more| - 1] == ints + less;
      var s := Run(g, words, ints + less);
      StallHolds(g, s.core, Operands(s), more[|more| - 1]);
    }
  }

  /** What the decode of a clock with counter zero leaves in the execute stage. */
  lemma DecodeTakes(g: Config, c: Core, o: Ops, pin: bool)
    requires c.counter == 0
    ensures var d := CoreStep(g, c, o, pin);
            if c.ie && pin then d.counter == STALL_RESPOND && d.state == StRespondToInterrupt
            else d.ex.f == Decoded(c) && d.counter == Cost(g, Decoded(c)) &&
                 (d.counter > 0 ==> d.state == StallStateFor(Decoded(c), c.state))
  {
  }

  lemma OnlyGroupFiveStores(w: Word)
    ensures Decode(w).ldst >= 5 ==> Decode(w).group == 5
    ensures Decode(w).group == 5 ==> Decode(w).stalls
  {
  }

  /** The state after the decode of an instruction or the acceptance of an interrupt, as far as stores go. */
  lemma FirstClock(g: Config, words: Memory, ints: seq<bool>, pin: bool)
    requires Run(g, words, ints).core.counter == 0
    ensures var c, d := Run(g, words, ints).core, Run(g, words, ints + [pin]).core;
            var i := Decode(Load(c.ram.words, c.pcVal));
            if c.ie && pin then d.counter == STALL_RESPOND && d.state == StRespondToInterrupt
            else d.ex.f == i && d.counter == Cost(g, i) &&
                 (i.ldst >= 5 ==> i.group == 5 && d.counter == STALL_MEM_ACCESS && d.state == StMemAccess)
  {
    hide Stages.CoreStep, InstrDecoder.Decode, Refinement.Flush, AsBuilt.Exec;
    var s := Run(g, words, ints);
    FetchIsCoherent(g, words, ints);
    assert (ints + [pin])[..|ints|] == ints;
    DecodeTakes(g, s.core, Operands(s), pin);
    OnlyGroupFiveStores(Load(s.core.ram.words, s.core.pcVal));
  }

  /** The write line after one more clock, from the clock before it. */
  lemma WriteLine(g: Config, words: Memory, ints: seq<bool>, interrupt: bool)
    ensures var c := Run(g, words, ints).core;
            Run(g, words, ints + [interrupt]).core.bus.write
            <==> c.counter == 3 && c.state == StMemAccess && c.ex.f.ldst >= 5
  {
    assert (ints + [interrupt])[..|ints|] == ints;
    var s := Run(g, words, ints);
    WritesAreBrief(g, words, ints);
    BusWritesFromClockThree(g, s.core, Operands(s), interrupt);
  }

  predicate IsStore(i: Fields) {
    i.group == 5 && i.ldst >= 5
  }

  /**
   * Over every clock of every instruction and interrupt response: the write line is up exactly once for a
   * store, one clock after its decode, and never for anything else.
   */
  lemma StoresWriteOnce(g: Config, words: Memory, ints: seq<bool>, pin: bool, more: seq<bool>)
    requires Run(g, words, ints).core.counter == 0
    requires var c := Run(g, words, ints).core;
             |more| <= (if c.ie && pin then STALL_RESPOND else Cost(g, Decode(Load(c.ram.words, c.pcVal))))
    ensures var c := Run(g, words, ints).core;
            Run(g, words, ints + [pin] + more).core.bus.write
            <==> !(c.ie && pin) && IsStore(Decode(Load(c.ram.words, c.pcVal))) && |more| == 1
  {
    hide Run, InstrDecoder.Decode, Cost;
    var i := Decode(Load(Run(g, words, ints).core.ram.words, Run(g, words, ints).core.pcVal));
    FirstClock(g, words, ints, pin);
    if |more| == 0 {
      assert ints + [pin] + more == ints + [pin];
      WriteLine(g, words, ints, pin);
    } else {
      var less := more[..|more| - 1];
      StallsHold(g, words, ints + [pin], less);
      WriteLine(g, words, ints + [pin] + less, more[|more| - 1]);
      assert ints + [pin] + less + [more[|more| - 1]] == ints + [pin] + more;
    }
  }

  /** The stall counter fits the width each build gives it: six bits for one iteration a clock, five for more. */
  lemma {:induction false} CounterFits(g: Config, words: Memory, ints: seq<bool>)
    ensures TimedRun(g, words, ints).wait < if g.k == 1 then 64 else 32
  {
    if |ints| > 0 {
      CounterFits(g, words, ints[..|ints| - 1]);
    }
  }

  // ----- against the documented instruction set -----

  datatype TimedIsa = TimedIsa(a: Isa.Arch, wait: nat)

  function IsaStep(g: Config, t: TimedIsa, interrupt: bool): TimedIsa {
    if t.wait > 0 then t.(wait := t.wait - 1)
    else if t.a.ie && interrupt then TimedIsa(Isa.Interrupt(t.a), STALL_RESPOND)
    else TimedIsa(Isa.Exec(t.a), Cost(g, Isa.InstrAt(t.a)))
  }

  function IsaRun(g: Config, words: Memory, ints: seq<bool>): TimedIsa {
    if |ints| == 0 then TimedIsa(AsBuilt.Reset(words).arch, 2)
    else IsaStep(g, IsaRun(g, words, ints[..|ints| - 1]), ints[|ints| - 1])
  }

  /** Every instruction the run starts is one the hardware performs as documented. */
  ghost predicate RunConforms(g: Config, words: Memory, ints: seq<bool>) {
    forall n | 0 <= n < |ints| :: StartConforms(TimedRun(g, words, ints[..n]), ints[n])
  }

  predicate StartConforms(t: Timed, interrupt: bool) {
    t.wait == 0 && !(t.m.arch.ie && interrupt) ==> AsBuilt.Conforms(t.m)
  }

  lemma {:induction false} ConformingRuns(g: Config, words: Memory, ints: seq<bool>)
    requires RunConforms(g, words, ints)
    ensures var t := TimedRun(g, words, ints);
            IsaRun(g, words, ints) == TimedIsa(t.m.arch, t.wait)
  {
    if |ints| > 0 {
      var before := ints[..|ints| - 1];
      forall n | 0 <= n < |before|
        ensures StartConforms(TimedRun(g, words, before[..n]), before[n])
      {
        assert before[..n] == ints[..n];
      }
      ConformingRuns(g, words, before);
      assert StartConforms(TimedRun(g, words, ints[..|ints| - 1]), ints[|ints| - 1]);
      AsBuilt.ConformsExactly(TimedRun(g, words, before).m);
    }
  }

  /** The documented machine: a conforming run of the hardware is a run of the instruction set, clock by clock. */
  lemma PipelineImplementsIsa(g: Config, words: Memory, ints: seq<bool>)
    requires RunConforms(g, words, ints)
    ensures var s := Run(g, words, ints);
            && ArchOf(g, Flush(g, Flatten(s))) == IsaRun(g, words, ints).a
            && s.core.counter == IsaRun(g, words, ints).wait
  {
    PipelineRefines(g, words, ints);
    ConformingRuns(g, words, ints);
  }

  /** And only then: the first start that does not conform leaves hardware and document in different states. */
  lemma DepartureShows(g: Config, words: Memory, ints: seq<bool>, interrupt: bool)
    requires RunConforms(g, words, ints)
    requires !StartConforms(TimedRun(g, words, ints), interrupt)
    ensures ArchOf(g, Flush(g, Flatten(Run(g, words, ints + [interrupt])))) != IsaRun(g, words, ints + [interrupt]).a
  {
    hide AsBuilt.Exec, Isa.Exec, Refinement.Flush, Pipeline.Step;
    assert (ints + [interrupt])[..|ints|] == ints;
    ConformingRuns(g, words, ints);
    AsBuilt.ConformsExactly(TimedRun(g, words, ints).m);
    PipelineRefines(g, words, ints + [interrupt]);
  }
}
