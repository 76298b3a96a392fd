/**
 * The whole machine at register-transfer level, and the same machine with the
 * register file, the forwarding slots and the write-back port folded into one
 * atomic register array. The two run in lockstep.
 */
module Pipeline {
  import opened Words
  import opened InstrDecoder
  import opened MainMem
  import opened Stages
  import opened RegisterFile

  /** A forwarding slot: a register index and the value on its way to it. */
  datatype Slot = Slot(idx: Nibble, data: Word)

  datatype Sys = Sys(core: Core, rf: RegFile, port: WritePort, slot0: Slot, slot1: Slot)

  /** The forwarding multiplexer. */
  function Forwarded(s: Sys, idx: Nibble, read: Word): Word {
    if idx == 0 then 0
    else if idx == s.slot0.idx then s.slot0.data
    else if idx == s.slot1.idx then s.slot1.data
    else read
  }

  function Operands(s: Sys): Ops {
    var f := s.core.ex.f;
    Ops(Forwarded(s, f.ra, s.rf.outA), Forwarded(s, f.rb, s.rf.outB), Forwarded(s, f.rc, s.rf.outC))
  }

  function NextSlot(slot: Slot, wb: WriteBack): Slot {
    match wb
    case Forward(i, d) => Slot(i, d)
    case Stop => Slot(0, slot.data)
    case Hold => slot
  }

  function Step(g: Config, s: Sys, interrupt: bool): Sys {
    var o := Operands(s);
    var d := Decoded(s.core);
    Sys(CoreStep(g, s.core, o, interrupt),
        RegisterFile.Step(s.rf, s.port, d.ra, d.rb, d.rc),
        WritePort(true, s.slot0.idx, s.slot0.data),
        NextSlot(s.slot0, Written(g, s.core, o)),
        s.slot0)
  }

  function Reset(words: Memory): Sys {
    Sys(CoreReset(words), RegFile(seq(16, _ => 0), 0, 0, 0), WritePort(false, 0, 0), Slot(0, 0), Slot(0, 0))
  }

  // ----- the flat machine -----

  datatype Flat = Flat(core: Core, regs: Regs)

  function FlatOperands(f: Flat): Ops {
    var i := f.core.ex.f;
    Ops(Get(f.regs, i.ra), Get(f.regs, i.rb), Get(f.regs, i.rc))
  }

  function Commit(r: Regs, wb: WriteBack): Regs {
    match wb
    case Forward(i, d) => Put(r, i, d)
    case Stop => r
    case Hold => r
  }

  function FlatStep(g: Config, f: Flat, interrupt: bool): Flat {
    var o := FlatOperands(f);
    Flat(CoreStep(g, f.core, o, interrupt), Commit(f.regs, Written(g, f.core, o)))
  }

  function FlatReset(words: Memory): Flat {
    Flat(CoreReset(words), seq(16, _ => 0))
  }

  /** The register values after everything on its way has landed. */
  function Landed(s: Sys): Regs {
    Put(Put(s.rf.regs, s.slot1.idx, s.slot1.data), s.slot0.idx, s.slot0.data)
  }

  function Flatten(s: Sys): Flat {
    Flat(s.core, Landed(s))
  }

  // ----- what every reachable state keeps -----

  /** An unstalled cycle decodes the bus word; a stalled one decodes the raw word of the held instruction. */
  ghost predicate LatchCoherent(c: Core) {
    c.counter != 0 ==> c.ex.f.ra in {0, Decode(c.ex.raw).ra} && c.ex.f.rb in {0, Decode(c.ex.raw).rb}
                       && c.ex.f.rc in {0, Decode(c.ex.raw).rc}
  }

  /** The write port repeats slot 1, and each read output is what its register holds. */
  ghost predicate ReadsCoherent(s: Sys) {
    && s.rf.regs[0] == 0
    && LatchCoherent(s.core)
    && (if s.port.enable then s.port.sel == s.slot1.idx && s.port.data == s.slot1.data else s.slot1.idx == 0)
    && (s.core.ex.f.ra != 0 ==> s.rf.outA == s.rf.regs[s.core.ex.f.ra])
    && (s.core.ex.f.rb != 0 ==> s.rf.outB == s.rf.regs[s.core.ex.f.rb])
    && (s.core.ex.f.rc != 0 ==> s.rf.outC == s.rf.regs[s.core.ex.f.rc])
  }

  /** Forwarding soundness: in every coherent state each multiplexer gives the landed value. */
  lemma ForwardingIsSound(s: Sys)
    requires ReadsCoherent(s)
    ensures Operands(s) == FlatOperands(Flatten(s))
  {
  }

  lemma LandedAdvances(g: Config, s: Sys, interrupt: bool)
    requires ReadsCoherent(s)
    ensures Landed(Step(g, s, interrupt)) == Commit(Landed(s), Written(g, s.core, Operands(s)))
  {
  }

  lemma LatchStaysCoherent(g: Config, c: Core, o: Ops, interrupt: bool)
    requires LatchCoherent(c)
    ensures LatchCoherent(CoreStep(g, c, o, interrupt))
  {
  }

  lemma CoherenceKept(g: Config, s: Sys, interrupt: bool)
    requires ReadsCoherent(s)
    ensures ReadsCoherent(Step(g, s, interrupt))
  {
    LatchStaysCoherent(g, s.core, Operands(s), interrupt);
  }

  /** Lockstep: one edge of the pipeline is one edge of the flat machine. */
  lemma StepIsFlatStep(g: Config, s: Sys, interrupt: bool)
    requires ReadsCoherent(s)
    ensures Flatten(Step(g, s, interrupt)) == FlatStep(g, Flatten(s), interrupt)
  {
    ForwardingIsSound(s);
    LandedAdvances(g, s, interrupt);
  }
}
