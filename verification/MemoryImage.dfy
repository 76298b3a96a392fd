/** The assembled image in the processor's memory: every instruction is there to be executed. */
module MemoryImage {
  import opened Words
  import opened Expressions
  import opened MainMem
  import opened Isa
  import opened Assembler
  import opened Meaning
  import opened Shadowing
  import opened PseudoInstructions
  import Arithmetic
  import Generation

  /** The byte of memory at an address: the first byte of a word is its highest. */
  function ByteAt(m: Memory, at: U64): Byte {
    BytesOf(m[at / 4 % RAM_WORDS], 4)[at % 4]
  }

  /** Memory has all the bytes of an image. */
  ghost predicate Holds(m: Memory, cells: seq<Cell>) {
    forall c | c in cells :: ByteAt(m, c.at) == c.data
  }

  lemma {:induction false} CellFrom(pc: U64, b: seq<Byte>, j: nat)
    requires j < |b|
    ensures CellsFrom(pc, b)[j] == Cell(Advance(pc, j), b[j])
    decreases j
  {
    if j == 0 {
      Generation.AdvanceNone(pc);
    } else {
      CellFrom(Advance(pc, 1), b[1..], j - 1);
      Generation.AdvanceTwice(pc, 1, j - 1);
    }
  }

  lemma InsideWord(pc: U64, j: nat)
    requires pc % 4 == 0 && j < 4
    ensures Advance(pc, j) == pc + j && (pc + j) / 4 == pc / 4 && (pc + j) % 4 == j
  {
  }

  lemma WordRebuilds(w: Word)
    ensures Generation.Join(BytesOf(w, 4)) == w
  {
    hide Generation.Join, BytesOf;
    Generation.BytesRebuild(w, 4);
    assert Generation.Pow256(2) == 0x1_0000;
    assert Generation.Pow256(4) == 0x1_0000_0000;
  }

  lemma WordIsHeld(m: Memory, pc: U64, w: Word)
    requires pc % 4 == 0 && Holds(m, CellsFrom(pc, BytesOf(w, 4)))
    ensures m[pc / 4 % RAM_WORDS] == w
  {
    hide BytesOf, CellsFrom, Advance;
    var u, b := m[pc / 4 % RAM_WORDS], BytesOf(w, 4);
    forall j | 0 <= j < 4 ensures BytesOf(u, 4)[j] == b[j] {
      CellFrom(pc, b, j);
      InsideWord(pc, j);
      assert CellsFrom(pc, b)[j] in CellsFrom(pc, b);
    }
    assert BytesOf(u, 4) == b;
    WordRebuilds(u);
    WordRebuilds(w);
  }

  lemma {:induction false} WordsAreHeld(m: Memory, pc: U64, ws: seq<Word>, k: nat)
    requires pc % 4 == 0 && Holds(m, CellsFrom(pc, BytesOfWords(ws))) && k < |ws|
    ensures m[Advance(pc, 4 * k) / 4 % RAM_WORDS] == ws[k]
    decreases k
  {
    hide BytesOf, CellsFrom, Advance, Holds;
    var rest := BytesOfWords(ws[1..]);
    Generation.CellsAppend(pc, BytesOf(ws[0], 4), rest);
    HoldsParts(m, CellsFrom(pc, BytesOf(ws[0], 4)), CellsFrom(Advance(pc, 4), rest));
    if k == 0 {
      Generation.AdvanceNone(pc);
      WordIsHeld(m, pc, ws[0]);
    } else {
      NextWord(pc);
      WordsAreHeld(m, Advance(pc, 4), ws[1..], k - 1);
      Generation.AdvanceTwice(pc, 4, 4 * (k - 1));
    }
  }

  lemma HoldsParts(m: Memory, a: seq<Cell>, b: seq<Cell>)
    requires Holds(m, a + b)
    ensures Holds(m, a) && Holds(m, b)
  {
    forall c | c in a ensures ByteAt(m, c.at) == c.data {
      assert c in a + b;
    }
    forall c | c in b ensures ByteAt(m, c.at) == c.data {
      assert c in a + b;
    }
  }

  lemma NextWord(pc: U64)
    requires pc % 4 == 0
    ensures Advance(pc, 4) % 4 == 0
  {
    if pc + 4 < 0x1_0000_0000_0000_0000 {
      assert Advance(pc, 4) == pc + 4;
    } else {
      assert Advance(pc, 4) == 0;
    }
  }

  /** The processor's 32-bit addresses and the assembler's 64-bit ones name the same word. */
  lemma SameWord(pc: U64, n: nat)
    ensures WordIndex(Wrap(Wrap(pc) + n)) == Advance(pc, n) / 4 % RAM_WORDS
  {
    WordOf(pc + n);
    WordOf(Advance(pc, n));
    Congruent(pc + n, Wrap(pc) + n, pc / 0x1_0000_0000);
    Congruent(pc + n, Advance(pc, n), (pc + n) / 0x1_0000_0000_0000_0000 * 0x1_0000_0000);
  }

  lemma WordOf(n: int)
    ensures n % 0x1_0000_0000 / 4 % 2048 == n / 4 % 2048
  {
    var q, r: int := n / 0x1_0000_0000, n % 0x1_0000_0000;
    Arithmetic.QuotientUnique(n, 4, 0x4000_0000 * q + r / 4, r % 4);
    Arithmetic.QuotientUnique(n / 4, 2048, 0x8_0000 * q + r / 4 / 2048, r / 4 % 2048);
  }

  /** The words of an instruction are in memory for a processor that comes to its address. */
  lemma InstructionIsLoaded(m: Memory, pc: U64, ws: seq<Word>, a: Arch)
    requires pc % 4 == 0 && Holds(m, CellsFrom(pc, BytesOfWords(ws))) && a.mem == m && a.pc == Wrap(pc)
    ensures Loaded(a, ws)
  {
    hide Holds, CellsFrom, BytesOfWords, Advance;
    forall k | 0 <= k < |ws| ensures Load(a.mem, Wrap(a.pc + 4 * k)) == ws[k] {
      WordsAreHeld(m, pc, ws, k);
      SameWord(pc, 4 * k);
    }
  }

  // ----- programs -----

  /**
   * A processor that comes to this address with this memory finds the instruction: a real one decodes to
   * its operands, and a pseudo instruction has its documented effect unless it compares `temp`.
   */
  ghost predicate Runs(m: Memory, i: Instr, v: S64, pc: U64) {
    forall a: Arch | a.mem == m && a.pc == Wrap(pc) ::
      && Loaded(a, WordsOf(i, v, pc))
      && (IsReal(i) ==> DecodesAs(InstrAt(a), i, v, pc))
      && (IsPseudo(i) && !ReadsTemp(i) ==> Steps(a, WordCount(i)) == Documented(i, v, a))
  }

  /** Every instruction at an aligned address runs, its operand evaluated where pass 1 has come to. */
  ghost predicate CodeRuns(m: Memory, ls: Lines, zero: U64, seen: set<string>, pc: U64, env: Env)
    decreases ls
  {
    match ls
    case End => true
    case Then(l, rest) =>
      LineRuns(m, l, zero, seen, pc, env) &&
      var first, next := ReplayLine(l, zero, seen, pc, env), After(l, zero);
      first.Ok? && next.Ok? ==>
        CodeRuns(m, rest, next.value, SeenAfter(l, seen), first.value.out.pc, first.value.env)
  }

  ghost predicate LineRuns(m: Memory, l: Line, zero: U64, seen: set<string>, pc: U64, env: Env)
    decreases l
  {
    match l
    case Code(i) =>
      var v := Eval(Operand(i), true, pc, Look(env));
      v.Ok? && pc % 4 == 0 ==> Runs(m, i, v.value, pc)
    case Scope(body) => CodeRuns(m, body, zero, seen, pc, env + Own(body, zero, seen))
    case _ => true
  }

  lemma InstructionRuns(m: Memory, i: Instr, v: S64, pc: U64)
    requires pc % 4 == 0 && Holds(m, CellsFrom(pc, BytesOfWords(WordsOf(i, v, pc))))
    ensures Runs(m, i, v, pc)
  {
    hide Holds, CellsFrom, BytesOfWords, WordsOf, Loaded, Steps, Documented, DecodesAs;
    forall a: Arch | a.mem == m && a.pc == Wrap(pc)
      ensures Loaded(a, WordsOf(i, v, pc))
      ensures IsReal(i) ==> DecodesAs(InstrAt(a), i, v, pc)
      ensures IsPseudo(i) && !ReadsTemp(i) ==> Steps(a, WordCount(i)) == Documented(i, v, a)
    {
      InstructionIsLoaded(m, pc, WordsOf(i, v, pc), a);
      if IsReal(i) {
        RealInstructionsDecode(i, v, pc);
        assert WordsOf(i, v, pc) == [WordsOf(i, v, pc)[0]];
        OneStep(a, WordsOf(i, v, pc)[0]);
      }
      if IsPseudo(i) && !ReadsTemp(i) {
        PseudoMeans(i, v, pc, a);
      }
    }
  }

  lemma {:induction false} HeldCodeRuns(m: Memory, ls: Lines, zero: U64, seen: set<string>, pc: U64, env: Env)
    requires Replay(ls, zero, seen, pc, env).Ok? && Holds(m, Replay(ls, zero, seen, pc, env).value.out.cells)
    ensures CodeRuns(m, ls, zero, seen, pc, env)
    decreases ls, 0
  {
    hide ReplayLine, Meaning.After, Holds, LineRuns;
    if ls.Then? {
      var first := ReplayLine(ls.first, zero, seen, pc, env).value;
      var next, later := After(ls.first, zero).value, SeenAfter(ls.first, seen);
      HoldsParts(m, first.out.cells, Replay(ls.rest, next, later, first.out.pc, first.env).value.out.cells);
      HeldLineRuns(m, ls.first, zero, seen, pc, env);
      HeldCodeRuns(m, ls.rest, next, later, first.out.pc, first.env);
    }
  }

  lemma {:induction false} HeldLineRuns(m: Memory, l: Line, zero: U64, seen: set<string>, pc: U64, env: Env)
    requires ReplayLine(l, zero, seen, pc, env).Ok?
    requires Holds(m, ReplayLine(l, zero, seen, pc, env).value.out.cells)
    ensures LineRuns(m, l, zero, seen, pc, env)
    decreases l
  {
    hide Holds, Runs, WordsOf, BytesOfWords, CellsFrom;
    match l
    case Code(i) =>
      var v := Eval(Operand(i), true, pc, Look(env)).value;
      if pc % 4 == 0 {
        InstructionRuns(m, i, v, pc);
      }
    case Scope(body) => HeldCodeRuns(m, body, zero, seen, pc, env + Own(body, zero, seen));
    case _ =>
  }

  /**
   * From source to processor: in any memory that holds the bytes the assembler printed, every instruction
   * of the program runs from its own address, with its operand's value in pass 1.
   */
  lemma AssembledCodeRuns(p: Lines, m: Memory)
    requires Assemble(p).Ok? && Holds(m, Assemble(p).value.out.cells)
    ensures CodeRuns(m, p, 0, {}, 0, Writes(p, 0, {}))
  {
    hide Assembler.VisitLines, Replay, Writes, Holds, CodeRuns;
    AssembleReplays(p);
    HeldCodeRuns(m, p, 0, {}, 0, Writes(p, 0, {}));
  }
}
