/** What an assembly program means: no tables, no passes and no stacks, only nested environments. */
module Meaning {
  import opened Words
  import opened Expressions
  import opened Assembler

  type Env = map<string, U64>

  function Look(env: Env): Lookup {
    name => if name in env then Some(env[name]) else None
  }

  function NoNames(): Lookup {
    name => None
  }

  /** The address after a line. Operand values do not matter; names in `.org` and `.space` count as zero. */
  function After(l: Line, pc: U64): Result<U64>
    decreases l
  {
    match l
    case Blank => Ok(pc)
    case Label(name) => Ok(pc)
    case Code(i) => Ok(Advance(pc, 4 * WordCount(i)))
    case Org(e) =>
      var v :- Eval(e, false, pc, NoNames());
      Ok(ToU64(v))
    case Space(e) =>
      var v :- Eval(e, false, pc, NoNames());
      Ok(ToU64(pc + v))
    case Data(width, e) => Ok(Advance(pc, width))
    case Scope(body) => AfterLines(body, pc)
  }

  function AfterLines(ls: Lines, pc: U64): Result<U64>
    decreases ls
  {
    match ls
    case End => Ok(pc)
    case Then(l, rest) =>
      var next :- After(l, pc);
      AfterLines(rest, next)
  }

  /** The labels that these lines declare themselves, not inside a nested block. */
  function Names(ls: Lines): set<string> {
    match ls
    case End => {}
    case Then(l, rest) => (if l.Label? then {l.name} else {}) + Names(rest)
  }

  /** The address of each of those labels when the lines start at `pc`. */
  function Labels(ls: Lines, pc: U64): Env {
    match ls
    case End => map[]
    case Then(l, rest) =>
      var others := if After(l, pc).Ok? then Labels(rest, After(l, pc).value) else map[];
      if l.Label? then others[l.name := pc] else others
  }

  function Emitted(pc: U64, b: seq<Byte>): Output {
    Output(Advance(pc, |b|), CellsFrom(pc, b))
  }

  /** The bytes a line places from `pc` on, and the address after it. A block sees all its own labels. */
  function DenoteLine(l: Line, pc: U64, env: Env): Result<Output>
    decreases l
  {
    match l
    case Blank => Ok(Output(pc, []))
    case Label(name) => Ok(Output(pc, []))
    case Code(i) =>
      var v :- Eval(Operand(i), true, pc, Look(env));
      Ok(Emitted(pc, BytesOfWords(WordsOf(i, v, pc))))
    case Org(e) =>
      var v :- Eval(e, true, pc, Look(env));
      Ok(Output(ToU64(v), []))
    case Space(e) =>
      var v :- Eval(e, true, pc, Look(env));
      Ok(Output(ToU64(pc + v), []))
    case Data(width, e) =>
      var v :- Eval(e, true, pc, Look(env));
      Ok(Emitted(pc, BytesOf(ToU64(v), width)))
    case Scope(body) => Denote(body, pc, env + Labels(body, pc))
  }

  function Denote(ls: Lines, pc: U64, env: Env): Result<Output>
    decreases ls
  {
    match ls
    case End => Ok(Output(pc, []))
    case Then(l, rest) =>
      var first :- DenoteLine(l, pc, env);
      var others :- Denote(rest, first.pc, env);
      Ok(Output(others.pc, first.cells + others.cells))
  }

  /** The meaning of a whole program. */
  function Program(p: Lines): Result<Output> {
    Denote(p, 0, Labels(p, 0))
  }

  // ----- the same with two layouts, for programs whose layout mentions labels -----

  /**
   * What pass 1 makes of a line when every label stands for its pass 0 address: `zero` is where the
   * layout of pass 0 has come to, `pc` where pass 1 has.
   */
  function ImageLine(l: Line, zero: U64, pc: U64, env: Env): Result<Output>
    decreases l
  {
    match l
    case Scope(body) => Image(body, zero, pc, env + Labels(body, zero))
    case _ => DenoteLine(l, pc, env)
  }

  function Image(ls: Lines, zero: U64, pc: U64, env: Env): Result<Output>
    decreases ls
  {
    match ls
    case End => Ok(Output(pc, []))
    case Then(l, rest) =>
      var first :- ImageLine(l, zero, pc, env);
      var next :- After(l, zero);
      var others :- Image(rest, next, first.pc, env);
      Ok(Output(others.pc, first.cells + others.cells))
  }

  /** Both layouts put every label at the same address. */
  predicate LabelsStay(ls: Lines, zero: U64, pc: U64, env: Env)
    decreases ls
  {
    match ls
    case End => true
    case Then(l, rest) =>
      LabelsStayOf(l, zero, pc, env) &&
      var first, next := ImageLine(l, zero, pc, env), After(l, zero);
      first.Ok? && next.Ok? ==> LabelsStay(rest, next.value, first.value.pc, env)
  }

  predicate LabelsStayOf(l: Line, zero: U64, pc: U64, env: Env)
    decreases l
  {
    match l
    case Label(name) => zero == pc
    case Scope(body) => LabelsStay(body, zero, pc, env + Labels(body, zero))
    case _ => true
  }

  /** The condition and the image of a whole program. */
  predicate ProgramStays(p: Lines) {
    LabelsStay(p, 0, 0, Labels(p, 0))
  }

  function ProgramImage(p: Lines): Result<Output> {
    Image(p, 0, 0, Labels(p, 0))
  }

  /** No `.org` or `.space` mentions a label. */
  predicate FixedLayout(ls: Lines) {
    match ls
    case End => true
    case Then(l, rest) => FixedLayoutOf(l) && FixedLayout(rest)
  }

  predicate FixedLayoutOf(l: Line) {
    match l
    case Org(e) => LabelFree(e)
    case Space(e) => LabelFree(e)
    case Scope(body) => FixedLayout(body)
    case _ => true
  }

  /** No block declares a label that an enclosing block has already declared above it. */
  predicate NoShadowing(ls: Lines, seen: set<string>)
    decreases ls
  {
    match ls
    case End => true
    case Then(l, rest) =>
      match l
      case Label(name) => NoShadowing(rest, seen + {name})
      case Scope(body) => Names(body) !! seen && NoShadowing(body, seen) && NoShadowing(rest, seen)
      case _ => NoShadowing(rest, seen)
  }

  lemma LabelsAreNames(ls: Lines, pc: U64)
    requires AfterLines(ls, pc).Ok?
    ensures Labels(ls, pc).Keys == Names(ls)
  {
    match ls
    case End =>
    case Then(l, rest) => LabelsAreNames(rest, After(l, pc).value);
  }

  lemma WordCountIsLength(i: Instr, v: S64, pc: U64)
    ensures |WordsOf(i, v, pc)| == WordCount(i)
  {
    match i
    case _ =>
  }

  /** With a fixed layout, the meaning puts every line where the names-are-zero layout put it. */
  lemma {:induction false} LineLayoutAgrees(l: Line, pc: U64, env: Env)
    requires FixedLayoutOf(l) && DenoteLine(l, pc, env).Ok?
    ensures After(l, pc) == Ok(DenoteLine(l, pc, env).value.pc)
    decreases l
  {
    match l
    case Blank =>
    case Label(name) =>
    case Code(i) => WordCountIsLength(i, Eval(Operand(i), true, pc, Look(env)).value, pc);
    case Org(e) => LabelFreeAgrees(e, pc, Look(env), NoNames());
    case Space(e) => LabelFreeAgrees(e, pc, Look(env), NoNames());
    case Data(width, e) =>
    case Scope(body) => LayoutAgrees(body, pc, env + Labels(body, pc));
  }

  lemma {:induction false} LayoutAgrees(ls: Lines, pc: U64, env: Env)
    requires FixedLayout(ls) && Denote(ls, pc, env).Ok?
    ensures AfterLines(ls, pc) == Ok(Denote(ls, pc, env).value.pc)
    decreases ls
  {
    match ls
    case End =>
    case Then(l, rest) =>
      LineLayoutAgrees(l, pc, env);
      LayoutAgrees(rest, DenoteLine(l, pc, env).value.pc, env);
  }

  /** A fixed layout moves no label, and its image is its meaning. */
  lemma {:induction false} FixedLayoutStays(ls: Lines, pc: U64, env: Env)
    requires FixedLayout(ls)
    ensures LabelsStay(ls, pc, pc, env) && Image(ls, pc, pc, env) == Denote(ls, pc, env)
    decreases ls, 0
  {
    hide DenoteLine, ImageLine, LabelsStayOf, FixedLayoutOf;
    if ls.Then? {
      FixedLineStays(ls.first, pc, env);
      if DenoteLine(ls.first, pc, env).Ok? {
        LineLayoutAgrees(ls.first, pc, env);
        FixedLayoutStays(ls.rest, DenoteLine(ls.first, pc, env).value.pc, env);
      }
    }
  }

  lemma {:induction false} FixedLineStays(l: Line, pc: U64, env: Env)
    requires FixedLayoutOf(l)
    ensures LabelsStayOf(l, pc, pc, env) && ImageLine(l, pc, pc, env) == DenoteLine(l, pc, env)
    decreases l
  {
    if l.Scope? {
      FixedLayoutStays(l.body, pc, env + Labels(l.body, pc));
    }
  }
}
