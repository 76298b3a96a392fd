/**
 * The assembler as the object it is: stacks, an address pair, a current node and printed text,
 * all changed in place by the visitors. Each visitor is proved against the pure passes.
 */
module AssemblerVisitor {
  import opened Words
  import opened Expressions
  import opened Scopes
  import opened ScopedTables
  import opened Assembler
  import opened HexText
  import opened WordText
  import opened BitRanges
  import opened Generation
  import opened ScopeReplay

  lemma SameTop<T>(a: seq<T>, x: T, b: seq<T>, y: T)
    requires a + [x] == b + [y]
    ensures a == b && x == y
  {
    assert (a + [x])[..|a|] == a && (b + [y])[..|b|] == b;
    assert (a + [x])[|a|] == x && (b + [y])[|b|] == y;
  }

  class Visitor {
    const showWords: bool
    const symTbl: ScopedTable

    var pass: bool
    var currNode: nat
    var numStack: seq<S64>
    var strStack: seq<string>
    var childNums: seq<nat>
    var pcPrev: U64
    var pcCurr: U64
    var printed: string

    /** The bytes printed so far, the numbers they were printed as in word mode, and the nodes entered. */
    ghost var cells: seq<Cell>
    ghost var numbers: seq<Chunk>
    ghost var entered: seq<nat>

    ghost predicate Valid()
      reads this, symTbl
    {
      symTbl.Valid() && 0 < currNode < |symTbl.nodes|
    }

    /** Pass 0 prints nothing; pass 1 has printed exactly the bytes generated, or in word mode the numbers. */
    ghost predicate Printing()
      reads `pass, `printed, `cells, `numbers, `pcPrev
    {
      && (!pass ==> printed == "" && cells == [] && numbers == [])
      && (pass && !showWords ==> printed == Text(0, cells) && pcPrev == Reached(0, cells))
      && (pass && showWords ==>
            AllFit(numbers) && printed == WordLines(0, numbers) && AllCells(numbers) == cells &&
            pcPrev == ReachedBy(0, numbers))
    }

    ghost function Out(): Output
      reads this
    {
      Output(pcCurr, cells)
    }

    ghost function State(): Asm
      reads this, symTbl
    {
      Asm(symTbl.Contents(), currNode, childNums, Out(), entered)
    }

    constructor (showWords: bool)
      ensures this.showWords == showWords && !pass && fresh(symTbl)
      ensures Valid() && Printing() && State() == StartPass(Initial(), [])
      ensures numStack == [] && strStack == []
    {
      this.showWords := showWords;
      symTbl := new ScopedTable();
      pass, currNode, numStack, strStack, childNums := false, 1, [], [], [];
      pcPrev, pcCurr, printed, cells, numbers, entered := 0, 0, "", [], [], [];
    }

    // ----- stacks -----

    method PushNum(n: S64)
      modifies this`numStack
      ensures numStack == old(numStack) + [n]
    {
      numStack := numStack + [n];
    }

    method PopNum() returns (n: S64)
      requires numStack != []
      modifies this`numStack
      ensures old(numStack) == numStack + [n]
    {
      n := numStack[|numStack| - 1];
      numStack := numStack[..|numStack| - 1];
    }

    method PushStr(s: string)
      modifies this`strStack
      ensures strStack == old(strStack) + [s]
    {
      strStack := strStack + [s];
    }

    method PopStr() returns (s: string)
      requires strStack != []
      modifies this`strStack
      ensures old(strStack) == strStack + [s]
    {
      s := strStack[|strStack| - 1];
      strStack := strStack[..|strStack| - 1];
    }

    // ----- expressions -----

    /**
     * Visiting an expression pushes exactly one number, its value in this pass, and leaves the
     * rest of both stacks and the symbol table alone; or it stops for the reason the value gives.
     */
    method VisitExpr(e: Expr) returns (r: Result<()>)
      requires Valid()
      modifies this`numStack, this`strStack, symTbl
      ensures
        var v := Eval(e, pass, pcCurr, LookupIn(old(symTbl.Contents()), currNode));
        match v
        case Err(x) => r == Err(x)
        case Ok(n) =>
          r.Ok? && numStack == old(numStack) + [n] && strStack == old(strStack) &&
          Valid() && symTbl.Contents() == old(symTbl.Contents())
      decreases e
    {
      hide Expressions.Apply, Expressions.ApplyUnary, Scopes.Find;
      ghost var nums := numStack;
      match e
      case Num(v) =>
        PushNum(v);
        return Ok(());
      case Ident(name) =>
        r := VisitIdent(name);
      case CurrPc =>
        PushNum(ToS64(pcCurr));
        return Ok(());
      case Binary(op, left, right) =>
        var _ :- VisitExpr(left);
        ghost var leftTop := numStack[|nums|];
        var x := PopNum();
        SameTop(nums, leftTop, numStack, x);
        var _ :- VisitExpr(right);
        ghost var rightTop := numStack[|nums|];
        var y := PopNum();
        SameTop(nums, rightTop, numStack, y);
        var v :- Apply(op, x, y, pass);
        PushNum(v);
        return Ok(());
      case Unary(op, operand) =>
        var _ :- VisitExpr(operand);
        ghost var top := numStack[|nums|];
        var x := PopNum();
        SameTop(nums, top, numStack, x);
        var v :- ApplyUnary(op, x);
        PushNum(v);
        return Ok(());
    }

    method VisitIdent(name: string) returns (r: Result<()>)
      requires Valid()
      modifies this`numStack, this`strStack, symTbl
      ensures
        var v := Eval(Ident(name), pass, pcCurr, LookupIn(old(symTbl.Contents()), currNode));
        match v
        case Err(x) => r == Err(x)
        case Ok(n) =>
          r.Ok? && numStack == old(numStack) + [n] && strStack == old(strStack) &&
          Valid() && symTbl.Contents() == old(symTbl.Contents())
    {
      PushStr(name);
      if !pass {
        var unused := PopStr();
        SameTop(old(strStack), name, strStack, unused);
        PushNum(0);
        return Ok(());
      }
      var n := PopStr();
      SameTop(old(strStack), name, strStack, n);
      var sym := symTbl.FindOrInsert(currNode, n);
      if sym >= |symTbl.syms| || !symTbl.syms[sym].found {
        return Err(UnknownSymbol);
      }
      PushNum(ToS64(symTbl.syms[sym].addr));
      return Ok(());
    }

    // ----- generating -----

    method PrintMark()
      modifies this`printed
      ensures printed == old(printed) + Mark(pcPrev, pcCurr)
    {
      if pcPrev != pcCurr {
        printed := printed + ("@" + Hex(pcCurr) + "\n");
      }
    }

    method PrintByte(b: Byte)
      modifies this`printed
      ensures printed == old(printed) + HexByte(b)
    {
      if b < 0x10 {
        printed := printed + "0";
      }
      printed := printed + Hex(b);
    }

    /** The address moves on and the pair is backed up. */
    method Step(n: nat)
      modifies this`pcPrev, this`pcCurr
      ensures pcCurr == Advance(old(pcCurr), n) && pcPrev == pcCurr
    {
      pcCurr := Advance(pcCurr, n);
      pcPrev := pcCurr;
    }

    method Gen8(data: Byte)
      requires Printing()
      modifies this`pcPrev, this`pcCurr, this`printed, this`cells, this`numbers
      ensures Printing() && Out() == Generate(old(Out()), [data], pass) && pcPrev == pcCurr
      ensures pass ==> printed == old(printed) + Mark(old(pcPrev), old(pcCurr)) + HexByte(data) + "\n"
    {
      hide WordLines, AllCells, AllFit, ReachedBy, HexText.Text, HexByte, Mark, BytesOf;
      ghost var before, made := cells, CellsFrom(pcCurr, [data]);
      OneCell(pcCurr, data);
      if pass {
        PrintMark();
        PrintByte(data);
        cells := cells + made;
        LineOfText(before, Cell(pcCurr, data));
        if showWords {
          RecordByte(numbers, pcCurr, data);
          numbers := numbers + [Chunk(pcCurr, 1, data)];
        }
      }
      Step(1);
      if pass {
        printed := printed + "\n";
      }
    }

    /** One half of a word, in word mode. */
    method GenWords(data: Half)
      modifies this`pcPrev, this`pcCurr, this`printed, this`cells
      ensures Out() == Generate(old(Out()), BytesOf(data, 2), pass) && pcPrev == pcCurr
      ensures !pass ==> printed == old(printed)
      ensures pass ==> printed == old(printed) + Mark(old(pcPrev), old(pcCurr)) + HexHalf(data)
    {
      hide BitRanges.GetBits, Assembler.BytesOf, Assembler.CellsFrom, HexText.Text, HexText.HexByte, Mark, Advance;
      HalfParts(data);
      if pass {
        cells := cells + CellsFrom(pcCurr, BytesOf(data, 2));
        PrintMark();
        var a: Byte := GetBits(data, 15, 8);
        var b: Byte := GetBits(data, 7, 0);
        PrintByte(a);
        PrintByte(b);
      }
      Step(2);
    }

    method Gen16(data: Half)
      requires Printing()
      modifies this`pcPrev, this`pcCurr, this`printed, this`cells, this`numbers
      ensures Printing() && Out() == Generate(old(Out()), BytesOf(data, 2), pass)
      ensures pass && showWords ==>
        printed == old(printed) + Mark(old(pcPrev), old(pcCurr)) + HexHalf(data) + "\n"
    {
      hide BitRanges.GetBits, Assembler.BytesOf, Assembler.CellsFrom, HexText.Text, HexText.HexHalf, HexText.HexByte;
      hide WordLines, AllCells, AllFit, ReachedBy, Mark;
      HalfParts(data);
      if showWords {
        ghost var at := pcCurr;
        GenWords(data);
        if pass {
          printed := printed + "\n";
          RecordHalf(numbers, at, data);
          numbers := numbers + [Chunk(at, 2, data)];
        }
      } else {
        Gen8Twice(GetBits(data, 15, 8), GetBits(data, 7, 0), data);
      }
    }

    method Gen32(data: Word)
      requires Printing()
      modifies this`pcPrev, this`pcCurr, this`printed, this`cells, this`numbers
      ensures Printing() && Out() == Generate(old(Out()), BytesOf(data, 4), pass)
      ensures pass && showWords ==>
        printed == old(printed) + Mark(old(pcPrev), old(pcCurr)) + HexWord(data) + "\n"
    {
      hide BitRanges.GetBits, Assembler.BytesOf, HexText.Text, HexText.HexHalf, HexText.HexByte, CellsFrom, Advance;
      hide WordLines, AllCells, AllFit, ReachedBy, Mark;
      ghost var o := Out();
      WordParts(data);
      var hi: Half := GetBits(data, 31, 16);
      var lo: Half := GetBits(data, 15, 0);
      GenerateTwice(o, BytesOf(hi, 2), BytesOf(lo, 2), pass);
      if showWords {
        ghost var at := pcCurr;
        GenWords(hi);
        if pass {
          printed := printed + " ";
        }
        NoMark(pcPrev);
        GenWords(lo);
        if pass {
          printed := printed + "\n";
          RecordWord(numbers, at, data);
          numbers := numbers + [Chunk(at, 4, data)];
        }
      } else {
        Gen8Twice(GetBits(data, 31, 24), GetBits(data, 23, 16), hi);
        Gen8Twice(GetBits(data, 15, 8), GetBits(data, 7, 0), lo);
      }
    }

    method Gen8Twice(a: Byte, b: Byte, ghost half: Half)
      requires Printing() && half == 0x100 * a + b
      modifies this`pcPrev, this`pcCurr, this`printed, this`cells, this`numbers
      ensures Printing() && Out() == Generate(old(Out()), BytesOf(half, 2), pass)
    {
      hide Assembler.BytesOf, Assembler.Generate, HexText.Text, HexText.HexByte;
      ghost var o := Out();
      Gen8(a);
      Gen8(b);
      GenerateTwice(o, [a], [b], pass);
      BytesOfHalf(a, b);
    }

    // ----- lines -----

    /** The object is in the state that the pure visitor reaches, with both stacks as they were; or it stops alike. */
    ghost predicate Reaches(v: Result<Asm>, r: Result<()>, pass0: bool, curr: nat, nums: seq<S64>, strs: seq<string>,
          t: Table)
      reads this, symTbl
    {
      match v
      case Err(x) => r == Err(x)
      case Ok(s) =>
        r.Ok? && Valid() && Printing() && State() == s && pass == pass0 && currNode == curr &&
        numStack == nums && strStack == strs && Extends(t, symTbl.Contents())
    }

    method VisitLabel(name: string) returns (r: Result<()>)
      requires Valid() && Printing()
      modifies this, symTbl
      ensures Reaches(Assembler.VisitLine(old(State()), Label(name), old(pass)), r,
                      old(pass), old(currNode), old(numStack), old(strStack), old(symTbl.Contents()))
    {
      hide Printing;
      hide Scopes.Find, HexText.Text, Assembler.VisitLine, Extends;
      LabelIsVisited(State(), name, pass);
      ghost var t := symTbl.Contents();
      PushStr(name);
      var n := PopStr();
      SameTop(old(strStack), name, strStack, n);
      var here := symTbl.FindInThisBlockLevel(currNode, n);
      if here.Some? && !pass && here.value < |symTbl.syms| && symTbl.syms[here.value].found {
        return Err(DuplicateLabel);
      }
      var sym := symTbl.FindOrInsert(currNode, n);
      symTbl.SetLabel(sym, pcCurr);
      LabelExtends(t, currNode, name, sym, pcCurr);
      return Ok(());
    }

    /** The value of an expression, taken off the stack again. */
    method Evaluate(e: Expr) returns (r: Result<S64>)
      requires Valid()
      modifies this`numStack, this`strStack, symTbl
      ensures r == EvalHere(old(State()), e, pass)
      ensures r.Ok? ==>
        Valid() && numStack == old(numStack) && strStack == old(strStack) &&
        symTbl.Contents() == old(symTbl.Contents())
    {
      hide Expressions.Eval;
      ghost var nums := numStack;
      var _ :- VisitExpr(e);
      ghost var top := numStack[|nums|];
      var v := PopNum();
      SameTop(nums, top, numStack, v);
      return Ok(v);
    }

    /** The words of an instruction, one after another. */
    method EmitWords(ws: seq<Word>)
      requires Printing()
      modifies this`pcPrev, this`pcCurr, this`printed, this`cells, this`numbers
      ensures Printing() && Out() == Generate(old(Out()), BytesOfWords(ws), pass)
    {
      hide Assembler.BytesOfWords, Assembler.BytesOf, Assembler.Generate, HexText.Text;
      ghost var o := Out();
      NoWords(o, ws, pass);
      for k := 0 to |ws|
        invariant Printing() && Out() == Generate(o, BytesOfWords(ws[..k]), pass)
      {
        Gen32(ws[k]);
        assert ws[..k + 1] == ws[..k] + [ws[k]];
        WordsAppend(ws[..k], ws[k]);
        GenerateTwice(o, BytesOfWords(ws[..k]), BytesOf(ws[k], 4), pass);
      }
      assert ws[..|ws|] == ws;
    }

    method VisitInstruction(i: Instr) returns (r: Result<()>)
      requires Valid() && Printing()
      modifies this, symTbl
      ensures Reaches(Assembler.VisitLine(old(State()), Code(i), old(pass)), r,
                      old(pass), old(currNode), old(numStack), old(strStack), old(symTbl.Contents()))
    {
      hide Printing;
      hide Assembler.WordsOf, Assembler.Operand, Assembler.BytesOfWords, Assembler.Generate, Expressions.Eval;
      var v: S64 := 0;
      if TakesExpression(i) {
        v :- Evaluate(Operand(i));
      } else {
        NoExpression(State(), i, pass);
      }
      EmitWords(WordsOf(i, v, pcCurr));
      return Ok(());
    }

    method VisitOrg(e: Expr) returns (r: Result<()>)
      requires Valid() && Printing()
      modifies this, symTbl
      ensures Reaches(Assembler.VisitLine(old(State()), Org(e), old(pass)), r,
                      old(pass), old(currNode), old(numStack), old(strStack), old(symTbl.Contents()))
    {
      hide Printing;
      hide Expressions.Eval, HexText.Text;
      var v :- Evaluate(e);
      pcCurr := ToU64(v);
      return Ok(());
    }

    method VisitSpace(e: Expr) returns (r: Result<()>)
      requires Valid() && Printing()
      modifies this, symTbl
      ensures Reaches(Assembler.VisitLine(old(State()), Space(e), old(pass)), r,
                      old(pass), old(currNode), old(numStack), old(strStack), old(symTbl.Contents()))
    {
      hide Printing;
      hide Expressions.Eval, HexText.Text;
      var v :- Evaluate(e);
      pcCurr := ToU64(pcCurr + v);
      return Ok(());
    }

    /** `.db`, `.db16` and `.db8`: the number is cut to the argument's width. */
    method VisitData(width: Width, e: Expr) returns (r: Result<()>)
      requires Valid() && Printing()
      modifies this, symTbl
      ensures Reaches(Assembler.VisitLine(old(State()), Data(width, e), old(pass)), r,
                      old(pass), old(currNode), old(numStack), old(strStack), old(symTbl.Contents()))
    {
      hide Printing;
      hide Assembler.BytesOf, Assembler.Generate, Expressions.Eval;
      var v :- Evaluate(e);
      if width == 4 {
        CutKeepsFour(ToU64(v));
        Gen32(ToU64(v) % 0x1_0000_0000);
      } else if width == 2 {
        CutKeepsTwo(ToU64(v));
        Gen16(ToU64(v) % 0x1_0000);
      } else {
        Generation.OneByte(ToU64(v));
        Gen8(ToU64(v) % 0x100);
      }
      return Ok(());
    }

    method EnterBlock() returns (r: Result<()>)
      requires Valid() && Printing()
      modifies this, symTbl
      ensures
        match EnterScope(old(State()), old(pass))
        case Err(x) => r == Err(x)
        case Ok(s) =>
          r.Ok? && Valid() && Printing() && State() == s && pass == old(pass) &&
          numStack == old(numStack) && strStack == old(strStack) &&
          Extends(old(symTbl.Contents()), symTbl.Contents()) &&
          currNode < |symTbl.nodes| && symTbl.nodes[currNode].parent == old(currNode)
    {
      hide Printing;
      if !pass {
        currNode := symTbl.MkScope(currNode);
      } else {
        var children := symTbl.nodes[currNode].children;
        if |childNums| == 0 || childNums[|childNums| - 1] >= |children| {
          return Err(NoSuchScope);
        }
        assert symTbl.IsChild(currNode, children[childNums[|childNums| - 1]]);
        currNode := children[childNums[|childNums| - 1]];
        childNums := childNums + [0];
      }
      entered := entered + [currNode];
      return Ok(());
    }

    method LeaveBlock(ghost outer: nat) returns (r: Result<()>)
      requires Valid() && Printing() && symTbl.nodes[currNode].parent == outer > 0
      modifies this
      ensures Reaches(LeaveScope(old(State()), old(pass)), r,
                      old(pass), outer, old(numStack), old(strStack), old(symTbl.Contents()))
    {
      hide Printing;
      if !pass {
        currNode := symTbl.RmScope(currNode);
      } else {
        if |childNums| == 0 {
          return Err(NoSuchScope);
        }
        childNums := childNums[..|childNums| - 1];
        if |childNums| >= 1 {
          var temp := childNums[|childNums| - 1];
          childNums := childNums[..|childNums| - 1];
          childNums := childNums + [temp + 1];
        }
        currNode := symTbl.nodes[currNode].parent;
      }
      return Ok(());
    }

    method VisitScope(body: Lines) returns (r: Result<()>)
      requires Valid() && Printing()
      modifies this, symTbl
      ensures Reaches(Assembler.VisitLine(old(State()), Scope(body), old(pass)), r,
                      old(pass), old(currNode), old(numStack), old(strStack), old(symTbl.Contents()))
      decreases body, 1
    {
      hide Assembler.VisitLine, Assembler.VisitLines, Assembler.EnterScope, Assembler.LeaveScope, Printing;
      BlockIsVisited(State(), body, pass);
      ghost var t0, outer := symTbl.Contents(), currNode;
      var _ :- EnterBlock();
      ghost var t1 := symTbl.Contents();
      var _ :- VisitLines(body);
      ghost var t2 := symTbl.Contents();
      r := LeaveBlock(outer);
      ExtendsTwice(t0, t1, t2);
    }

    method VisitLine(l: Line) returns (r: Result<()>)
      requires Valid() && Printing()
      modifies this, symTbl
      ensures Reaches(Assembler.VisitLine(old(State()), l, old(pass)), r,
                      old(pass), old(currNode), old(numStack), old(strStack), old(symTbl.Contents()))
      decreases l
    {
      match l
      case Blank => return Ok(());
      case Label(name) => r := VisitLabel(name);
      case Code(i) => r := VisitInstruction(i);
      case Org(e) => r := VisitOrg(e);
      case Space(e) => r := VisitSpace(e);
      case Data(width, e) => r := VisitData(width, e);
      case Scope(body) => r := VisitScope(body);
    }

    /** The loop over the lines of a program or of a block. */
    method VisitLines(ls: Lines) returns (r: Result<()>)
      requires Valid() && Printing()
      modifies this, symTbl
      ensures Reaches(Assembler.VisitLines(old(State()), ls, old(pass)), r,
                      old(pass), old(currNode), old(numStack), old(strStack), old(symTbl.Contents()))
      decreases ls, 0
    {
      hide Assembler.VisitLine, Printing;
      var rest := ls;
      while rest.Then?
        invariant Valid() && Printing() && pass == old(pass) && currNode == old(currNode)
        invariant numStack == old(numStack) && strStack == old(strStack)
        invariant Extends(old(symTbl.Contents()), symTbl.Contents())
        invariant Assembler.VisitLines(old(State()), ls, pass) == Assembler.VisitLines(State(), rest, pass)
        invariant rest == ls || rest < ls
        decreases rest
      {
        ghost var t := symTbl.Contents();
        var _ :- VisitLine(rest.first);
        ExtendsTwice(old(symTbl.Contents()), t, symTbl.Contents());
        rest := rest.rest;
      }
      return Ok(());
    }

    /** One pass from address 0 in the first scope. */
    method RunPass(p: Lines) returns (r: Result<()>)
      requires symTbl.Valid() && printed == "" && cells == [] && numbers == [] && entered == []
      requires numStack == [] && strStack == []
      modifies this, symTbl
      ensures Reaches(Assembler.VisitLines(StartPass(old(symTbl.Contents()), old(childNums)), p, old(pass)), r,
                      old(pass), 1, [], [], old(symTbl.Contents()))
    {
      pcCurr := 0;
      pcPrev := pcCurr;
      currNode := 1;
      assert State() == StartPass(old(symTbl.Contents()), old(childNums));
      r := VisitLines(p);
    }

    /**
     * Both passes over a program. The object ends in the state of the pure assembler, and has printed
     * exactly the bytes of pass 1: one a line in byte mode, one number a line in word mode.
     */
    method Run(p: Lines) returns (r: Result<()>)
      requires Valid() && Printing() && !pass && symTbl.Contents() == Initial()
      requires childNums == [] && numStack == [] && strStack == [] && entered == []
      modifies this, symTbl
      ensures
        match Assemble(p)
        case Err(x) => r == Err(x)
        case Ok(s) =>
          r.Ok? && State() == s && numStack == [] && strStack == [] &&
          (!showWords ==> printed == Text(0, s.out.cells)) &&
          (showWords ==> AllFit(numbers) && printed == WordLines(0, numbers) && AllCells(numbers) == s.out.cells)
    {
      hide Assembler.VisitLines;
      childNums := childNums + [0];
      assert childNums == [0];
      var _ :- RunPass(p);
      ghost var s0 := State();
      pass, entered := true, [];
      r := RunPass(p);
    }
  }

  lemma LabelIsVisited(s: Asm, name: string, pass: bool)
    ensures Assembler.VisitLine(s, Label(name), pass) == Assembler.VisitLabel(s, name, pass)
  {
  }

  lemma LabelExtends(t: Table, n: nat, name: string, sym: nat, addr: U64)
    requires n < |t.nodes|
    ensures Extends(t, Scopes.SetLabel(Scopes.FindOrInsert(t, n, name).0, sym, addr))
  {
  }

  lemma NoExpression(s: Asm, i: Instr, pass: bool)
    requires !TakesExpression(i)
    ensures EvalHere(s, Operand(i), pass) == Ok(0)
  {
  }

  lemma NoWords(o: Output, ws: seq<Word>, pass: bool)
    ensures Generate(o, BytesOfWords(ws[..0]), pass) == o
  {
    GenerateNothing(o, pass);
  }

  lemma ExtendsTwice(t: Table, u: Table, v: Table)
    requires Extends(t, u) && Extends(u, v)
    ensures Extends(t, v)
  {
  }

  lemma NoMark(at: U64)
    ensures Mark(at, at) == ""
  {
  }

  lemma BytesOfHalf(a: Byte, b: Byte)
    ensures BytesOf(0x100 * a + b, 2) == [a] + [b]
  {
    hide Assembler.BytesOf;
    TwoBytes(0x100 * a + b);
    var x, y: int := a, b;
    assert (0x100 * x + y) / 0x100 == x && (0x100 * x + y) % 0x100 == y && x % 0x100 == x;
  }

  lemma OneCell(pc: U64, b: Byte)
    ensures CellsFrom(pc, [b]) == [Cell(pc, b)]
  {
    assert [b][1..] == [];
    assert CellsFrom(Advance(pc, 1), []) == [];
  }

  lemma RecordByte(before: seq<Chunk>, at: U64, n: Byte)
    requires AllFit(before)
    ensures
      var after := before + [Chunk(at, 1, n)];
      AllFit(after) && ReachedBy(0, after) == Advance(at, 1) &&
      WordLines(0, after) == WordLines(0, before) + Mark(ReachedBy(0, before), at) + HexByte(n) + "\n" &&
      AllCells(after) == AllCells(before) + CellsFrom(at, [n])
  {
    hide Mark, HexByte;
    OneMoreLine(0, before, Chunk(at, 1, n));
    Generation.OneByte(n);
  }

  lemma RecordHalf(before: seq<Chunk>, at: U64, n: Half)
    requires AllFit(before)
    ensures
      var after := before + [Chunk(at, 2, n)];
      AllFit(after) && ReachedBy(0, after) == Advance(at, 2) &&
      WordLines(0, after) == WordLines(0, before) + Mark(ReachedBy(0, before), at) + HexHalf(n) + "\n" &&
      AllCells(after) == AllCells(before) + CellsFrom(at, BytesOf(n, 2))
  {
    hide Mark, HexHalf;
    OneMoreLine(0, before, Chunk(at, 2, n));
  }

  lemma RecordWord(before: seq<Chunk>, at: U64, n: Word)
    requires AllFit(before)
    ensures
      var after := before + [Chunk(at, 4, n)];
      AllFit(after) && ReachedBy(0, after) == Advance(at, 4) &&
      WordLines(0, after) == WordLines(0, before) + Mark(ReachedBy(0, before), at) + HexWord(n) + "\n" &&
      AllCells(after) == AllCells(before) + CellsFrom(at, BytesOf(n, 4))
  {
    hide Mark, HexWord;
    OneMoreLine(0, before, Chunk(at, 4, n));
  }

  /** One more byte is one more line of text. */
  lemma LineOfText(cells: seq<Cell>, c: Cell)
    ensures
      Text(0, cells + [c]) ==
      Text(0, cells) + Mark(Reached(0, cells), c.at) + HexByte(c.data) + "\n"
    ensures Reached(0, cells + [c]) == Advance(c.at, 1)
  {
    TextAppends(0, cells, [c]);
    assert [c][1..] == [] && Text(Advance(c.at, 1), []) == "";
    var line := Mark(Reached(0, cells), c.at) + HexByte(c.data) + "\n";
    assert Text(Reached(0, cells), [c]) == line + "";
    assert Text(0, cells) + line == Text(0, cells) + Mark(Reached(0, cells), c.at) + HexByte(c.data) + "\n";
  }
}
