/** Word mode's text, one line for each number generated, and reading it back line by line. */
module WordText {
  import opened Words
  import opened Expressions
  import opened Assembler
  import opened HexText

  /** A number generated at an address, with its width in bytes. */
  datatype Chunk = Chunk(at: U64, width: Width, n: Word)

  predicate Fits(c: Chunk) {
    (c.width == 1 ==> c.n < 0x100) && (c.width == 2 ==> c.n < 0x1_0000)
  }

  function Digits(c: Chunk): string
    requires Fits(c)
  {
    if c.width == 1 then HexByte(c.n) else if c.width == 2 then HexHalf(c.n) else HexWord(c.n)
  }

  /** A line as printed after the address has come to `prev`. */
  function LineText(prev: U64, c: Chunk): string
    requires Fits(c)
  {
    Mark(prev, c.at) + Digits(c) + "\n"
  }

  predicate AllFit(cs: seq<Chunk>) {
    forall i :: 0 <= i < |cs| ==> Fits(cs[i])
  }

  function ReachedBy(prev: U64, cs: seq<Chunk>): U64 {
    if |cs| == 0 then prev else Advance(cs[|cs| - 1].at, cs[|cs| - 1].width)
  }

  /** What word mode prints for numbers generated one after another. */
  function WordLines(prev: U64, cs: seq<Chunk>): string
    requires AllFit(cs)
  {
    if |cs| == 0 then ""
    else
      var before := cs[..|cs| - 1];
      WordLines(prev, before) + LineText(ReachedBy(prev, before), cs[|cs| - 1])
  }

  function CellsOf(c: Chunk): seq<Cell> {
    CellsFrom(c.at, BytesOf(c.n, c.width))
  }

  /** The bytes of those numbers. */
  function AllCells(cs: seq<Chunk>): seq<Cell> {
    if |cs| == 0 then [] else AllCells(cs[..|cs| - 1]) + CellsOf(cs[|cs| - 1])
  }

  lemma OneMoreLine(prev: U64, cs: seq<Chunk>, c: Chunk)
    requires AllFit(cs) && Fits(c)
    ensures AllFit(cs + [c]) && WordLines(prev, cs + [c]) == WordLines(prev, cs) + LineText(ReachedBy(prev, cs), c)
    ensures AllCells(cs + [c]) == AllCells(cs) + CellsOf(c) && ReachedBy(prev, cs + [c]) == Advance(c.at, c.width)
  {
    assert (cs + [c])[..|cs|] == cs;
  }

  // ----- reading the lines -----

  /** What a line has held so far. */
  datatype LineMode = Start | InMark(a: nat) | InNumber(n: nat, digits: nat)

  /**
   * A reader of the text: a mark sets the address, a line of 2, 4 or 8 digits is a number. The disassembler
   * takes the same lines apart, and keeps the low 32 bits of an address.
   */
  datatype Reader = Reader(addr: U64, mode: LineMode, written: seq<Cell>)

  function EndLine(r: Reader): Option<Reader> {
    match r.mode
    case Start => Some(r)
    case InMark(a) => Some(Reader(ToU64(a), Start, r.written))
    case InNumber(n, digits) =>
      if digits == 2 || digits == 4 || digits == 8 then
        Some(Reader(Advance(r.addr, digits / 2), Start, r.written + CellsFrom(r.addr, BytesOf(n, digits / 2))))
      else None
  }

  /** Spaces inside a line do not count. */
  function Read(r: Reader, c: char): Option<Reader> {
    if c == '\n' then EndLine(r)
    else if c == ' ' then Some(r)
    else if c == '@' && r.mode.Start? then Some(r.(mode := InMark(0)))
    else if DigitValue(c).None? then None
    else
      var d := DigitValue(c).value;
      match r.mode
      case Start => Some(r.(mode := InNumber(d, 1)))
      case InMark(a) => Some(r.(mode := InMark(16 * a + d)))
      case InNumber(n, k) => Some(r.(mode := InNumber(16 * n + d, k + 1)))
  }

  function ReadAll(r: Reader, s: string): Option<Reader> {
    if |s| == 0 then Some(r)
    else
      var before := ReadAll(r, s[..|s| - 1]);
      if before.None? then None else Read(before.value, s[|s| - 1])
  }

  lemma {:induction false} ReadAppends(r: Reader, a: string, b: string)
    requires ReadAll(r, a).Some?
    ensures ReadAll(r, a + b) == ReadAll(ReadAll(r, a).value, b)
    decreases |b|
  {
    if |b| == 0 {
      assert a + b == a;
    } else {
      assert (a + b)[..|a + b| - 1] == a + b[..|b| - 1];
      ReadAppends(r, a, b[..|b| - 1]);
    }
  }

  lemma ReadOne(r: Reader, c: char)
    ensures ReadAll(r, [c]) == Read(r, c)
  {
    assert [c][..0] == "" && ReadAll(r, "") == Some(r);
  }

  lemma {:induction false} ReadsAddress(r: Reader, n: nat)
    requires r.mode == InMark(0)
    ensures ReadAll(r, Hex(n)) == Some(r.(mode := InMark(n)))
  {
    DigitReads(n % 16);
    if n < 16 {
      ReadOne(r, Digit(n));
    } else {
      ReadsAddress(r, n / 16);
      ReadAppends(r, Hex(n / 16), [Digit(n % 16)]);
      ReadOne(r.(mode := InMark(n / 16)), Digit(n % 16));
    }
  }

  lemma ReadsMark(r: Reader, at: U64)
    requires r.mode == Start
    ensures ReadAll(r, Mark(r.addr, at)) == Some(r.(addr := at))
  {
    if at == r.addr {
      ReadNothing(r);
    } else {
      hide ReadAll, Hex, Read;
      MarkOpens(r);
      ReadAppends(r, "@", Hex(at));
      ReadsAddress(r.(mode := InMark(0)), at);
      ReadAppends(r, "@" + Hex(at), "\n");
      MarkCloses(r, at);
    }
  }

  lemma MarkOpens(r: Reader)
    requires r.mode == Start
    ensures ReadAll(r, "@") == Some(r.(mode := InMark(0)))
  {
    ReadOne(r, '@');
  }

  lemma MarkCloses(r: Reader, at: U64)
    ensures ReadAll(r.(mode := InMark(at)), "\n") == Some(r.(addr := at, mode := Start))
  {
    ReadOne(r.(mode := InMark(at)), '\n');
  }

  function NumberMode(n: nat, k: nat): LineMode {
    if k == 0 then Start else InNumber(n, k)
  }

  lemma ReadsByte(r: Reader, n: nat, k: nat, b: Byte)
    requires r.mode == NumberMode(n, k) && (k == 0 ==> n == 0)
    ensures ReadAll(r, HexByte(b)) == Some(r.(mode := InNumber(0x100 * n + b, k + 2)))
  {
    hide ReadAll, HexByte, Digit;
    var hi, lo := b / 16, b % 16;
    assert b == 16 * hi + lo;
    TwoDigits(b);
    ReadsDigit(r, n, k, hi);
    ReadAppends(r, [Digit(hi)], [Digit(lo)]);
    ReadsDigit(r.(mode := InNumber(16 * n + hi, k + 1)), 16 * n + hi, k + 1, lo);
  }

  lemma ReadsDigit(r: Reader, n: nat, k: nat, d: Nibble)
    requires r.mode == NumberMode(n, k) && (k == 0 ==> n == 0)
    ensures ReadAll(r, [Digit(d)]) == Some(r.(mode := InNumber(16 * n + d, k + 1)))
  {
    hide ReadAll, DigitValue, Digit;
    DigitReads(d);
    ReadOne(r, Digit(d));
  }

  lemma ReadsHalf(r: Reader, n: nat, k: nat, h: Half)
    requires r.mode == NumberMode(n, k) && (k == 0 ==> n == 0)
    ensures ReadAll(r, HexHalf(h)) == Some(r.(mode := InNumber(0x1_0000 * n + h, k + 4)))
  {
    hide HexByte, ReadAll;
    var a, b := h / 0x100, h % 0x100;
    assert h == 0x100 * a + b;
    ReadsByte(r, n, k, a);
    ReadAppends(r, HexByte(a), HexByte(b));
    ReadsByte(r.(mode := InNumber(0x100 * n + a, k + 2)), 0x100 * n + a, k + 2, b);
  }

  lemma ReadsWord(r: Reader, w: Word)
    requires r.mode == Start
    ensures ReadAll(r, HexWord(w)) == Some(r.(mode := InNumber(w, 8)))
  {
    hide HexHalf, ReadAll;
    var a, b := w / 0x1_0000, w % 0x1_0000;
    ReadsHalf(r, 0, 0, a);
    ReadAppends(r, HexHalf(a), " ");
    ReadOne(r.(mode := InNumber(a, 4)), ' ');
    ReadAppends(r, HexHalf(a) + " ", HexHalf(b));
    ReadsHalf(r.(mode := InNumber(a, 4)), a, 4, b);
  }

  lemma ReadsDigits(r: Reader, c: Chunk)
    requires r.mode == Start && Fits(c)
    ensures ReadAll(r, Digits(c)) == Some(r.(mode := InNumber(c.n, 2 * c.width)))
  {
    hide HexByte, HexHalf, HexWord, ReadAll;
    if c.width == 1 {
      ReadsByte(r, 0, 0, c.n);
    } else if c.width == 2 {
      ReadsHalf(r, 0, 0, c.n);
    } else {
      ReadsWord(r, c.n);
    }
  }

  lemma ReadsLine(r: Reader, c: Chunk)
    requires r.mode == Start && Fits(c)
    ensures ReadAll(r, LineText(r.addr, c)) == Some(Reader(Advance(c.at, c.width), Start, r.written + CellsOf(c)))
  {
    hide ReadAll, Mark, Digits;
    ReadsMark(r, c.at);
    ReadAppends(r, Mark(r.addr, c.at), Digits(c));
    ReadsDigits(r.(addr := c.at), c);
    ReadAppends(r, Mark(r.addr, c.at) + Digits(c), "\n");
    ReadOne(r.(addr := c.at, mode := InNumber(c.n, 2 * c.width)), '\n');
  }

  /** Reading word mode's text from where the printer started gives exactly the bytes generated, in order. */
  lemma {:induction false} ReadingReplays(r: Reader, cs: seq<Chunk>)
    requires r.mode == Start && AllFit(cs)
    ensures ReadAll(r, WordLines(r.addr, cs)) == Some(Reader(ReachedBy(r.addr, cs), Start, r.written + AllCells(cs)))
    decreases |cs|
  {
    hide ReadAll, LineText, CellsOf;
    if |cs| == 0 {
      ReadNothing(r);
      assert r.written + [] == r.written;
    } else {
      var before, c := cs[..|cs| - 1], cs[|cs| - 1];
      ReadingReplays(r, before);
      ReadAppends(r, WordLines(r.addr, before), LineText(ReachedBy(r.addr, before), c));
      ReadsLine(Reader(ReachedBy(r.addr, before), Start, r.written + AllCells(before)), c);
      assert r.written + AllCells(before) + CellsOf(c) == r.written + (AllCells(before) + CellsOf(c));
    }
  }

  lemma ReadNothing(r: Reader)
    ensures ReadAll(r, "") == Some(r)
  {
  }
}
