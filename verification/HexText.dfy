/** The hexadecimal text the assembler prints, and reading it back. */
module HexText {
  import opened Words
  import opened Bits
  import opened Expressions
  import opened Assembler
  import Arithmetic
  import Meaning
  import Shadowing
  import TwoPasses

  // ----- digits -----

  function Digit(d: Nibble): char {
    if d < 10 then '0' + d as char else 'a' + (d - 10) as char
  }

  function DigitValue(c: char): Option<Nibble> {
    if '0' <= c <= '9' then Some(c as int - '0' as int)
    else if 'a' <= c <= 'f' then Some(c as int - 'a' as int + 10)
    else if 'A' <= c <= 'F' then Some(c as int - 'A' as int + 10)
    else None
  }

  /** A number in hexadecimal, without leading zeros. */
  function Hex(n: nat): string {
    if n < 16 then [Digit(n)] else Hex(n / 16) + [Digit(n % 16)]
  }

  /** Two digits: a zero is printed in front of a single one. */
  function HexByte(b: Byte): string {
    (if b < 0x10 then "0" else "") + Hex(b)
  }

  // ----- what the assembler prints -----

  /** The mark printed when the address is not the one after the last byte. */
  function Mark(prev: U64, at: U64): string {
    if at != prev then "@" + Hex(at) + "\n" else ""
  }

  /** Byte mode: one line for each byte. */
  function Text(prev: U64, cells: seq<Cell>): string
    decreases |cells|
  {
    if |cells| == 0 then ""
    else Mark(prev, cells[0].at) + HexByte(cells[0].data) + "\n" + Text(Advance(cells[0].at, 1), cells[1..])
  }

  /** The address after the last byte. */
  function Reached(prev: U64, cells: seq<Cell>): U64 {
    if |cells| == 0 then prev else Advance(cells[|cells| - 1].at, 1)
  }

  function HexHalf(h: Half): string {
    HexByte(h / 0x100) + HexByte(h % 0x100)
  }

  /** Word mode: a 32-bit word as two halves. */
  function HexWord(w: Word): string {
    HexHalf(w / 0x1_0000) + " " + HexHalf(w % 0x1_0000)
  }

  lemma {:induction false} TextAppends(prev: U64, a: seq<Cell>, b: seq<Cell>)
    ensures Text(prev, a + b) == Text(prev, a) + Text(Reached(prev, a), b)
    decreases |a|
  {
    if |a| == 0 {
      assert a + b == b;
    } else {
      assert (a + b)[1..] == a[1..] + b;
      TextAppends(Advance(a[0].at, 1), a[1..], b);
    }
  }

  // ----- a loader for memory images -----

  datatype Mode = Between | InAddress(a: nat) | InData(d: nat)

  /** The loader keeps an address and what it has written; `@` sets the address, a number is a byte to write. */
  datatype Loader = Loader(addr: U64, mode: Mode, written: seq<Cell>)

  function EndOfToken(r: Loader): Option<Loader> {
    match r.mode
    case Between => Some(r)
    case InAddress(a) => Some(Loader(ToU64(a), Between, r.written))
    case InData(d) =>
      if d < 0x100 then Some(Loader(Advance(r.addr, 1), Between, r.written + [Cell(r.addr, d)])) else None
  }

  function Feed(r: Loader, c: char): Option<Loader> {
    if c == ' ' || c == '\n' then EndOfToken(r)
    else if c == '@' && r.mode.Between? then Some(r.(mode := InAddress(0)))
    else if DigitValue(c).None? then None
    else
      var d := DigitValue(c).value;
      match r.mode
      case Between => Some(r.(mode := InData(d)))
      case InAddress(a) => Some(r.(mode := InAddress(16 * a + d)))
      case InData(n) => Some(r.(mode := InData(16 * n + d)))
  }

  function FeedAll(r: Loader, s: string): Option<Loader>
    decreases |s|
  {
    if |s| == 0 then Some(r)
    else
      var next := Feed(r, s[0]);
      if next.None? then None else FeedAll(next.value, s[1..])
  }

  lemma {:induction false} FeedAppends(r: Loader, a: string, b: string)
    requires FeedAll(r, a).Some?
    ensures FeedAll(r, a + b) == FeedAll(FeedAll(r, a).value, b)
    decreases |a|
  {
    if |a| == 0 {
      assert a + b == b;
    } else {
      assert (a + b)[1..] == a[1..] + b;
      FeedAppends(Feed(r, a[0]).value, a[1..], b);
    }
  }

  lemma FeedNothing(r: Loader)
    ensures FeedAll(r, "") == Some(r)
  {
  }

  lemma FeedOne(r: Loader, c: char)
    ensures FeedAll(r, [c]) == Feed(r, c)
  {
    if Feed(r, c).Some? {
      assert [c][1..] == "";
      assert FeedAll(Feed(r, c).value, "") == Feed(r, c);
    }
  }

  lemma DigitReads(d: Nibble)
    ensures DigitValue(Digit(d)) == Some(d) && Digit(d) !in "@ \n"
  {
  }

  lemma {:induction false} FeedsAddress(r: Loader, n: nat)
    requires r.mode == InAddress(0)
    ensures FeedAll(r, Hex(n)) == Some(r.(mode := InAddress(n)))
  {
    DigitReads(n % 16);
    if n < 16 {
      FeedOne(r, Digit(n));
    } else {
      FeedsAddress(r, n / 16);
      FeedAppends(r, Hex(n / 16), [Digit(n % 16)]);
      FeedOne(r.(mode := InAddress(n / 16)), Digit(n % 16));
    }
  }

  lemma TwoDigits(b: Byte)
    ensures HexByte(b) == [Digit(b / 16)] + [Digit(b % 16)]
  {
    if b >= 16 {
      assert Hex(b / 16) == [Digit(b / 16)];
    }
  }

  lemma FeedsByte(r: Loader, b: Byte)
    requires r.mode == Between
    ensures FeedAll(r, HexByte(b)) == Some(r.(mode := InData(b)))
  {
    DigitReads(b / 16);
    DigitReads(b % 16);
    TwoDigits(b);
    FeedOne(r, Digit(b / 16));
    FeedAppends(r, [Digit(b / 16)], [Digit(b % 16)]);
    FeedOne(r.(mode := InData(b / 16)), Digit(b % 16));
  }

  lemma FeedsMark(r: Loader, at: U64)
    requires r.mode == Between
    ensures FeedAll(r, Mark(r.addr, at)) == Some(r.(addr := at))
  {
    if at != r.addr {
      FeedOne(r, '@');
      FeedAppends(r, "@", Hex(at));
      FeedsAddress(r.(mode := InAddress(0)), at);
      FeedAppends(r, "@" + Hex(at), "\n");
      FeedOne(r.(mode := InAddress(at)), '\n');
    }
  }

  /** Loading the printed bytes from the address the printer started at writes exactly those bytes, in order. */
  lemma {:induction false} LoadingReplays(r: Loader, cells: seq<Cell>)
    requires r.mode == Between
    ensures FeedAll(r, Text(r.addr, cells)) ==
      Some(Loader(Reached(r.addr, cells), Between, r.written + cells))
    decreases |cells|
  {
    hide *;
    if |cells| == 0 {
      NothingPrinted(r.addr, cells);
      FeedNothing(r);
      assert r.written + cells == r.written;
    } else {
      var c, rest := cells[0], cells[1..];
      var line := Mark(r.addr, c.at) + HexByte(c.data) + "\n";
      var next := Loader(Advance(c.at, 1), Between, r.written + [c]);
      FirstLine(r.addr, cells);
      FeedsLine(r, c);
      FeedAppends(r, line, Text(next.addr, rest));
      LoadingReplays(next, rest);
      assert r.written + [c] + rest == r.written + cells;
    }
  }

  lemma NothingPrinted(prev: U64, cells: seq<Cell>)
    requires |cells| == 0
    ensures Text(prev, cells) == "" && Reached(prev, cells) == prev
  {
  }

  lemma FirstLine(prev: U64, cells: seq<Cell>)
    requires |cells| > 0
    ensures
      var c := cells[0];
      Text(prev, cells) == Mark(prev, c.at) + HexByte(c.data) + "\n" + Text(Advance(c.at, 1), cells[1..]) &&
      Reached(Advance(c.at, 1), cells[1..]) == Reached(prev, cells)
  {
  }

  lemma FeedsLine(r: Loader, c: Cell)
    requires r.mode == Between
    ensures FeedAll(r, Mark(r.addr, c.at) + HexByte(c.data) + "\n") ==
      Some(Loader(Advance(c.at, 1), Between, r.written + [c]))
  {
    var mark, line := Mark(r.addr, c.at), HexByte(c.data);
    FeedsMark(r, c.at);
    FeedsByte(r.(addr := c.at), c.data);
    FeedAppends(r, mark, line);
    FeedOne(r.(addr := c.at, mode := InData(c.data)), '\n');
    FeedAppends(r, mark + line, "\n");
  }

  /** For every program, loading what byte mode prints from address 0 writes exactly what pass 1 generated. */
  lemma ImageReplays(p: Lines)
    requires Assemble(p).Ok?
    ensures
      var cells := Assemble(p).value.out.cells;
      FeedAll(Loader(0, Between, []), Text(0, cells)) == Some(Loader(Reached(0, cells), Between, cells))
  {
    LoadingReplays(Loader(0, Between, []), Assemble(p).value.out.cells);
    assert [] + Assemble(p).value.out.cells == Assemble(p).value.out.cells;
  }

  /** For every program that assembles, shadowing or not, the text holds the bytes of the replay. */
  lemma ImageIsReplay(p: Lines)
    requires Assemble(p).Ok?
    ensures Shadowing.ProgramReplay(p).Ok?
    ensures
      var image := FeedAll(Loader(0, Between, []), Text(0, Assemble(p).value.out.cells));
      image.Some? && image.value.written == Shadowing.ProgramReplay(p).value.out.cells
  {
    hide Assembler.VisitLines, Shadowing.ProgramReplay, FeedAll;
    Shadowing.AssembleReplays(p);
    ImageReplays(p);
  }

  /** What the text means for a program that meets the conditions of the two-pass theorem. */
  lemma ImageMeans(p: Lines)
    requires Pass0(p).Ok? && Meaning.NoShadowing(p, {}) && Meaning.ProgramStays(p) && Meaning.ProgramImage(p).Ok?
    ensures Assemble(p).Ok? && (Meaning.FixedLayout(p) ==> Meaning.Program(p) == Meaning.ProgramImage(p))
    ensures
      var image := FeedAll(Loader(0, Between, []), Text(0, Assemble(p).value.out.cells));
      image.Some? && image.value.written == Meaning.ProgramImage(p).value.cells
  {
    hide Assembler.Pass0, Assembler.Assemble, Meaning.Image, Meaning.Denote, Meaning.LabelsStay, FeedAll;
    TwoPasses.AssembleImage(p);
    if Meaning.FixedLayout(p) {
      Meaning.FixedLayoutStays(p, 0, Meaning.Labels(p, 0));
    }
    ImageReplays(p);
  }

  // ----- reading a number back -----

  function Filtered(s: string): string {
    if |s| == 0 then ""
    else Filtered(s[..|s| - 1]) + (if s[|s| - 1] != '@' && s[|s| - 1] != ' ' then [s[|s| - 1]] else "")
  }

  /** The number that hexadecimal digits stand for; `None` if some character is not a digit. */
  function Value(s: string): Option<nat> {
    if |s| == 0 then Some(0)
    else
      var above, d := Value(s[..|s| - 1]), DigitValue(s[|s| - 1]);
      if above.Some? && d.Some? then Some(16 * above.value + d.value) else None
  }

  /** `@` and spaces go; every other character stays as often as it was. */
  lemma {:induction false} FilteredKeeps(s: string, c: char)
    ensures multiset(Filtered(s))[c] == if c == '@' || c == ' ' then 0 else multiset(s)[c]
  {
    if |s| > 0 {
      FilteredKeeps(s[..|s| - 1], c);
      assert s == s[..|s| - 1] + [s[|s| - 1]];
    }
  }

  /** The digits in both cases, and no other character. */
  lemma DigitsAreSixteen(c: char, d: Nibble)
    ensures DigitValue("0123456789abcdef"[d]) == Some(d) && DigitValue("0123456789ABCDEF"[d]) == Some(d)
    ensures DigitValue(c).Some? <==> c in "0123456789abcdefABCDEF"
    ensures Digit(d) == "0123456789abcdef"[d]
  {
  }

  /** OR adds where the operands have no bit in common. */
  lemma {:induction false} OrAdds(a: nat, d: nat, k: nat, n: nat)
    requires k <= n && d < Pow2(k) && a % Pow2(k) == 0 && a < Pow2(n)
    ensures Or(a, d, n) == a + d
  {
    if n > 0 {
      if k > 0 {
        EvenParts(a, d, k);
        OrAdds(a / 2, d / 2, k - 1, n - 1);
      } else {
        OrAdds(a / 2, 0, 0, n - 1);
      }
    }
  }

  lemma EvenParts(a: nat, d: nat, k: nat)
    requires k > 0 && d < Pow2(k) && a % Pow2(k) == 0
    ensures a % 2 == 0 && d / 2 < Pow2(k - 1) && (a / 2) % Pow2(k - 1) == 0
  {
    Arithmetic.ModHalf(a, Pow2(k - 1));
  }

  lemma ShiftedIn(t: Word, d: Nibble)
    requires t % 16 == 0
    ensures Or(t, d, 32) == t + d
  {
    Pow2At32();
    assert Pow2(4) == 16;
    OrAdds(t, d, 4, 32);
  }

  /** Shifting left by four keeps the number modulo 2^32. */
  lemma ShiftKeepsValue(v: nat)
    ensures Wrap(16 * Wrap(v)) == Wrap(16 * v) && Wrap(16 * v) % 16 == 0
  {
    var m: int := 0x1_0000_0000;
    var q, r: int := v / m, v % m;
    var p, t: int := 16 * r / m, 16 * r % m;
    assert 16 * v == m * (16 * q + p) + t;
    Arithmetic.QuotientUnique(16 * v, m, 16 * q + p, t);
    assert t == 16 * (r - 0x1000_0000 * p);
  }

  lemma AddKeepsValue(x: nat, d: Nibble)
    requires Wrap(x) % 16 == 0
    ensures Wrap(x) + d == Wrap(x + d)
  {
    var m: int := 0x1_0000_0000;
    var q, r: int := x / m, x % m;
    assert x + d == m * q + (r + d);
    Arithmetic.QuotientUnique(x + d, m, q, r + d);
  }

  /** One digit ORed in, and room made for the next. */
  lemma DigitIn(t: Word, v: nat, d: Nibble)
    requires t == Wrap(16 * v)
    ensures Or(t, d, 32) == Wrap(16 * v + d) && Wrap(16 * Wrap(16 * v + d)) == Wrap(16 * (16 * v + d))
  {
    hide *;
    DigitOred(t, v, d);
    ShiftKeepsValue(16 * v + d);
  }

  lemma DigitOred(t: Word, v: nat, d: Nibble)
    requires t == Wrap(16 * v)
    ensures Or(t, d, 32) == Wrap(16 * v + d)
  {
    hide *;
    ShiftKeepsValue(v);
    ShiftedIn(t, d);
    AddKeepsValue(16 * v, d);
  }

  lemma ValueGrows(s: string, i: nat)
    requires i < |s| && Value(s[..i]).Some? && DigitValue(s[i]).Some?
    ensures Value(s[..i + 1]) == Some(16 * Value(s[..i]).value + DigitValue(s[i]).value)
  {
    hide DigitValue;
    var t := s[..i + 1];
    assert t[..i] == s[..i] && |t| == i + 1 && t[i] == s[i];
  }

  /**
   * The loops that drop `@` and spaces and then shift digits in. `None` is the
   * exit on a character that is no digit.
   */
  method ConvertHexString(str: string) returns (number: Option<Word>, goodChars: nat)
    ensures goodChars == |Filtered(str)|
    ensures number == if Value(Filtered(str)).Some? then Some(Wrap(Value(Filtered(str)).value)) else None
  {
    hide DigitValue, Value;
    var tempStr := "";
    for i := 0 to |str|
      invariant tempStr == Filtered(str[..i])
    {
      assert str[..i + 1][..i] == str[..i];
      if str[i] != '@' && str[i] != ' ' {
        tempStr := tempStr + [str[i]];
      }
    }
    assert str[..|str|] == str;
    goodChars := |tempStr|;
    number := DigitsToNumber(tempStr);
  }

  method DigitsToNumber(s: string) returns (number: Option<Word>)
    ensures number == if Value(s).Some? then Some(Wrap(Value(s).value)) else None
  {
    hide Bits.Or, DigitValue;
    var temp: Word := 0;
    for i := 0 to |s|
      invariant Value(s[..i]).Some?
      invariant temp == if i < |s| then Wrap(16 * Value(s[..i]).value) else Wrap(Value(s[..i]).value)
    {
      var d := DigitValue(s[i]);
      if d.None? {
        NoValue(s, i);
        return None;
      }
      ValueGrows(s, i);
      DigitIn(temp, Value(s[..i]).value, d.value);
      temp := Or(temp, d.value, 32);
      if i + 1 < |s| {
        temp := Wrap(16 * temp);
      }
    }
    assert s[..|s|] == s;
    number := Some(temp);
  }

  lemma {:induction false} NoValue(s: string, i: nat)
    requires i < |s| && DigitValue(s[i]).None?
    ensures Value(s).None?
  {
    if i < |s| - 1 {
      NoValue(s[..|s| - 1], i);
    }
  }
}
