/** The escape-aware word splitter: an index, a run of backslashes and a line number moved along a string. */
module Splitting {

  /** White space in the C locale. */
  predicate IsSpace(c: char) {
    c == ' ' || '\U{0009}' <= c <= '\U{000D}'
  }

  /** How many backslashes stand directly before position `i`. */
  function Backslashes(s: string, i: nat): nat
    requires i <= |s|
  {
    if i == 0 || s[i - 1] != '\\' then 0 else Backslashes(s, i - 1) + 1
  }

  function Newlines(s: string, i: nat): nat
    requires i <= |s|
  {
    if i == 0 then 0 else Newlines(s, i - 1) + (if s[i - 1] == '\n' then 1 else 0)
  }

  /** What a derived class chooses: the one-character words, and the pairs of marks that enclose a word. */
  datatype Rules = Rules(individual: set<char>, pairs: seq<(char, char)>) {

    /** The closing mark of the first pair that `c` opens. */
    function Closing(c: char): (q: (bool, char)) {
      ClosingIn(pairs, c)
    }

    predicate EndsWord(c: char) {
      c in individual || Closing(c).0
    }
  }

  function ClosingIn(pairs: seq<(char, char)>, c: char): (bool, char) {
    if |pairs| == 0 then (false, c)
    else if pairs[0].0 == c then (true, pairs[0].1)
    else ClosingIn(pairs[1..], c)
  }

  /** The six characters that C calls white space. */
  lemma SpacesAreSix(c: char)
    ensures IsSpace(c) <==> c in {' ', '\n', '\t', '\r', '\U{000B}', '\U{000C}'}
  {
  }

  /** A mark opens a word exactly if some pair starts with it, and the first such pair closes the word. */
  lemma {:induction false} FirstPairCloses(pairs: seq<(char, char)>, c: char) returns (k: nat)
    ensures k <= |pairs| && ClosingIn(pairs, c).0 == (k < |pairs|)
    ensures forall j | 0 <= j < k :: pairs[j].0 != c
    ensures k < |pairs| ==> pairs[k] == (c, ClosingIn(pairs, c).1)
    decreases |pairs|
  {
    if |pairs| == 0 || pairs[0].0 == c {
      k := 0;
    } else {
      var rest := FirstPairCloses(pairs[1..], c);
      k := rest + 1;
    }
  }

  /** The mark `q` at `j` closes a word: an even number of backslashes stands before it. */
  predicate ClosesAt(s: string, q: char, j: nat)
    requires j < |s|
  {
    s[j] == q && Backslashes(s, j) % 2 == 0
  }

  /** A plain word cannot go on at `j`. */
  predicate BreaksAt(r: Rules, s: string, j: nat)
    requires j < |s|
  {
    IsSpace(s[j]) || r.EndsWord(s[j])
  }

  /** It stops exactly before white space, a one-character word or a mark that opens a word. */
  lemma BreaksExactly(r: Rules, s: string, j: nat)
    requires j < |s|
    ensures BreaksAt(r, s, j) <==>
      IsSpace(s[j]) || s[j] in r.individual || exists k :: 0 <= k < |r.pairs| && r.pairs[k].0 == s[j]
  {
    var k := FirstPairCloses(r.pairs, s[j]);
  }

  /** `end` is one past the word that starts at `start`. */
  ghost predicate IsWord(r: Rules, s: string, start: nat, end: nat) {
    start < end <= |s| &&
    var (quoted, q) := r.Closing(s[start]);
    if s[start] in r.individual then end == start + 1
    else if quoted then
      && (forall j :: start < j < end - 1 ==> !ClosesAt(s, q, j))
      && (end == |s| || (start + 1 < end && ClosesAt(s, q, end - 1)))
    else
      && (forall j :: start < j < end ==> !BreaksAt(r, s, j))
      && (end == |s| || BreaksAt(r, s, end))
  }

  /** A word's first position and the one after its last. */
  datatype Span = Span(start: nat, end: nat)

  predicate Spaces(s: string, from: nat, to: nat) {
    forall k :: from <= k < to && k < |s| ==> IsSpace(s[k])
  }

  /** The next word after position `from`, with only white space before it. */
  ghost predicate NextWord(r: Rules, s: string, from: nat, word: Span) {
    from <= word.start < |s| && Spaces(s, from, word.start) && !IsSpace(s[word.start]) &&
    IsWord(r, s, word.start, word.end)
  }

  /** Where the first `k` words end. */
  function EndOf(words: seq<Span>, k: nat): nat
    requires k <= |words|
  {
    if k == 0 then 0 else words[k - 1].end
  }

  /** The words follow one another from the start of the string, separated only by white space. */
  ghost predicate Follows(r: Rules, s: string, words: seq<Span>) {
    forall k :: 0 <= k < |words| ==> NextWord(r, s, EndOf(words, k), words[k])
  }

  /** And nothing but white space comes after the last. */
  ghost predicate Tiles(r: Rules, s: string, words: seq<Span>) {
    Follows(r, s, words) && Spaces(s, EndOf(words, |words|), |s|)
  }

  /** A word is determined by where it starts. */
  lemma WordEndsOnce(r: Rules, s: string, start: nat, a: nat, b: nat)
    requires IsWord(r, s, start, a) && IsWord(r, s, start, b)
    ensures a == b
  {
    if a < b {
      NotBefore(r, s, start, a, b);
    } else {
      NotBefore(r, s, start, b, a);
    }
  }

  lemma NotBefore(r: Rules, s: string, start: nat, a: nat, b: nat)
    requires IsWord(r, s, start, a) && IsWord(r, s, start, b)
    ensures b <= a
  {
    var (quoted, q) := r.Closing(s[start]);
    if s[start] !in r.individual && a < |s| {
      if quoted {
        assert ClosesAt(s, q, a - 1);
      } else {
        assert BreaksAt(r, s, a);
      }
    }
  }

  lemma NextWordIsUnique(r: Rules, s: string, from: nat, v: Span, w: Span)
    requires NextWord(r, s, from, v) && NextWord(r, s, from, w)
    ensures v == w
  {
    hide IsWord;
    assert v.start == w.start;
    WordEndsOnce(r, s, v.start, v.end, w.end);
  }

  /** There is only one way to tile a string with words. */
  lemma {:induction false} PrefixIsUnique(r: Rules, s: string, v: seq<Span>, w: seq<Span>, k: nat)
    requires Follows(r, s, v) && Follows(r, s, w) && k <= |v| && k <= |w|
    ensures v[..k] == w[..k]
  {
    hide NextWord;
    if k > 0 {
      PrefixIsUnique(r, s, v, w, k - 1);
      SameEnd(v, w, k - 1);
      NextWordIsUnique(r, s, EndOf(v, k - 1), v[k - 1], w[k - 1]);
      assert v[..k] == v[..k - 1] + [v[k - 1]] && w[..k] == w[..k - 1] + [w[k - 1]];
    }
  }

  lemma SameEnd(v: seq<Span>, w: seq<Span>, k: nat)
    requires k <= |v| && k <= |w| && v[..k] == w[..k]
    ensures EndOf(v, k) == EndOf(w, k)
  {
    if k > 0 {
      assert v[..k][k - 1] == w[..k][k - 1];
    }
  }

  lemma TilingIsUnique(r: Rules, s: string, v: seq<Span>, w: seq<Span>)
    requires Tiles(r, s, v) && Tiles(r, s, w)
    ensures v == w
  {
    hide NextWord;
    var k := if |v| < |w| then |v| else |w|;
    PrefixIsUnique(r, s, v, w, k);
    SameEnd(v, w, k);
    if k < |w| {
      NoWordInSpace(r, s, EndOf(w, k), w[k]);
    } else if k < |v| {
      NoWordInSpace(r, s, EndOf(v, k), v[k]);
    }
    assert v == v[..k] && w == w[..k];
  }

  lemma NoWordInSpace(r: Rules, s: string, from: nat, word: Span)
    requires NextWord(r, s, from, word)
    ensures !Spaces(s, from, |s|)
  {
    hide IsWord;
    assert !IsSpace(s[word.start]);
  }

  predicate InWord(word: Span, i: nat) {
    word.start <= i < word.end
  }

  /** Every character that is not white space is in one of the words that end after it or before the k-th. */
  lemma {:induction false} WordsCover(r: Rules, s: string, words: seq<Span>, i: nat, k: nat)
    requires Follows(r, s, words) && i < |s| && !IsSpace(s[i]) && k <= |words| && i < EndOf(words, k)
    ensures exists j :: 0 <= j < k && InWord(words[j], i)
  {
    hide NextWord;
    var from := EndOf(words, k - 1);
    InWordOrBefore(r, s, from, words[k - 1], i);
    if i < from {
      WordsCover(r, s, words, i, k - 1);
    }
  }

  lemma InWordOrBefore(r: Rules, s: string, from: nat, word: Span, i: nat)
    requires NextWord(r, s, from, word) && i < |s| && !IsSpace(s[i]) && i < word.end
    ensures i < from || InWord(word, i)
  {
    hide IsWord;
  }

  /** A tiling misses no character but white space. */
  lemma TilingCovers(r: Rules, s: string, words: seq<Span>, i: nat)
    requires Tiles(r, s, words) && i < |s| && !IsSpace(s[i])
    ensures exists j :: 0 <= j < |words| && InWord(words[j], i)
  {
    hide NextWord;
    WordsCover(r, s, words, i, |words|);
  }

  class Splitter {
    const toSplit: string
    const rules: Rules
    var lineNum: nat
    var numBackslashes: nat
    var prevI: int

    constructor (s: string, rules: Rules)
      ensures toSplit == s && this.rules == rules && At(0)
    {
      toSplit := s;
      this.rules := rules;
      lineNum, numBackslashes, prevI := 1, 0, 0;
    }

    /** The counters belong to position `i`. */
    ghost predicate At(i: nat)
      reads this
    {
      i <= |toSplit| && numBackslashes == Backslashes(toSplit, i) && lineNum == 1 + Newlines(toSplit, i)
    }

    method Increment(i: nat) returns (next: nat)
      requires At(i) && i < |toSplit|
      modifies this
      ensures next == i + 1 && At(next)
    {
      prevI := i;
      next := i + 1;
      if toSplit[prevI] == '\\' {
        if prevI == 0 || toSplit[prevI - 1] != '\\' {
          numBackslashes := 1;
        } else {
          numBackslashes := numBackslashes + 1;
        }
      } else {
        numBackslashes := 0;
        if toSplit[prevI] == '\n' {
          lineNum := lineNum + 1;
        }
      }
    }

    method FindStartOfWord(from: nat) returns (i: nat)
      requires At(from)
      modifies this
      ensures At(i) && from <= i
      ensures forall k :: from <= k < i ==> IsSpace(toSplit[k])
      ensures i < |toSplit| ==> !IsSpace(toSplit[i])
    {
      prevI := -1;
      i := from;
      while i < |toSplit| && IsSpace(toSplit[i])
        invariant At(i) && from <= i
        invariant forall k :: from <= k < i ==> IsSpace(toSplit[k])
      {
        i := Increment(i);
      }
    }

    method FindPosAfterEndOfWord(start: nat) returns (i: nat)
      requires At(start)
      modifies this
      ensures At(i)
      ensures if start < |toSplit| then IsWord(rules, toSplit, start, i) else i == start
    {
      i := start;
      if i < |toSplit| {
        var (quoted, q) := rules.Closing(toSplit[i]);
        if toSplit[i] in rules.individual {
          i := Increment(i);
        } else if quoted {
          i := Increment(i);
          while i < |toSplit|
            invariant At(i) && start < i
            invariant forall j :: start < j < i ==> !ClosesAt(toSplit, q, j)
            decreases |toSplit| - i
          {
            if toSplit[i] == q && numBackslashes % 2 == 0 {
              break;
            }
            i := Increment(i);
          }
          if i < |toSplit| {
            i := Increment(i);
          }
        } else {
          i := Increment(i);
          while i < |toSplit| && !IsSpace(toSplit[i]) && !rules.EndsWord(toSplit[i])
            invariant At(i) && start < i
            invariant forall j :: start < j < i ==> !BreaksAt(rules, toSplit, j)
            decreases |toSplit| - i
          {
            i := Increment(i);
          }
        }
      }
    }

    /** Driving the splitter to the end ends, and its words are the tiling of the string. */
    method Split() returns (words: seq<Span>)
      requires At(0)
      modifies this
      ensures Tiles(rules, toSplit, words)
      ensures lineNum == 1 + Newlines(toSplit, |toSplit|)
    {
      words := [];
      var i := 0;
      while i < |toSplit|
        invariant At(i) && Follows(rules, toSplit, words)
        invariant EndOf(words, |words|) <= i && Spaces(toSplit, EndOf(words, |words|), i)
        decreases |toSplit| - i
      {
        var start := FindStartOfWord(i);
        i := start;
        if i < |toSplit| {
          i := FindPosAfterEndOfWord(i);
          ghost var before := words;
          words := words + [Span(start, i)];
          OneMore(rules, toSplit, before, Span(start, i));
        }
      }
    }
  }

  lemma OneMore(r: Rules, s: string, words: seq<Span>, word: Span)
    requires Follows(r, s, words) && NextWord(r, s, EndOf(words, |words|), word)
    ensures Follows(r, s, words + [word])
  {
    hide NextWord;
    var more := words + [word];
    forall k | 0 <= k < |more| ensures NextWord(r, s, EndOf(more, k), more[k]) {
      assert EndOf(more, k) == EndOf(words, k);
    }
  }
}
