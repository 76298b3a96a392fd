/** The divider computes quotients: the digit invariant, the finish, and the clock budget. */
module DividerProofs {
  import opened Words
  import opened Divider
  import opened Arithmetic

  // ----- what division means -----

  /** Quotient rounded toward zero. */
  function Truncated(n: int, d: int): int
    requires d != 0
  {
    if (n < 0) == (d < 0) then Abs(n) / Abs(d) else 0 - Abs(n) / Abs(d)
  }

  function Abs(n: int): nat {
    if n < 0 then 0 - n else n
  }

  function Quotient(signed: bool, n: Word, d: Word): Word
    requires d != 0
  {
    if signed then Wrap(Truncated(Signed(n), Signed(d))) else n / d
  }

  function Remainder(signed: bool, n: Word, d: Word): Word
    requires d != 0
  {
    if signed then Wrap(Signed(n) - Signed(d) * Truncated(Signed(n), Signed(d))) else n % d
  }

  // ----- the digit invariant -----

  /** The partial remainder read as a signed 65-bit number. */
  function SignedP(p: Wide): int {
    if p < TWO64 then p else p - TWO65
  }

  /** The digits chosen so far, each 1 or -1, as an integer. */
  function DigitSum(q: Bits32, j: nat): int
    requires j <= 32
  {
    if j == 0 then 0 else 2 * DigitSum(q, j - 1) + if q[32 - j] then 1 else -1
  }

  /** `d` times the digits chosen so far, kept free of multiplication. */
  function Weighted(q: Bits32, d: int, j: nat): int
    requires j <= 32
  {
    if j == 0 then 0 else 2 * Weighted(q, d, j - 1) + if q[32 - j] then d else 0 - d
  }

  /** `n` times 2^j. */
  function Scaled(n: int, j: nat): int {
    if j == 0 then n else 2 * Scaled(n, j - 1)
  }

  /** After `j` iterations: P = 2^j N - D * digits, and -D <= P < D. */
  ghost predicate DigitsChosen(w: Work, num: Word, den: Word, j: nat) {
    && den > 0
    && j <= 32
    && w.D == den * 0x1_0000_0000
    && 0 - w.D <= SignedP(w.P) < w.D
    && SignedP(w.P) + Weighted(w.quot, w.D, j) == Scaled(num, j)
    && (forall i | 0 <= i < 32 - j :: !w.quot[i])
  }

  lemma {:induction false} WeightedFrame(q: Bits32, r: Bits32, d: int, j: nat)
    requires j <= 32
    requires forall i | 32 - j <= i < 32 :: q[i] == r[i]
    ensures Weighted(q, d, j) == Weighted(r, d, j)
  {
    if j > 0 {
      WeightedFrame(q, r, d, j - 1);
    }
  }

  lemma {:induction false} WeightedIsProduct(q: Bits32, d: int, j: nat)
    requires j <= 32
    ensures Weighted(q, d, j) == d * DigitSum(q, j)
  {
    if j > 0 {
      WeightedIsProduct(q, d, j - 1);
      ScaleDigits(d, DigitSum(q, j - 1), if q[32 - j] then 1 else -1);
    }
  }

  lemma {:induction false} ScaledIsProduct(n: int, j: nat)
    ensures Scaled(n, j) == n * Pow2(j)
  {
    if j > 0 {
      ScaledIsProduct(n, j - 1);
      Double(n, Pow2(j - 1));
    }
  }

  lemma {:induction false} DigitSumIsBits(q: Bits32, j: nat)
    requires j <= 32
    ensures DigitSum(q, j) == 2 * TopBits(q, j) - (Pow2(j) - 1)
  {
    if j > 0 {
      DigitSumIsBits(q, j - 1);
    }
  }

  /** The 65-bit shift and add never leaves the range -D <= P < D, so it never wraps. */
  lemma IterateKeepsRange(w: Work, i: Byte)
    requires w.D <= 0xFFFF_FFFF_0000_0000
    requires 0 - w.D <= SignedP(w.P) < w.D
    ensures var p := SignedP(Iterate(w, i).P);
            && p == 2 * SignedP(w.P) - (if SignedP(w.P) >= 0 then w.D else 0 - w.D)
            && 0 - w.D <= p < w.D
  {
  }

  /** One more digit keeps the invariant, whichever sign the partial remainder has. */
  lemma IterateChoosesDigit(w: Work, num: Word, den: Word, j: nat)
    requires DigitsChosen(w, num, den, j) && j < 32
    ensures DigitsChosen(Iterate(w, 31 - j), num, den, j + 1)
  {
    var v := Iterate(w, 31 - j);
    IterateKeepsRange(w, 31 - j);
    assert v.quot[31 - j] == (SignedP(w.P) >= 0);
    WeightedFrame(w.quot, v.quot, w.D, j);
  }

  lemma ScaleDigits(d: int, s: int, digit: int)
    ensures d * (2 * s + digit) == 2 * (d * s) + digit * d
  {
  }

  lemma {:induction false} IterateDownChoosesDigits(w: Work, num: Word, den: Word, j: nat, i: Byte, n: nat)
    requires DigitsChosen(w, num, den, j) && j + n <= 32
    requires j < 32 ==> i == 31 - j
    ensures DigitsChosen(IterateDown(w, i, n), num, den, j + n)
    decreases n
  {
    if n > 0 {
      var v := Iterate(w, i);
      IterateChoosesDigit(w, num, den, j);
      var below := NextIndex(i);
      IterateDownChoosesDigits(v, num, den, j + 1, below, n - 1);
    }
  }

  // ----- the finish -----

  /** After 32 digits the partial remainder is a multiple of 2^32, and the digits are the quotient or one more. */
  lemma FinishedDigits(w: Work, num: Word, den: Word) returns (rest: int)
    requires DigitsChosen(w, num, den, 32)
    ensures SignedP(w.P) == rest * 0x1_0000_0000 && 0 - den <= rest < den
    ensures (if rest < 0 then DigitSum(w.quot, 32) - 1 else DigitSum(w.quot, 32)) == num / den
    ensures (if rest < 0 then rest + den else rest) == num % den
  {
    var s := DigitSum(w.quot, 32);
    rest := num - den * s;
    WeightedIsProduct(w.quot, w.D, 32);
    ScaledIsProduct(num, 32);
    Pow2At32();
    Reassociate(den, s);
    if rest < 0 {
      Subtract(den, s, 1);
      QuotientUnique(num, den, s - 1, rest + den);
    } else {
      QuotientUnique(num, den, s, rest);
    }
  }

  /** What the control block latches from a finished `Work`, before the signs are put back. */
  lemma FinishedWork(w: Work, num: Word, den: Word)
    requires DigitsChosen(w, num, den, 32)
    ensures var low := w.P >= TWO64;
            && (if low then Wrap(FromDigits(w.quot) - 1) else FromDigits(w.quot)) == num / den
            && Wrap((if low then (w.P + w.D) % TWO65 else w.P) / 0x1_0000_0000) == num % den
  {
    var rest := FinishedDigits(w, num, den);
    QuotientBound(num, den);
    DigitSumIsBits(w.quot, 32);
    Pow2At32();
    LatchedQuotient(Value(w.quot), DigitSum(w.quot, 32), rest < 0, num / den);
    LatchedRemainder(w.P, w.D, den, rest, num % den);
  }

  lemma LatchedQuotient(v: Word, s: int, low: bool, q: Word)
    requires s == 2 * v - 0xFFFF_FFFF
    requires q == if low then s - 1 else s
    ensures (if low then Wrap(Wrap(v - (0xFFFF_FFFF - v)) - 1) else Wrap(v - (0xFFFF_FFFF - v))) == q
  {
  }

  lemma LatchedRemainder(p: Wide, d: Wide, den: Word, rest: int, r: Word)
    requires d == den * 0x1_0000_0000 && SignedP(p) == rest * 0x1_0000_0000
    requires 0 - den <= rest < den
    requires r == if rest < 0 then rest + den else rest
    ensures (p >= TWO64) == (rest < 0)
    ensures Wrap((if p >= TWO64 then (p + d) % TWO65 else p) / 0x1_0000_0000) == r
  {
  }

  lemma Reassociate(den: int, s: int)
    ensures (den * 0x1_0000_0000) * s == den * s * 0x1_0000_0000
  {
  }

  // ----- signs -----

  /** What the conditioning clock leaves in a buffer. */
  function Magnitude(signed: bool, w: Word): Word {
    if signed && w >= 0x8000_0000 then Negate(w) else w
  }

  lemma MagnitudeIsAbs(w: Word)
    ensures Magnitude(true, w) == Abs(Signed(w))
    ensures (w >= 0x8000_0000) == (Signed(w) < 0)
  {
  }

  /** Negating the magnitude results rounds the quotient toward zero; the remainder takes the numerator's sign. */
  lemma SignsPutBack(signed: bool, n: Word, d: Word, q: Word, r: Word)
    requires d != 0
    requires q == Magnitude(signed, n) / Magnitude(signed, d)
    requires r == Magnitude(signed, n) % Magnitude(signed, d)
    ensures Quotient(signed, n, d)
            == if signed && (n >= 0x8000_0000) != (d >= 0x8000_0000) then Negate(q) else q
    ensures Remainder(signed, n, d) == if signed && n >= 0x8000_0000 then Negate(r) else r
  {
    if signed {
      MagnitudeIsAbs(n);
      MagnitudeIsAbs(d);
      SignedDivision(Signed(n), Signed(d), q, r);
      WrapOfSign(q);
      WrapOfSign(r);
    }
  }

  lemma WrapOfSign(w: Word)
    ensures Wrap(w) == w && Wrap(0 - w) == Negate(w)
  {
  }

  lemma SignedDivision(n: int, d: int, q: int, r: int)
    requires d != 0
    requires q == Abs(n) / Abs(d) && r == Abs(n) % Abs(d)
    ensures Truncated(n, d) == if (n < 0) == (d < 0) then q else 0 - q
    ensures n - d * Truncated(n, d) == if n < 0 then 0 - r else r
  {
    Recombined(Abs(n), Abs(d), q, r);
    SignRules(d, q);
  }

  lemma Recombined(n: int, d: int, q: int, r: int)
    requires d > 0 && q == n / d && r == n % d
    ensures n == d * q + r
  {
  }

  lemma SignRules(d: int, q: int)
    ensures d * (0 - q) == 0 - d * q && (0 - d) * q == 0 - d * q
  {
  }

  /** The signed quotient and remainder rebuild the numerator exactly, before the wrap. */
  lemma TruncatedRebuilds(n: int, d: int)
    requires d != 0
    ensures var r := n - d * Truncated(n, d);
            Abs(r) < Abs(d) && (r == 0 || (r < 0) == (n < 0))
  {
    SignedDivision(n, d, Abs(n) / Abs(d), Abs(n) % Abs(d));
  }

  // ----- the clock budget -----

  /** Iteration clocks for 32 digits. */
  function IterationClocks(k: StepsPerClock): nat {
    if k == 1 then 32 else if k == 2 then 16 else 8
  }

  /** Digits chosen after `j` iteration clocks. */
  function DigitsAfter(k: StepsPerClock, j: nat): nat {
    if k == 1 then j else if k == 2 then 2 * j else 4 * j
  }

  ghost predicate Busy(c: Ctl, r: DivIn) {
    && !c.canAccept
    && c.signed == r.signed
    && c.numNeg == (r.num >= 0x8000_0000)
    && c.denomNeg == (r.denom >= 0x8000_0000)
  }

  ghost predicate Accepted(d: DivUnit, r: DivIn) {
    && Busy(d.ctl, r) && !d.ctl.started && !d.ctl.ended
    && d.ctl.stateCounter == 255
    && d.ctl.numBuf == r.num && d.ctl.denomBuf == r.denom
  }

  ghost predicate Conditioned(d: DivUnit, r: DivIn) {
    && Busy(d.ctl, r) && d.ctl.started && !d.ctl.ended
    && d.ctl.stateCounter == 255
    && d.ctl.numBuf == Magnitude(r.signed, r.num)
    && d.ctl.denomBuf == Magnitude(r.signed, r.denom)
    && d.work.counter == 31
  }

  ghost predicate Iterating(d: DivUnit, r: DivIn, t: nat) {
    && t <= 32
    && Busy(d.ctl, r) && d.ctl.started && !d.ctl.ended
    && d.ctl.stateCounter <= t
    && d.work.counter == (if t == 32 then 255 else 31 - t)
    && (r.denom != 0 ==>
          DigitsChosen(d.work, Magnitude(r.signed, r.num), Magnitude(r.signed, r.denom), t))
  }

  ghost predicate Latched(d: DivUnit, r: DivIn) {
    && Busy(d.ctl, r) && d.ctl.started && d.ctl.ended
    && d.ctl.stateCounter <= 32
    && d.work.counter >= 240
    && (r.denom != 0 ==>
          && d.ctl.quot2 == Quotient(r.signed, r.num, r.denom)
          && d.ctl.rem2 == Remainder(r.signed, r.num, r.denom))
  }

  ghost predicate Done(d: DivUnit, r: DivIn) {
    && Idle(d)
    && (r.denom != 0 ==>
          && d.ctl.quot == Quotient(r.signed, r.num, r.denom)
          && d.ctl.rem == Remainder(r.signed, r.num, r.denom))
  }

  /** Where the unit is `e` clocks after it took request `r`; `iterFirst` is the order at the edge that finishes. */
  ghost predicate InFlight(d: DivUnit, r: DivIn, k: StepsPerClock, iterFirst: bool, e: nat) {
    var n := IterationClocks(k);
    if e <= 1 then e == 1 && Accepted(d, r)
    else if e == 2 then Conditioned(d, r)
    else if e - 3 < n || (e - 3 == n && !iterFirst) then Iterating(d, r, DigitsAfter(k, e - 3))
    else if e - 3 == n || (e - 4 == n && !iterFirst) then Latched(d, r)
    else Done(d, r)
  }

  lemma RequestIsTaken(d: DivUnit, r: DivIn, k: StepsPerClock, iterFirst: bool, order: bool)
    requires Idle(d) && r.enable
    ensures InFlight(Step(d, r, k, order), r, k, iterFirst, 1)
  {
  }

  lemma AcceptedStep(d: DivUnit, r: DivIn, i: DivIn, k: StepsPerClock, iterFirst: bool)
    requires Accepted(d, r) && !i.enable
    ensures Conditioned(Step(d, i, k, iterFirst), r)
  {
  }

  lemma ConditionedStep(d: DivUnit, r: DivIn, i: DivIn, k: StepsPerClock, iterFirst: bool)
    requires Conditioned(d, r) && !i.enable
    ensures Iterating(Step(d, i, k, iterFirst), r, 0)
  {
  }

  lemma WorkAdvances(d: DivUnit, r: DivIn, k: StepsPerClock, t: nat)
    requires Iterating(d, r, t) && t + k <= 32
    ensures var w := WorkStep(d, k);
            && w.counter == (if t + k == 32 then 255 else 31 - (t + k))
            && (r.denom != 0 ==>
                  DigitsChosen(w, Magnitude(r.signed, r.num), Magnitude(r.signed, r.denom), t + k))
  {
    if r.denom != 0 {
      IterateDownChoosesDigits(d.work, Magnitude(r.signed, r.num), Magnitude(r.signed, r.denom), t, d.work.counter, k);
    }
  }

  lemma IteratingStep(d: DivUnit, r: DivIn, i: DivIn, k: StepsPerClock, iterFirst: bool, t: nat)
    requires Iterating(d, r, t) && !i.enable && t + k <= 32
    requires iterFirst ==> t + k < 32
    ensures Iterating(Step(d, i, k, iterFirst), r, t + k)
  {
    WorkAdvances(d, r, k, t);
  }

  /** Latching reads the finished digits, from either side of the edge. */
  lemma LatchStep(c: Ctl, w: Work, r: DivIn, i: DivIn)
    requires Busy(c, r) && c.started && !c.ended && !i.enable
    requires w.counter >= 128
    requires r.denom != 0 ==>
               DigitsChosen(w, Magnitude(r.signed, r.num), Magnitude(r.signed, r.denom), 32)
    ensures var c' := CtlStep(c, w, i);
            && Busy(c', r) && c'.started && c'.ended && c'.stateCounter == c.stateCounter
            && (r.denom != 0 ==>
                  && c'.quot2 == Quotient(r.signed, r.num, r.denom)
                  && c'.rem2 == Remainder(r.signed, r.num, r.denom))
  {
    if r.denom != 0 {
      var n, e := Magnitude(r.signed, r.num), Magnitude(r.signed, r.denom);
      FinishedWork(w, n, e);
      SignsPutBack(r.signed, r.num, r.denom, n / e, n % e);
    }
  }

  lemma FinishWithNewWork(d: DivUnit, r: DivIn, i: DivIn, k: StepsPerClock, t: nat)
    requires Iterating(d, r, t) && !i.enable && t + k == 32
    ensures Latched(Step(d, i, k, true), r)
  {
    hide Divider.CtlStep, Divider.WorkStep, DigitsChosen, Quotient, Remainder, Magnitude;
    WorkAdvances(d, r, k, t);
    LatchStep(d.ctl, WorkStep(d, k), r, i);
  }

  lemma WorkCounts(d: DivUnit, k: StepsPerClock)
    requires !d.ctl.canAccept && d.ctl.stateCounter < 128
    ensures WorkStep(d, k).counter == (d.work.counter - k) % 256
  {
  }

  lemma FinishWithOldWork(d: DivUnit, r: DivIn, i: DivIn, k: StepsPerClock)
    requires Iterating(d, r, 32) && !i.enable
    ensures Latched(Step(d, i, k, false), r)
  {
    hide Divider.CtlStep, Divider.WorkStep, DigitsChosen, Quotient, Remainder, Magnitude;
    WorkCounts(d, k);
    LatchStep(d.ctl, d.work, r, i);
  }

  lemma LatchedStep(d: DivUnit, r: DivIn, i: DivIn, k: StepsPerClock, iterFirst: bool)
    requires Latched(d, r) && !i.enable
    ensures Done(Step(d, i, k, iterFirst), r)
  {
    WorkCounts(d, k);
  }

  lemma IdleStays(d: DivUnit, i: DivIn, k: StepsPerClock, iterFirst: bool)
    requires Idle(d) && !i.enable
    ensures var d' := Step(d, i, k, iterFirst);
            Idle(d') && d'.ctl.quot == d.ctl.quot && d'.ctl.rem == d.ctl.rem
  {
  }

  lemma DoneStays(d: DivUnit, r: DivIn, i: DivIn, k: StepsPerClock, iterFirst: bool)
    requires Done(d, r) && !i.enable
    ensures Done(Step(d, i, k, iterFirst), r)
  {
    IdleStays(d, i, k, iterFirst);
  }

  /** Only two edges matter: the one that finishes the digits and, if the old `Work` is read there, the next. */
  lemma InFlightStep(d: DivUnit, r: DivIn, i: DivIn, k: StepsPerClock, iterFirst: bool, e: nat, order: bool)
    requires InFlight(d, r, k, iterFirst, e) && !i.enable && e >= 1
    requires e == IterationClocks(k) + 2 || (e == IterationClocks(k) + 3 && !iterFirst) ==> order == iterFirst
    ensures InFlight(Step(d, i, k, order), r, k, iterFirst, e + 1)
  {
    hide Divider.Step, Accepted, Conditioned, Iterating, Latched, Done;
    var n := IterationClocks(k);
    if e == 1 {
      AcceptedStep(d, r, i, k, order);
    } else if e == 2 {
      ConditionedStep(d, r, i, k, order);
    } else if e - 3 < n && !(iterFirst && e - 2 == n) {
      IteratingStep(d, r, i, k, order, DigitsAfter(k, e - 3));
    } else if e - 3 < n {
      FinishWithNewWork(d, r, i, k, DigitsAfter(k, e - 3));
    } else if e - 3 == n && !iterFirst {
      FinishWithOldWork(d, r, i, k);
    } else if e - 3 == n || (e - 4 == n && !iterFirst) {
      LatchedStep(d, r, i, k, order);
    } else {
      DoneStays(d, r, i, k, order);
    }
  }

  /** The request and then quiet clocks, one for every further element of `orders`. */
  function Run(d: DivUnit, r: DivIn, quiet: DivIn, k: StepsPerClock, orders: seq<bool>): DivUnit {
    if |orders| == 0 then d
    else
      var last := |orders| - 1;
      Step(Run(d, r, quiet, k, orders[..last]), if last == 0 then r else quiet, k, orders[last])
  }

  /** Not the old `Work` at the edge that finishes the digits and then the new one, iterated too often, at the next. */
  predicate SafeOrders(k: StepsPerClock, orders: seq<bool>) {
    |orders| == IterationClocks(k) + 5 && (orders[IterationClocks(k) + 2] || !orders[IterationClocks(k) + 3])
  }

  lemma {:induction false} RunInFlight(d: DivUnit, r: DivIn, quiet: DivIn, k: StepsPerClock, iterFirst: bool,
        orders: seq<bool>)
    requires Idle(d) && r.enable && !quiet.enable && |orders| >= 1
    requires |orders| > IterationClocks(k) + 2 ==> orders[IterationClocks(k) + 2] == iterFirst
    requires |orders| > IterationClocks(k) + 3 ==> iterFirst || !orders[IterationClocks(k) + 3]
    ensures InFlight(Run(d, r, quiet, k, orders), r, k, iterFirst, |orders|)
  {
    hide Divider.Step, InFlight, Idle;
    var last := |orders| - 1;
    if last == 0 {
      RequestIsTaken(d, r, k, iterFirst, orders[0]);
    } else {
      RunInFlight(d, r, quiet, k, iterFirst, orders[..last]);
      InFlightStep(Run(d, r, quiet, k, orders[..last]), r, quiet, k, iterFirst, last, orders[last]);
    }
  }

  /**
   * The divider theorem: from any idle state, after the request and the rest of the budget, for every
   * build and in any safe order of the blocks from edge to edge, the outputs are the quotient and the
   * remainder and the unit is idle again.
   */
  lemma DivideWithinBudget(d: DivUnit, r: DivIn, quiet: DivIn, k: StepsPerClock, orders: seq<bool>)
    requires Idle(d) && r.enable && !quiet.enable && SafeOrders(k, orders)
    ensures Done(Run(d, r, quiet, k, orders), r)
  {
    hide Divider.Step, Done;
    RunInFlight(d, r, quiet, k, orders[IterationClocks(k) + 2], orders);
  }

  // ----- the other orders -----

  const HALF: DivIn := DivIn(true, false, 1, 2)

  lemma HalfDigits(w: Work)
    requires DigitsChosen(w, 1, 2, 32)
    ensures FromDigits(w.quot) == 1 && w.P == TWO65 - 0x1_0000_0000 && w.D == 0x2_0000_0000
  {
    var rest := FinishedDigits(w, 1, 2);
    DigitSumIsBits(w.quot, 32);
    Pow2At32();
    assert DigitSum(w.quot, 32) == 1 && rest == -1;
  }

  lemma HalfIterates(w: Work, i: Byte)
    requires w.D == 0x2_0000_0000 && i >= 32
    ensures Iterate(w, i).quot == w.quot && Iterate(w, i).D == w.D
    ensures w.P == TWO65 - 0x1_0000_0000 ==> Iterate(w, i).P == 0
    ensures w.P in {0, TWO65 - 0x2_0000_0000} ==> Iterate(w, i).P == TWO65 - 0x2_0000_0000
  {
  }

  lemma {:induction false} HalfStays(w: Work, i: Byte, n: nat)
    requires w.P in {0, TWO65 - 0x2_0000_0000} && w.D == 0x2_0000_0000 && 32 + n <= i
    ensures
      var v := IterateDown(w, i, n);
      v.quot == w.quot && v.D == w.D && v.P == if n == 0 then w.P else TWO65 - 0x2_0000_0000
    decreases n
  {
    hide Iterate;
    if n > 0 {
      HalfIterates(w, i);
      HalfStays(Iterate(w, i), i - 1, n - 1);
    }
  }

  /** Iterated too often, `Work` says one half is 1 or leaves no remainder. */
  lemma HalfGoesOn(w: Work, k: StepsPerClock)
    requires w.P == TWO65 - 0x1_0000_0000 && w.D == 0x2_0000_0000
    ensures
      var v := IterateDown(w, 255, k);
      v.quot == w.quot && v.D == w.D && v.P == if k == 1 then 0 else TWO65 - 0x2_0000_0000
  {
    hide Iterate;
    HalfIterates(w, 255);
    HalfStays(Iterate(w, 255), 254, k - 1);
  }

  ghost predicate LatchedWrong(d: DivUnit) {
    && !d.ctl.canAccept && d.ctl.started && d.ctl.ended && d.ctl.stateCounter <= 32 && d.work.counter >= 240
    && (d.ctl.quot2 != 0 || d.ctl.rem2 != 1)
  }

  lemma FinishTooLate(d: DivUnit, i: DivIn, k: StepsPerClock)
    requires Iterating(d, HALF, 32) && !i.enable
    ensures LatchedWrong(Step(d, i, k, true))
  {
    HalfDigits(d.work);
    HalfGoesOn(d.work, k);
    WorkCounts(d, k);
  }

  lemma WrongStep(d: DivUnit, i: DivIn, k: StepsPerClock, order: bool)
    requires LatchedWrong(d) && !i.enable
    ensures !Done(Step(d, i, k, order), HALF)
  {
    WorkCounts(d, k);
  }

  /** In any other order one half comes out wrong. */
  lemma UnsafeOrderFails(d: DivUnit, quiet: DivIn, k: StepsPerClock, orders: seq<bool>)
    requires Idle(d) && !quiet.enable && |orders| == IterationClocks(k) + 5 && !SafeOrders(k, orders)
    ensures !Done(Run(d, HALF, quiet, k, orders), HALF)
  {
    hide Divider.Step, Done, Iterating, LatchedWrong, Idle;
    var n := IterationClocks(k);
    var d1 := Run(d, HALF, quiet, k, orders[..n + 3]);
    RunInFlight(d, HALF, quiet, k, false, orders[..n + 3]);
    assert Iterating(d1, HALF, 32);
    FinishTooLate(d1, quiet, k);
    assert orders[..n + 4][..n + 3] == orders[..n + 3];
    assert Run(d, HALF, quiet, k, orders[..n + 4]) == Step(d1, quiet, k, true);
    WrongStep(Step(d1, quiet, k, true), quiet, k, orders[n + 4]);
  }

  /** The orders of the blocks in which every request divides correctly are exactly the safe ones. */
  lemma OrdersAreSafeExactly(d: DivUnit, quiet: DivIn, k: StepsPerClock, orders: seq<bool>)
    requires Idle(d) && !quiet.enable && |orders| == IterationClocks(k) + 5
    ensures SafeOrders(k, orders) <==> forall r: DivIn | r.enable :: Done(Run(d, r, quiet, k, orders), r)
  {
    hide Run, Done, Idle;
    if SafeOrders(k, orders) {
      forall r: DivIn | r.enable ensures Done(Run(d, r, quiet, k, orders), r) {
        DivideWithinBudget(d, r, quiet, k, orders);
      }
    } else {
      UnsafeOrderFails(d, quiet, k, orders);
      assert HALF.enable;
    }
  }
}
