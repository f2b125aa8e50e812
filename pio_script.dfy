/**
 * The Python generator baseband/generate-backscatter-pio.py: a second, purely functional
 * implementation of the same delay splitting as the C generator. The model keeps its list
 * functions (`splitNbit`, `lastMinus`, `sleeptime`), its baud correction (Python's `round`,
 * halfway cases to even) and the numbers it writes into the program, and proves that its
 * delay lists are the delays of the C generator's chains.
 */
module PioScript {
  import opened Common
  import opened Bits
  import opened PioAsm
  import opened Backscatter

  /** `[v for i in range(0, k)]`. */
  function Copies(v: int, k: nat): (r: seq<int>)
    ensures |r| == k
  {
    if k == 0 then [] else [v] + Copies(v, k - 1)
  }

  /**
   * `splitNbit(x, n)`: `x // 2**n` chunks of 2^n, then the remainder `x % 2**n` when it is
   * not zero (Python's floor division and modulo; `range` of a negative count is empty).
   */
  function SplitNbit(x: int, n: nat): seq<int>
  {
    var p := Pow2(n);
    Copies(p, if x / p > 0 then x / p else 0) + (if x % p != 0 then [x % p] else [])
  }

  /** `lastMinus(l, x)`: subtract x from the last element, dropping it when nothing positive is left. */
  function LastMinus(l: seq<int>, x: int): (r: seq<int>)
    requires |l| > 0
    ensures |l| - 1 <= |r| <= |l| && r[..|l| - 1] == l[..|l| - 1]
  {
    var last := l[|l| - 1];
    l[..|l| - 1] + (if last - x > 0 then [last - x] else [])
  }

  /** `[s - 1 for s in l]`: chunk lengths to PIO delay operands. */
  function Decrements(l: seq<int>): (r: seq<int>)
    ensures |r| == |l|
  {
    if l == [] then [] else [l[0] - 1] + Decrements(l[1..])
  }

  /** `sleeptime3bit` / `sleeptime5bit` (n = 3 or 5): the operands for a wait of x cycles. */
  function Sleeptime(x: int, subLast: int, n: nat): seq<int>
    requires SplitNbit(x, n) != []
  {
    Decrements(LastMinus(SplitNbit(x, n), subLast))
  }

  /** The cycles a list of operands waits: each instruction takes its operand plus one. */
  function Waits(delays: seq<int>): int
  {
    if delays == [] then 0 else delays[0] + 1 + Waits(delays[1..])
  }

  /** The operands of a chain of delayed instructions. */
  function Delays(instrs: seq<Instr>): (r: seq<int>)
    ensures |r| == |instrs|
  {
    if instrs == [] then [] else [DelayOf(instrs[0])] + Delays(instrs[1..])
  }

  // ---------------------------------------------------------------------------
  // splitNbit
  // ---------------------------------------------------------------------------

  /** Taking one full chunk off the front. */
  lemma SplitStep(x: int, n: nat)
    requires x >= Pow2(n)
    ensures SplitNbit(x, n) == [Pow2(n)] + SplitNbit(x - Pow2(n), n)
  {
    var p := Pow2(n);
    var q, m := x / p, x % p;
    DivMod(x, p);
    MulSucc(q, p);
    ModUnique(x - p, p, q - 1, m);
    assert q >= 1;
    assert Copies(p, q) == [p] + Copies(p, q - 1);
  }

  /** Below 2^n there is at most one chunk. */
  lemma SplitSmall(x: int, n: nat)
    requires 0 <= x < Pow2(n)
    ensures SplitNbit(x, n) == if x == 0 then [] else [x]
  {
    ModUnique(x, Pow2(n), 0, x);
  }

  /** splitNbit returns ceil(x / 2^n) chunks. */
  lemma SplitNbitLength(x: int, n: nat)
    requires x >= 0
    ensures |SplitNbit(x, n)| == CeilDiv(x, Pow2(n))
  {
    var p := Pow2(n);
    var q, m := x / p, x % p;
    assert q >= 0 by { DivNonNeg(x, p); }
    assert |Copies(p, if q > 0 then q else 0)| == q;
    assert |SplitNbit(x, n)| == q + (if m != 0 then 1 else 0);
    CeilDivSplit(x, p);
  }

  /** Rounding a quotient up adds one exactly when there is a remainder. */
  lemma CeilDivSplit(x: int, p: int)
    requires x >= 0 && p > 0
    ensures (x + p - 1) / p == x / p + (if x % p != 0 then 1 else 0)
  {
    var q, m := x / p, x % p;
    DivMod(x, p);
    MulSucc(q, p);
    if m == 0 {
      ModUnique(x + p - 1, p, q, p - 1);
    } else {
      ModUnique(x + p - 1, p, q + 1, m - 1);
    }
  }

  /** Every chunk lies in [1, 2^n], the chunks add up to x, and 0 gives no chunk. */
  lemma {:induction false} SplitNbitChunks(x: int, n: nat)
    requires x >= 0
    ensures Sum(SplitNbit(x, n)) == x
    ensures forall i :: 0 <= i < |SplitNbit(x, n)| ==> 1 <= SplitNbit(x, n)[i] <= Pow2(n)
    ensures x == 0 <==> SplitNbit(x, n) == []
    decreases x
  {
    var p := Pow2(n);
    if x < p {
      SplitSmall(x, n);
    } else {
      SplitStep(x, n);
      SplitNbitChunks(x - p, n);
      var s := SplitNbit(x, n);
      assert s[1..] == SplitNbit(x - p, n);
    }
  }

  /** `sleeptime(x, 1)` waits one cycle less than `sleeptime(x)`: lastMinus by one is splitNbit of x - 1. */
  lemma LastMinusOne(x: int, n: nat)
    requires x >= 1 && n >= 1
    ensures SplitNbit(x, n) != []
    ensures LastMinus(SplitNbit(x, n), 1) == SplitNbit(x - 1, n)
  {
    var p := Pow2(n);
    var q, m := x / p, x % p;
    assert q >= 0 && 0 <= m < p && x == q * p + m by { DivMod(x, p); DivNonNeg(x, p); }
    assert p >= 2 by { assert p == 2 * Pow2(n - 1); }
    if m == 0 {
      assert q >= 1;
      assert (x - 1) / p == q - 1 && (x - 1) % p == p - 1 by {
        MulSucc(q, p);
        ModUnique(x - 1, p, q - 1, p - 1);
      }
      assert SplitNbit(x, n) == Copies(p, q - 1) + [p] by { CopiesSnoc(p, q); }
      assert SplitNbit(x - 1, n) == Copies(p, q - 1) + [p - 1];
      LastMinusSnoc(Copies(p, q - 1), p, 1);
    } else {
      assert (x - 1) / p == q && (x - 1) % p == m - 1 by { ModUnique(x - 1, p, q, m - 1); }
      assert SplitNbit(x, n) == Copies(p, q) + [m];
      assert SplitNbit(x - 1, n) == Copies(p, q) + (if m - 1 != 0 then [m - 1] else []);
      LastMinusSnoc(Copies(p, q), m, 1);
    }
  }

  lemma LastMinusSnoc(l: seq<int>, v: int, k: int)
    ensures LastMinus(l + [v], k) == l + (if v - k > 0 then [v - k] else [])
  {
    assert (l + [v])[..|l|] == l;
  }

  lemma {:induction false} CopiesSnoc(v: int, k: nat)
    requires k >= 1
    ensures Copies(v, k) == Copies(v, k - 1) + [v]
    decreases k
  {
    if k > 1 {
      CopiesSnoc(v, k - 1);
    }
  }

  /** lastMinus by 0 keeps a list of positive chunks. */
  lemma LastMinusZero(l: seq<int>)
    requires |l| > 0 && l[|l| - 1] > 0
    ensures LastMinus(l, 0) == l
  {
  }

  lemma {:induction false} WaitsOfDecrements(l: seq<int>)
    ensures Waits(Decrements(l)) == Sum(l)
  {
    if l != [] {
      WaitsOfDecrements(l[1..]);
    }
  }

  /**
   * One period in the script: the high phase waits d//2 cycles and the low phase d//2 - 1,
   * with operands in [0, 2^n - 1]; the `JMP x--` adds the period's last cycle.
   */
  lemma PeriodWaits(d: int, n: nat)
    requires d >= 2 && n >= 1
    ensures SplitNbit(d / 2, n) != []
    ensures Waits(Sleeptime(d / 2, 0, n)) == d / 2
    ensures Waits(Sleeptime(d / 2, 1, n)) == d / 2 - 1
    ensures forall i :: 0 <= i < |Sleeptime(d / 2, 0, n)| ==> 0 <= Sleeptime(d / 2, 0, n)[i] < Pow2(n)
  {
    var h := d / 2;
    SplitNbitChunks(h, n);
    SplitNbitChunks(h - 1, n);
    LastMinusZero(SplitNbit(h, n));
    LastMinusOne(h, n);
    WaitsOfDecrements(SplitNbit(h, n));
    WaitsOfDecrements(SplitNbit(h - 1, n));
    forall i | 0 <= i < |SplitNbit(h, n)|
      ensures Sleeptime(h, 0, n)[i] == SplitNbit(h, n)[i] - 1
    {
      DecrementsAt(SplitNbit(h, n), i);
    }
  }

  lemma {:induction false} DecrementsAt(l: seq<int>, i: int)
    requires 0 <= i < |l|
    ensures Decrements(l)[i] == l[i] - 1
  {
    if i > 0 {
      DecrementsAt(l[1..], i - 1);
    }
  }

  // ---------------------------------------------------------------------------
  // Cross-check with the C generator's chains
  // ---------------------------------------------------------------------------

  /** The script's operands for a wait of x cycles are those of the C chain `repeat` writes. */
  lemma {:induction false} SplitMatchesChain(x: int, n: nat, base: Word)
    requires n == 3 || n == 5
    requires x >= 0
    ensures ValidCap(Pow2(n))
    ensures Decrements(SplitNbit(x, n)) == Delays(ChainInstrs(x, base, Pow2(n)))
    decreases x
  {
    Pow2Small(n);
    if x < Pow2(n) {
      SplitChainSmall(x, n, base);
    } else {
      SplitMatchesChain(x - Pow2(n), n, base);
      SplitChainStep(x, n, base);
    }
  }

  /** `SplitMatchesChain` below one full chunk: at most one instruction. */
  lemma SplitChainSmall(x: int, n: nat, base: Word)
    requires ValidCap(Pow2(n)) && 0 <= x < Pow2(n)
    ensures Decrements(SplitNbit(x, n)) == Delays(ChainInstrs(x, base, Pow2(n)))
  {
    var p := Pow2(n);
    SplitSmall(x, n);
    if x > 0 {
      assert ChainInstrs(x, base, p) == [Delayed(base, x - 1)] + [] by {
        assert Min(p, x) == x && ChainInstrs(0, base, p) == [];
      }
      DecrementsCons(x, []);
      DelaysCons(Delayed(base, x - 1), []);
    }
  }

  /** `SplitMatchesChain` one full chunk up: both sides gain a leading operand 2^n - 1. */
  lemma SplitChainStep(x: int, n: nat, base: Word)
    requires ValidCap(Pow2(n)) && x >= Pow2(n)
    requires Decrements(SplitNbit(x - Pow2(n), n)) == Delays(ChainInstrs(x - Pow2(n), base, Pow2(n)))
    ensures Decrements(SplitNbit(x, n)) == Delays(ChainInstrs(x, base, Pow2(n)))
  {
    var p := Pow2(n);
    var rest, l := ChainInstrs(x - p, base, p), SplitNbit(x - p, n);
    assert ChainInstrs(x, base, p) == [Delayed(base, p - 1)] + rest by { assert Min(p, x) == p; }
    assert SplitNbit(x, n) == [p] + l by { SplitStep(x, n); }
    DecrementsCons(p, l);
    DelaysCons(Delayed(base, p - 1), rest);
  }

  lemma DecrementsCons(h: int, t: seq<int>)
    ensures Decrements([h] + t) == [h - 1] + Decrements(t)
  {
    assert ([h] + t)[1..] == t;
  }

  lemma DelaysCons(i: Instr, t: seq<Instr>)
    ensures Delays([i] + t) == [DelayOf(i)] + Delays(t)
  {
    assert ([i] + t)[1..] == t;
  }

  // ---------------------------------------------------------------------------
  // The script as a whole
  // ---------------------------------------------------------------------------

  /**
   * The baud correction: `b` is kept when it divides 125e6, else it becomes
   * round(125e6 / round(125e6 / b)) with Python's `round`. `None` stands for the exceptions the
   * script raises: division by zero, or the failed `assert b > 0`.
   */
  function ScriptBaud(b: int): (r: Option<int>)
    ensures r.Some? <==> 0 < b < 2 * CLK_HZ
    ensures r.Some? ==> 0 < r.value <= CLK_HZ
    ensures 0 < b && CLK_HZ % b == 0 ==> r == Some(b)
  {
    if b <= 0 then None
    else if CLK_HZ % b == 0 then
      assert b <= CLK_HZ by { if b > CLK_HZ { ModUnique(CLK_HZ, b, 0, CLK_HZ); } }
      Some(b)
    else
      HalfEvenQuotientZero(CLK_HZ, b);
      var n := RoundHalfEven(CLK_HZ, b);
      if n == 0 then None
      else
        HalfEvenQuotientAtMost(CLK_HZ, b);
        HalfEvenQuotientBounds(CLK_HZ, n);
        HalfEvenQuotientAtMost(CLK_HZ, n);
        Some(RoundHalfEven(CLK_HZ, n))
  }

  lemma HalfEvenQuotientAtMost(a: nat, b: nat)
    requires b > 0
    ensures RoundHalfEven(a, b) <= a
  {
    var r := RoundHalfEven(a, b);
    MulMono(1, b, a);
    MulComm2(r, b);
    MulSucc(a, 2 * b);
    assert a * (2 * b) == 2 * (b * a);
    MulLess(r, a + 1, 2 * b);
  }

  /** Python's rounding of a / b is zero exactly when a / b <= 1/2, i.e. b >= 2a. */
  lemma HalfEvenQuotientZero(a: nat, b: nat)
    requires a > 0 && b > 0 && a % b != 0
    ensures RoundHalfEven(a, b) == 0 <==> b >= 2 * a
  {
    DivMod(a, b);
    if b > a {
      ModUnique(a, b, 0, a);
    } else {
      assert a / b >= 1;
    }
  }

  /** A rounded quotient a / n with 1 <= n <= a lies in [1, a]. */
  lemma HalfEvenQuotientBounds(a: nat, n: nat)
    requires 0 < n <= a
    ensures 1 <= RoundHalfEven(a, n) <= a
  {
    var r := RoundHalfEven(a, n);
    HalfEvenQuotientAtMost(a, n);
    MulComm2(r, n);
    MulLess(0, r, 2 * n);
  }

  lemma MulComm2(r: int, b: int)
    ensures 2 * r * b == r * (2 * b) && 0 * (2 * b) == 0
  {
  }

  /** The delay operands of one symbol in the generated program. */
  datatype SymbolDelays = SymbolDelays(high: seq<int>, low: seq<int>, correctionHigh: seq<int>, correctionLow: seq<int>)

  /**
   * What the script writes: the corrected baud rate, whether `.side_set 1 opt` is declared,
   * the delay cap, the operands of both symbols and the two FIFO words of `backscatter_program_init`.
   */
  datatype Script = Script(baud: int, sideSet: bool, cap: int, one: SymbolDelays, zero: SymbolDelays, fifo0: int, fifo1: int)

  predicate EvenDivider(d: int)
  {
    d % 2 == 0 && d >= 2
  }

  /** `lastPeriodCycles0/1`: `(CLKFREQ*1000000//b - 4) % d`, Python's floor modulo. */
  function ScriptLastPeriodCycles(b: int, d: int): (r: int)
    requires b > 0 && d > 0
    ensures 0 <= r < d
  {
    (CLK_HZ / b - 4) % d
  }

  /** `((CLKFREQ*1000000//b - 4) // d) - 1`, Python's floor division. */
  function ScriptReps(b: int, d: int): int
    requires b > 0 && d > 0
  {
    (CLK_HZ / b - 4) / d - 1
  }

  /** The operands of one symbol whose last period is `lpc` cycles short of a whole one. */
  function ScriptSymbol(d: int, lpc: int, n: nat): SymbolDelays
    requires EvenDivider(d) && n >= 1
  {
    PeriodWaits(d, n);
    SymbolDelays(
      Sleeptime(d / 2, 0, n),
      Sleeptime(d / 2, 1, n),
      if lpc > 0 then Decrements(SplitNbit(Min(lpc, d / 2), n)) else [],
      if lpc - d / 2 > 0 then Decrements(SplitNbit(lpc - d / 2, n)) else [])
  }

  /** The whole script; `None` when it stops with an exception or a failed assertion. */
  function Generate(d0: int, d1: int, b0: int, twoAntennas: bool): (r: Option<Script>)
    ensures r.Some? <==> 0 < b0 < 2 * CLK_HZ && EvenDivider(d0) && EvenDivider(d1)
  {
    var b := ScriptBaud(b0);
    if b.None? || !EvenDivider(d0) || !EvenDivider(d1) then None
    else
      var n := if twoAntennas then 3 else 5;
      Pow2Small(n);
      Some(Script(b.value, twoAntennas, Pow2(n),
                  ScriptSymbol(d1, ScriptLastPeriodCycles(b.value, d1), n),
                  ScriptSymbol(d0, ScriptLastPeriodCycles(b.value, d0), n),
                  ScriptReps(b.value, d0), ScriptReps(b.value, d1)))
  }

  /** The operands of the four chains of a symbol block the C generator writes. */
  function FirmwareDelays(d: int, lpc: int, twoAntennas: bool): SymbolDelays
  {
    var cap, high, low := MaxDelay(twoAntennas), HighInstr(twoAntennas), LowInstr(twoAntennas);
    SymbolDelays(
      Delays(ChainInstrs(d / 2, high, cap)),
      Delays(ChainInstrs(d / 2 - 1, low, cap)),
      Delays(ChainInstrs(HighCorrection(d, lpc), high, cap)),
      Delays(ChainInstrs(LowCorrection(d, lpc), low, cap)))
  }

  lemma {:induction false} DelaysAppend(a: seq<Instr>, b: seq<Instr>)
    ensures Delays(a + b) == Delays(a) + Delays(b)
  {
    if a == [] {
      assert a + b == b;
    } else {
      assert a + b == [a[0]] + (a[1..] + b);
      assert a == [a[0]] + a[1..];
      DelaysCons(a[0], a[1..] + b);
      DelaysCons(a[0], a[1..]);
      DelaysAppend(a[1..], b);
    }
  }

  /**
   * The operands of a whole C symbol block: the `mov`, both loop chains, the `jmp x--`, both
   * correction chains and the jump back carry no delay; the chains carry `FirmwareDelays`.
   */
  lemma BlockDelays(mov: Word, d: int, lpc: int, loopLabel: int, twoAntennas: bool)
    ensures var f := FirmwareDelays(d, lpc, twoAntennas);
      Delays(SymbolBlock(mov, d, lpc, loopLabel, twoAntennas))
        == [0] + (f.high + f.low + [0]) + (f.correctionHigh + f.correctionLow + [0])
  {
    var f := FirmwareDelays(d, lpc, twoAntennas);
    var head := [Fixed(mov)];
    var loop, corr := LoopBody(d, loopLabel, twoAntennas), Correction(d, lpc, twoAntennas);
    assert Delays(head) == [0];
    assert SymbolBlock(mov, d, lpc, loopLabel, twoAntennas) == head + loop + corr;
    assert Delays(loop) == f.high + f.low + [0] by { RunDelays(d / 2, d / 2 - 1, Jump(ASM_JMP_XMM, loopLabel), twoAntennas); }
    assert Delays(corr) == f.correctionHigh + f.correctionLow + [0] by {
      RunDelays(HighCorrection(d, lpc), LowCorrection(d, lpc), JMP_GET_SYMBOL, twoAntennas);
    }
    DelaysAppend(head, loop);
    DelaysAppend(head + loop, corr);
  }

  lemma RunDelays(high: int, low: int, last: Word, twoAntennas: bool)
    ensures var cap := MaxDelay(twoAntennas);
      Delays(Run(high, low, last, twoAntennas))
        == Delays(ChainInstrs(high, HighInstr(twoAntennas), cap)) + Delays(ChainInstrs(low, LowInstr(twoAntennas), cap)) + [0]
  {
    var cap := MaxDelay(twoAntennas);
    var c1, c2 := ChainInstrs(high, HighInstr(twoAntennas), cap), ChainInstrs(low, LowInstr(twoAntennas), cap);
    assert Delays([Fixed(last)]) == [0];
    DelaysAppend(c1, c2);
    DelaysAppend(c1 + c2, [Fixed(last)]);
  }

  /** For one symbol, the script's operands are those of the C generator's chains. */
  lemma ScriptSymbolMatches(d: int, lpc: int, twoAntennas: bool)
    requires EvenDivider(d) && 0 <= lpc
    ensures ScriptSymbol(d, lpc, if twoAntennas then 3 else 5) == FirmwareDelays(d, lpc, twoAntennas)
  {
    var n := if twoAntennas then 3 else 5;
    var h := d / 2;
    assert Pow2(n) == MaxDelay(twoAntennas) by { Pow2Small(n); }
    SleeptimeMatches(h, n, HighInstr(twoAntennas), LowInstr(twoAntennas));
    CorrectionMatches(lpc, h, n, HighInstr(twoAntennas), LowInstr(twoAntennas));
  }

  /** The loop's high and low waits: `sleeptime(d//2)` and `sleeptime(d//2, 1)` against `repeat`. */
  lemma SleeptimeMatches(h: int, n: nat, high: Word, low: Word)
    requires h >= 1 && (n == 3 || n == 5)
    ensures SplitNbit(h, n) != []
    ensures Sleeptime(h, 0, n) == Delays(ChainInstrs(h, high, Pow2(n)))
    ensures Sleeptime(h, 1, n) == Delays(ChainInstrs(h - 1, low, Pow2(n)))
  {
    SplitNbitChunks(h, n);
    LastMinusZero(SplitNbit(h, n));
    SplitMatchesChain(h, n, high);
    LastMinusOne(h, n);
    SplitMatchesChain(h - 1, n, low);
  }

  /** The correction's waits: the script's two guarded splits against `tmp` and `max(0, lpc - tmp)`. */
  lemma CorrectionMatches(lpc: int, h: int, n: nat, high: Word, low: Word)
    requires lpc >= 0 && h >= 1 && (n == 3 || n == 5)
    ensures ValidCap(Pow2(n))
    ensures (if lpc > 0 then Decrements(SplitNbit(Min(lpc, h), n)) else [])
      == Delays(ChainInstrs(Min(lpc, h), high, Pow2(n)))
    ensures (if lpc - h > 0 then Decrements(SplitNbit(lpc - h, n)) else [])
      == Delays(ChainInstrs(Max(0, lpc - Min(lpc, h)), low, Pow2(n)))
  {
    SplitMatchesChain(Min(lpc, h), n, high);
    SplitMatchesChain(Max(0, lpc - Min(lpc, h)), n, low);
  }

  /**
   * The script and the firmware describe the same program: for the baud rate the script settles
   * on, each symbol's delay operands are those of the C generator's block, the delay cap and the
   * side-set declaration follow the antenna mode, and the FIFO words are the C `reps`.
   */
  lemma ScriptMatchesFirmware(d0: u16, d1: u16, b0: u32, twoAntennas: bool, s: Script)
    requires Generate(d0, d1, b0, twoAntennas) == Some(s)
    requires d0 <= 0x8000 && d1 <= 0x8000 && CLK_HZ / s.baud >= 4
    ensures 0 < s.baud <= CLK_HZ && s.sideSet == twoAntennas && s.cap == MaxDelay(twoAntennas)
    ensures s.one == FirmwareDelays(d1, LastPeriodCycles(d1, s.baud), twoAntennas)
    ensures s.zero == FirmwareDelays(d0, LastPeriodCycles(d0, s.baud), twoAntennas)
    ensures CLK_HZ / s.baud >= d0 + 4 ==> s.fifo0 == Reps(d0, s.baud)
    ensures CLK_HZ / s.baud >= d1 + 4 ==> s.fifo1 == Reps(d1, s.baud)
  {
    var b := ScriptBaud(b0).value;
    var n := if twoAntennas then 3 else 5;
    assert Pow2(n) == MaxDelay(twoAntennas) by { Pow2Small(n); }
    assert s == Script(b, twoAntennas, Pow2(n),
                       ScriptSymbol(d1, ScriptLastPeriodCycles(b, d1), n),
                       ScriptSymbol(d0, ScriptLastPeriodCycles(b, d0), n),
                       ScriptReps(b, d0), ScriptReps(b, d1));
    assert 0 < b <= CLK_HZ;
    SymbolMatchesAt(d1, b, twoAntennas);
    SymbolMatchesAt(d0, b, twoAntennas);
  }

  /** One symbol of `ScriptMatchesFirmware`, for a baud rate of at least 4 cycles per symbol. */
  lemma SymbolMatchesAt(d: u16, b: u32, twoAntennas: bool)
    requires EvenDivider(d) && d <= 0x8000 && 0 < b && CLK_HZ / b >= 4
    ensures ScriptSymbol(d, ScriptLastPeriodCycles(b, d), if twoAntennas then 3 else 5)
      == FirmwareDelays(d, LastPeriodCycles(d, b), twoAntennas)
    ensures CLK_HZ / b >= d + 4 ==> ScriptReps(b, d) == Reps(d, b)
  {
    var lpc := LastPeriodCycles(d, b);
    assert ScriptLastPeriodCycles(b, d) == lpc;
    ScriptSymbolMatches(d, lpc, twoAntennas);
  }

  /** Without ties in either rounding, both generators pick the same baud rate. */
  lemma BaudCorrectionsAgree(b: u32)
    requires 0 < b < 2 * CLK_HZ
    requires 2 * (CLK_HZ % b) != b
    requires 2 * (CLK_HZ % RoundHalfAway(CLK_HZ, b)) != RoundHalfAway(CLK_HZ, b) || CLK_HZ % b == 0
    ensures ScriptBaud(b) == Some(CorrectedBaud(b))
  {
    if CLK_HZ % b != 0 {
      RoundingsAgree(CLK_HZ, b);
      RoundedQuotientBounds(CLK_HZ, b);
      RoundingsAgree(CLK_HZ, RoundHalfAway(CLK_HZ, b));
    }
  }

  /** Rounding half to even and half away from zero differ only on ties. */
  lemma RoundingsAgree(a: nat, b: nat)
    requires b > 0 && 2 * (a % b) != b
    ensures RoundHalfEven(a, b) == RoundHalfAway(a, b)
  {
    var q, m := a / b, a % b;
    DivMod(a, b);
    if 2 * m < b {
      ModUnique(2 * a + b, 2 * b, q, 2 * m + b);
    } else {
      ModUnique(2 * a + b, 2 * b, q + 1, 2 * m - b);
    }
  }

  /**
   * On a tie the two disagree: 80000 Baud needs 1562.5 cycles per symbol; the C generator
   * rounds to 1563 and settles on 79974 Baud, the script rounds to 1562 and settles on 80026.
   */
  lemma BaudCorrectionsDiffer(b: u32)
    requires b == 80000
    ensures CorrectedBaud(b) == 79974
    ensures ScriptBaud(b) == Some(80026)
  {
    assert RoundHalfAway(CLK_HZ, b) == 1563;
    assert RoundHalfEven(CLK_HZ, b) == 1562;
  }
}
