/**
 * `generatePIOprogram` and the integer part of `backscatter_program_init`
 * (project_pico_libs/backscatter.c): the PIO program that toggles the antenna switch at
 * 125 MHz / d1 for a 1 bit and 125 MHz / d0 for a 0 bit, its jump labels in closed form,
 * its capacity check, the symbol timing, and the receiver settings derived from d0, d1
 * and the baud rate.
 *
 * Program layout (one word per line, labels in brackets):
 *   0      set pins, 1 side 1
 *   1      out isr, 32            reps0
 *   2      out y, 32              reps1
 *   [3]    out x, 1               get_symbol_label
 *   4      jmp !x, send_0_label
 *   [5]    mov x, y               send_1_label, then loop_1_label = 6:
 *          d1/2 cycles high, d1/2 - 1 cycles low, jmp x--, loop_1_label,
 *          the correction (high, then low), jmp get_symbol_label
 *   [s]    mov x, isr             send_0_label, then loop_0_label = s + 1:
 *          the same for d0
 */
module Backscatter {
  import opened Common
  import opened Bits
  import opened PioAsm

  /** `(uint32_t) CLKFREQ*1000000`: the system clock in Hz. */
  const CLK_HZ: int := 125_000_000

  /** The state machine's instruction memory holds 32 words. */
  const INSTRUCTION_MEMORY: int := 32

  const GET_SYMBOL_LABEL: int := 3
  const SEND_1_LABEL: int := 5
  const LOOP_1_LABEL: int := 6

  /** `ASM_JMP | get_symbol_label`: the jump that ends both symbol blocks. */
  const JMP_GET_SYMBOL: Word := 3

  lemma JumpGetSymbolIsCExpression()
    ensures JMP_GET_SYMBOL == BitOr(ASM_JMP, GET_SYMBOL_LABEL)
  {
    OrZero(3);
  }

  // ---------------------------------------------------------------------------
  // The program as a function of d0, d1, the baud rate and the antenna mode
  // ---------------------------------------------------------------------------

  /**
   * `lastPeriodCycles`: the clock cycles of a symbol that whole periods do not fill,
   * `(125e6 / baud - 4) % d` in `uint32_t`, stored in an `int16_t`.
   */
  function LastPeriodCycles(d: u16, baud: u32): (r: int)
    requires d > 0 && baud > 0
    ensures -0x8000 <= r < 0x8000
    ensures d <= 0x8000 ==> 0 <= r < d
    ensures d <= 0x8000 && CLK_HZ / baud >= 4 ==> r == (CLK_HZ / baud - 4) % d
  {
    ToInt16(ToU32(CLK_HZ / baud - 4) % d)
  }

  /** `tmp`: the high part of the correction, at most half a period. */
  function HighCorrection(d: int, lpc: int): int
  {
    Min(lpc, d / 2)
  }

  /** `max(0, lastPeriodCycles - tmp)`: the low part of the correction. */
  function LowCorrection(d: int, lpc: int): int
  {
    Max(0, lpc - HighCorrection(d, lpc))
  }

  /**
   * A stretch of the waveform: `high` cycles with the pin high, `low` cycles with it low,
   * then the word `last` (a jump).
   */
  function Run(high: int, low: int, last: Word, twoAntennas: bool): seq<Instr>
  {
    var cap := MaxDelay(twoAntennas);
    ChainInstrs(high, HighInstr(twoAntennas), cap) + ChainInstrs(low, LowInstr(twoAntennas), cap) + [Fixed(last)]
  }

  /** One period of the subcarrier: d/2 cycles high, d/2 - 1 low, and the 1-cycle `jmp x--`. */
  function LoopBody(d: int, loopLabel: int, twoAntennas: bool): seq<Instr>
  {
    Run(d / 2, d / 2 - 1, Jump(ASM_JMP_XMM, loopLabel), twoAntennas)
  }

  /** The rest of the symbol after the last whole period, then back to `get_symbol_label`. */
  function Correction(d: int, lpc: int, twoAntennas: bool): seq<Instr>
  {
    Run(HighCorrection(d, lpc), LowCorrection(d, lpc), JMP_GET_SYMBOL, twoAntennas)
  }

  /** The block of one symbol: the `mov` that loads the repeat count, the loop and the correction. */
  function SymbolBlock(mov: Word, d: int, lpc: int, loopLabel: int, twoAntennas: bool): seq<Instr>
  {
    [Fixed(mov)] + LoopBody(d, loopLabel, twoAntennas) + Correction(d, lpc, twoAntennas)
  }

  function SymbolOne(d1: u16, baud: u32, twoAntennas: bool): seq<Instr>
    requires d1 > 0 && baud > 0
  {
    SymbolBlock(MOV_X_Y, d1, LastPeriodCycles(d1, baud), LOOP_1_LABEL, twoAntennas)
  }

  /** `send_0_label`: where the block of symbol 0 starts, right after that of symbol 1. */
  function Send0Label(d1: u16, baud: u32, twoAntennas: bool): int
    requires d1 > 0 && baud > 0
  {
    SEND_1_LABEL + |SymbolOne(d1, baud, twoAntennas)|
  }

  function SymbolZero(d0: u16, d1: u16, baud: u32, twoAntennas: bool): seq<Instr>
    requires d0 > 0 && d1 > 0 && baud > 0
  {
    SymbolBlock(MOV_X_ISR, d0, LastPeriodCycles(d0, baud), Send0Label(d1, baud, twoAntennas) + 1, twoAntennas)
  }

  /** Words 0 to 4: start high, load both repeat counts, read a bit, branch on it. */
  function Prologue(d1: u16, baud: u32, twoAntennas: bool): seq<Instr>
    requires d1 > 0 && baud > 0
  {
    [Fixed(HighInstr(twoAntennas)), Fixed(OUT_ISR), Fixed(OUT_Y), Fixed(OUT_X_1),
     Fixed(Jump(ASM_JMP_NOTX, Send0Label(d1, baud, twoAntennas)))]
  }

  function ProgramInstrs(d0: u16, d1: u16, baud: u32, twoAntennas: bool): seq<Instr>
    requires d0 > 0 && d1 > 0 && baud > 0
  {
    Prologue(d1, baud, twoAntennas) + SymbolOne(d1, baud, twoAntennas) + SymbolZero(d0, d1, baud, twoAntennas)
  }

  function ProgramWords(d0: u16, d1: u16, baud: u32, twoAntennas: bool): seq<nat>
    requires d0 > 0 && d1 > 0 && baud > 0
  {
    AssembleAll(ProgramInstrs(d0, d1, baud, twoAntennas))
  }

  /** The program passes the capacity check: fewer than 32 words, as the source demands. */
  predicate Fits(d0: u16, d1: u16, baud: u32, twoAntennas: bool)
    requires d0 > 0 && d1 > 0 && baud > 0
  {
    |ProgramInstrs(d0, d1, baud, twoAntennas)| < INSTRUCTION_MEMORY
  }

  /** The word count of a symbol block, summed from `instructionCount` as the C computes the labels. */
  function SymbolLength(d: int, lpc: int, cap: int): nat
    requires ValidCap(cap)
  {
    1 + RepeatCount(d / 2, cap) + RepeatCount(d / 2 - 1, cap) + 1
      + RepeatCount(HighCorrection(d, lpc), cap) + RepeatCount(LowCorrection(d, lpc), cap) + 1
  }

  lemma RunLength(high: int, low: int, last: Word, twoAntennas: bool)
    ensures |Run(high, low, last, twoAntennas)|
            == RepeatCount(high, MaxDelay(twoAntennas)) + RepeatCount(low, MaxDelay(twoAntennas)) + 1
  {
    ChainLength(high, HighInstr(twoAntennas), MaxDelay(twoAntennas));
    ChainLength(low, LowInstr(twoAntennas), MaxDelay(twoAntennas));
  }

  /** The closed-form count is the length of the block. */
  lemma SymbolBlockLength(mov: Word, d: int, lpc: int, loopLabel: int, twoAntennas: bool)
    ensures |SymbolBlock(mov, d, lpc, loopLabel, twoAntennas)| == SymbolLength(d, lpc, MaxDelay(twoAntennas))
  {
    RunLength(d / 2, d / 2 - 1, Jump(ASM_JMP_XMM, loopLabel), twoAntennas);
    RunLength(HighCorrection(d, lpc), LowCorrection(d, lpc), JMP_GET_SYMBOL, twoAntennas);
  }

  /**
   * `send_0_label` as the C computes it (without wrap-around) is the start of symbol 0's
   * block, and the checked total is the program's length.
   */
  lemma ProgramLength(d0: u16, d1: u16, baud: u32, twoAntennas: bool)
    requires d0 > 0 && d1 > 0 && baud > 0
    ensures Send0Label(d1, baud, twoAntennas) == SEND_1_LABEL + SymbolLength(d1, LastPeriodCycles(d1, baud), MaxDelay(twoAntennas))
    ensures |ProgramInstrs(d0, d1, baud, twoAntennas)|
            == Send0Label(d1, baud, twoAntennas) + SymbolLength(d0, LastPeriodCycles(d0, baud), MaxDelay(twoAntennas))
  {
    SymbolBlockLength(MOV_X_Y, d1, LastPeriodCycles(d1, baud), LOOP_1_LABEL, twoAntennas);
    SymbolBlockLength(MOV_X_ISR, d0, LastPeriodCycles(d0, baud), Send0Label(d1, baud, twoAntennas) + 1, twoAntennas);
  }

  // ---------------------------------------------------------------------------
  // Writing the program
  // ---------------------------------------------------------------------------

  /** `struct pio_program`: the instruction array, its length and the load origin (-1: anywhere). */
  class PioProgram {
    var instructions: array<Word>
    var length: int
    var origin: int

    constructor (buffer: array<Word>)
      ensures instructions == buffer && length == 0 && origin == 0
    {
      instructions := buffer;
      length := 0;
      origin := 0;
    }

    /** Lines 90-92 of the C: the program is `buffer[..len]`, loadable at any offset. */
    method Load(buffer: array<Word>, len: int)
      modifies this
      ensures instructions == buffer && length == len && origin == -1
    {
      instructions := buffer;
      length := len;
      origin := -1;
    }
  }

  /**
   * `cur` is `prev` with the words of `add` written at `prev[from..to]` and nothing
   * else changed.
   */
  ghost predicate Appended(cur: seq<int>, prev: seq<int>, from: nat, to: nat, add: seq<Instr>)
  {
    |cur| == |prev| && to == from + |add| && to <= |prev|
    && cur[..to] == prev[..from] + AssembleAll(add) && cur[to..] == prev[to..]
  }

  lemma AppendedTrans(a: seq<int>, b: seq<int>, c: seq<int>, i: nat, j: nat, k: nat, x: seq<Instr>, y: seq<Instr>)
    requires Appended(b, a, i, j, x) && Appended(c, b, j, k, y)
    ensures Appended(c, a, i, k, x + y)
  {
    AssembleAllAppend(x, y);
    assert c[..k] == (a[..i] + AssembleAll(x)) + AssembleAll(y);
    assert b[k..] == b[j..][k - j..];
    assert a[k..] == a[j..][k - j..];
  }

  lemma WriteOne(s: seq<int>, i: nat, w: Word)
    requires i < |s|
    ensures Appended(s[i := w], s, i, i + 1, [Fixed(w)])
  {
    assert AssembleAll([Fixed(w)]) == [w];
  }

  /** Writes a `Run` at `buf[start..]`: two `repeat` calls and the word after them. */
  method WriteRun(buf: array<Word>, start: nat, high: int, low: int, last: Word, twoAntennas: bool)
    returns (len: nat)
    requires start + RepeatCount(high, MaxDelay(twoAntennas)) + RepeatCount(low, MaxDelay(twoAntennas)) < buf.Length
    modifies buf
    ensures Appended(buf[..], old(buf[..]), start, len, Run(high, low, last, twoAntennas))
  {
    var cap := MaxDelay(twoAntennas);
    var highWord, lowWord := HighInstr(twoAntennas), LowInstr(twoAntennas);
    SetBasesClear(twoAntennas);
    ghost var s0 := buf[..];
    len := Repeat(buf, high, highWord, start, cap);
    ghost var s1 := buf[..];
    var mid := len;
    len := Repeat(buf, low, lowWord, len, cap);
    AppendedTrans(s0, s1, buf[..], start, mid, len, ChainInstrs(high, highWord, cap), ChainInstrs(low, lowWord, cap));
    ghost var s2 := buf[..];
    buf[len] := last;
    WriteOne(s2, len, last);
    AppendedTrans(s0, s2, buf[..], start, len, len + 1,
                  ChainInstrs(high, highWord, cap) + ChainInstrs(low, lowWord, cap), [Fixed(last)]);
    len := len + 1;
  }

  /** Writes one symbol block at `buf[start..]`, as lines 64-74 and 77-87 of the C do. */
  method WriteSymbol(buf: array<Word>, start: nat, mov: Word, d: u16, lpc: int, loopLabel: int, twoAntennas: bool)
    returns (len: nat)
    requires start + SymbolLength(d, lpc, MaxDelay(twoAntennas)) <= buf.Length
    modifies buf
    ensures Appended(buf[..], old(buf[..]), start, len, SymbolBlock(mov, d, lpc, loopLabel, twoAntennas))
  {
    RunLength(d / 2, d / 2 - 1, Jump(ASM_JMP_XMM, loopLabel), twoAntennas);
    ghost var s0 := buf[..];
    buf[start] := mov;
    WriteOne(s0, start, mov);
    ghost var s1 := buf[..];
    var jump := EncodeJump(ASM_JMP_XMM, loopLabel);
    len := WriteRun(buf, start + 1, d / 2, d / 2 - 1, jump, twoAntennas);
    AppendedTrans(s0, s1, buf[..], start, start + 1, len, [Fixed(mov)], LoopBody(d, loopLabel, twoAntennas));
    ghost var s2 := buf[..];
    var mid := len;
    var tmp := Min(lpc, d / 2);
    len := WriteRun(buf, len, tmp, Max(0, lpc - tmp), JMP_GET_SYMBOL, twoAntennas);
    AppendedTrans(s0, s2, buf[..], start, mid, len, [Fixed(mov)] + LoopBody(d, loopLabel, twoAntennas),
                  Correction(d, lpc, twoAntennas));
  }

  /** The five prologue words, as lines 58-62 of the C write them. */
  method WritePrologue(buf: array<Word>, send0: int, twoAntennas: bool)
    requires buf.Length >= 5
    modifies buf
    ensures Appended(buf[..], old(buf[..]), 0, 5,
                     [Fixed(HighInstr(twoAntennas)), Fixed(OUT_ISR), Fixed(OUT_Y), Fixed(OUT_X_1),
                      Fixed(Jump(ASM_JMP_NOTX, send0))])
  {
    var jump := EncodeJump(ASM_JMP_NOTX, send0);
    buf[0] := HighInstr(twoAntennas);
    buf[1] := OUT_ISR;
    buf[2] := OUT_Y;
    buf[3] := OUT_X_1;
    buf[4] := jump;
    var instrs := [Fixed(HighInstr(twoAntennas)), Fixed(OUT_ISR), Fixed(OUT_Y), Fixed(OUT_X_1), Fixed(jump)];
    forall k | 0 <= k < 5 {
      AssembleAllAt(instrs, k);
    }
    assert AssembleAll(instrs) == buf[..5];
  }

  /** Lines 58-87 of the C: the prologue and both symbol blocks, at `buf[0..]`. */
  method WriteProgram(buf: array<Word>, d0: u16, d1: u16, baud: u32, twoAntennas: bool) returns (len: nat)
    requires d0 > 0 && d1 > 0 && baud > 0
    requires buf.Length >= |ProgramInstrs(d0, d1, baud, twoAntennas)|
    modifies buf
    ensures len == |ProgramWords(d0, d1, baud, twoAntennas)|
    ensures buf[..len] == ProgramWords(d0, d1, baud, twoAntennas) && buf[len..] == old(buf[..])[len..]
  {
    var cap := MaxDelay(twoAntennas);
    var lpc1 := LastPeriodCycles(d1, baud);
    var lpc0 := LastPeriodCycles(d0, baud);
    ProgramLength(d0, d1, baud, twoAntennas);
    var send0 := SEND_1_LABEL + SymbolLength(d1, lpc1, cap);
    ghost var s0 := buf[..];
    WritePrologue(buf, send0, twoAntennas);
    ghost var s1 := buf[..];
    len := WriteSymbol(buf, SEND_1_LABEL, MOV_X_Y, d1, lpc1, LOOP_1_LABEL, twoAntennas);
    AppendedTrans(s0, s1, buf[..], 0, SEND_1_LABEL, len, Prologue(d1, baud, twoAntennas), SymbolOne(d1, baud, twoAntennas));
    ghost var s2 := buf[..];
    var mid := len;
    len := WriteSymbol(buf, len, MOV_X_ISR, d0, lpc0, send0 + 1, twoAntennas);
    AppendedTrans(s0, s2, buf[..], 0, mid, len, Prologue(d1, baud, twoAntennas) + SymbolOne(d1, baud, twoAntennas),
                  SymbolZero(d0, d1, baud, twoAntennas));
  }

  /**
   * `generatePIOprogram`: computes the labels, refuses a program of 32 words or more
   * without writing anything, and otherwise writes the program to `buf[..length]` and
   * points `prog` at it.
   */
  method GeneratePioProgram(d0: u16, d1: u16, baud: u32, buf: array<Word>, prog: PioProgram, twoAntennas: bool)
    returns (ok: bool)
    requires d0 > 0 && d1 > 0 && baud > 0
    requires buf.Length >= INSTRUCTION_MEMORY
    modifies buf, prog
    ensures ok <==> Fits(d0, d1, baud, twoAntennas)
    ensures ok ==> prog.instructions == buf && prog.origin == -1
                   && prog.length == |ProgramWords(d0, d1, baud, twoAntennas)|
                   && buf[..prog.length] == ProgramWords(d0, d1, baud, twoAntennas)
                   && buf[prog.length..] == old(buf[..])[prog.length..]
    ensures !ok ==> buf[..] == old(buf[..]) && unchanged(prog)
  {
    var cap := MaxDelay(twoAntennas);
    var lpc1 := LastPeriodCycles(d1, baud);
    var lpc0 := LastPeriodCycles(d0, baud);
    // `SymbolLength` is the sum of `instructionCount` terms on lines 47 and 52
    var send0 := SEND_1_LABEL + SymbolLength(d1, lpc1, cap);
    var loop0 := send0 + 1;
    ProgramLength(d0, d1, baud, twoAntennas);
    if loop0 + SymbolLength(d0, lpc0, cap) - 1 >= INSTRUCTION_MEMORY {
      return false;
    }
    var len := WriteProgram(buf, d0, d1, baud, twoAntennas);
    prog.Load(buf, len);
    ok := true;
  }

  // ---------------------------------------------------------------------------
  // Labels and jump targets
  // ---------------------------------------------------------------------------

  /** Where the parts of a symbol block sit: `mov` first, the `jmp x--` after the period chains, the `jmp` last. */
  lemma SymbolBlockAt(mov: Word, d: int, lpc: int, loopLabel: int, twoAntennas: bool)
    ensures var b := SymbolBlock(mov, d, lpc, loopLabel, twoAntennas);
            var n := RepeatCount(d / 2, MaxDelay(twoAntennas)) + RepeatCount(d / 2 - 1, MaxDelay(twoAntennas));
            |b| == n + 1 + |Correction(d, lpc, twoAntennas)| + 1
            && b[0] == Fixed(mov)
            && b[1 + n] == Fixed(Jump(ASM_JMP_XMM, loopLabel))
            && b[|b| - 1] == Fixed(JMP_GET_SYMBOL)
  {
    var cap := MaxDelay(twoAntennas);
    var n := RepeatCount(d / 2, cap) + RepeatCount(d / 2 - 1, cap);
    var loop := LoopBody(d, loopLabel, twoAntennas);
    var corr := Correction(d, lpc, twoAntennas);
    RunLength(d / 2, d / 2 - 1, Jump(ASM_JMP_XMM, loopLabel), twoAntennas);
    assert loop[n] == Fixed(Jump(ASM_JMP_XMM, loopLabel));
    assert corr[|corr| - 1] == Fixed(JMP_GET_SYMBOL);
    var b := SymbolBlock(mov, d, lpc, loopLabel, twoAntennas);
    assert b == [Fixed(mov)] + loop + corr;
    assert b[1 + n] == loop[n];
  }

  /**
   * The labels computed in closed form are where the code is: `jmp !x` (word 4) goes to
   * `mov x, isr` at `send_0_label`, the two `jmp x--` go to `loop_1_label` = 6 and to
   * `loop_0_label` = `send_0_label` + 1, and both blocks end with `jmp get_symbol_label`.
   */
  lemma ProgramLabels(d0: u16, d1: u16, baud: u32, twoAntennas: bool)
    requires d0 > 0 && d1 > 0 && baud > 0
    requires Fits(d0, d1, baud, twoAntennas)
    ensures var p := ProgramInstrs(d0, d1, baud, twoAntennas);
            var s := Send0Label(d1, baud, twoAntennas);
            var cap := MaxDelay(twoAntennas);
            var n1 := RepeatCount(d1 / 2, cap) + RepeatCount(d1 / 2 - 1, cap);
            var n0 := RepeatCount(d0 / 2, cap) + RepeatCount(d0 / 2 - 1, cap);
            SEND_1_LABEL < LOOP_1_LABEL + n1 < s - 1 && s + 1 + n0 < |p| < INSTRUCTION_MEMORY
            && p[4] == Fixed(ASM_JMP_NOTX + s)
            && p[SEND_1_LABEL] == Fixed(MOV_X_Y) && p[s] == Fixed(MOV_X_ISR)
            && p[LOOP_1_LABEL + n1] == Fixed(ASM_JMP_XMM + LOOP_1_LABEL)
            && p[s + 1 + n0] == Fixed(ASM_JMP_XMM + (s + 1))
            && p[s - 1] == Fixed(JMP_GET_SYMBOL) && p[|p| - 1] == Fixed(JMP_GET_SYMBOL)
  {
    var pro, one, zero := Prologue(d1, baud, twoAntennas), SymbolOne(d1, baud, twoAntennas), SymbolZero(d0, d1, baud, twoAntennas);
    var p := ProgramInstrs(d0, d1, baud, twoAntennas);
    var s := Send0Label(d1, baud, twoAntennas);
    SymbolBlockAt(MOV_X_Y, d1, LastPeriodCycles(d1, baud), LOOP_1_LABEL, twoAntennas);
    SymbolBlockAt(MOV_X_ISR, d0, LastPeriodCycles(d0, baud), s + 1, twoAntennas);
    var n1 := RepeatCount(d1 / 2, MaxDelay(twoAntennas)) + RepeatCount(d1 / 2 - 1, MaxDelay(twoAntennas));
    var n0 := RepeatCount(d0 / 2, MaxDelay(twoAntennas)) + RepeatCount(d0 / 2 - 1, MaxDelay(twoAntennas));
    assert |pro| == 5 && s == 5 + |one|;
    ConcatAt(pro, one, zero, 0);
    ConcatAt(pro, one, zero, 1 + n1);
    ConcatAt(pro, one, zero, |one| - 1);
    ConcatAt(pro, one, zero, |one|);
    ConcatAt(pro, one, zero, |one| + 1 + n0);
    ConcatAt(pro, one, zero, |one| + |zero| - 1);
  }

  lemma ConcatAt(a: seq<Instr>, b: seq<Instr>, c: seq<Instr>, k: nat)
    requires k < |b| + |c|
    ensures k < |b| ==> (a + b + c)[|a| + k] == b[k]
    ensures k >= |b| ==> (a + b + c)[|a| + k] == c[k - |b|]
  {
  }

  // ---------------------------------------------------------------------------
  // Symbol timing
  // ---------------------------------------------------------------------------

  /** A run spends `high` cycles high, `low` cycles low (none for a non-positive count) and one on its last word. */
  lemma RunCycles(high: int, low: int, last: Word, twoAntennas: bool)
    ensures var cap := MaxDelay(twoAntennas);
            Cycles(ChainInstrs(high, HighInstr(twoAntennas), cap)) == Max(0, high)
            && Cycles(ChainInstrs(low, LowInstr(twoAntennas), cap)) == Max(0, low)
            && Cycles(Run(high, low, last, twoAntennas)) == Max(0, high) + Max(0, low) + 1
  {
    var cap := MaxDelay(twoAntennas);
    var hi, lo := ChainInstrs(high, HighInstr(twoAntennas), cap), ChainInstrs(low, LowInstr(twoAntennas), cap);
    ChainCycles(high, HighInstr(twoAntennas), cap);
    ChainCycles(low, LowInstr(twoAntennas), cap);
    CyclesAppend(hi, lo);
    CyclesAppend(hi + lo, [Fixed(last)]);
  }

  /**
   * One turn of the loop is d/2 cycles high, then d/2 - 1 cycles low plus the 1-cycle
   * `jmp x--`: d cycles for an even divider, d - 1 for an odd one.
   */
  lemma LoopPeriod(d: int, loopLabel: int, twoAntennas: bool)
    requires d >= 2
    ensures Cycles(ChainInstrs(d / 2, HighInstr(twoAntennas), MaxDelay(twoAntennas))) == d / 2
    ensures Cycles(ChainInstrs(d / 2 - 1, LowInstr(twoAntennas), MaxDelay(twoAntennas))) + 1 == d / 2
    ensures Cycles(LoopBody(d, loopLabel, twoAntennas)) == 2 * (d / 2)
    ensures d % 2 == 0 ==> Cycles(LoopBody(d, loopLabel, twoAntennas)) == d
  {
    RunCycles(d / 2, d / 2 - 1, Jump(ASM_JMP_XMM, loopLabel), twoAntennas);
  }

  /**
   * The correction is high for min(last, d/2) cycles and low for the rest of `last`
   * (nothing when last <= d/2), then the 1-cycle jump: `last` + 1 cycles in all.
   */
  lemma CorrectionCycles(d: int, lpc: int, twoAntennas: bool)
    requires d >= 0 && lpc >= 0
    ensures HighCorrection(d, lpc) == Min(lpc, d / 2)
    ensures LowCorrection(d, lpc) == (if lpc > d / 2 then lpc - d / 2 else 0)
    ensures Cycles(Correction(d, lpc, twoAntennas)) == lpc + 1
  {
    RunCycles(HighCorrection(d, lpc), LowCorrection(d, lpc), JMP_GET_SYMBOL, twoAntennas);
  }

  /** `reps`: how often `jmp x--` loops back, `(125e6 / baud - 4) / d - 1` in `uint32_t`. */
  function Reps(d: u16, baud: u32): (r: u32)
    requires d > 0 && baud > 0
    ensures CLK_HZ / baud >= d + 4 ==> r + 1 == (CLK_HZ / baud - 4) / d
  {
    ToU32(ToU32(CLK_HZ / baud - 4) / d - 1)
  }

  /** Cycles each symbol spends in `out x, 1`, `jmp !x` and its `mov`, before the loop. */
  const SYMBOL_OVERHEAD: int := 3

  /**
   * A symbol lasts exactly 125e6 / baud cycles: the overhead, `reps` + 1 turns of the loop
   * and the correction, whose last word jumps back to read the next bit.
   */
  lemma SymbolDuration(d: u16, baud: u32, loopLabel: int, twoAntennas: bool)
    requires 2 <= d <= 0x8000 && d % 2 == 0 && baud > 0
    requires CLK_HZ / baud >= d + 4
    ensures SYMBOL_OVERHEAD + (Reps(d, baud) + 1) * Cycles(LoopBody(d, loopLabel, twoAntennas))
            + Cycles(Correction(d, LastPeriodCycles(d, baud), twoAntennas)) == CLK_HZ / baud
  {
    var x := CLK_HZ / baud - 4;
    var q, lpc := x / d, LastPeriodCycles(d, baud);
    LoopPeriod(d, loopLabel, twoAntennas);
    CorrectionCycles(d, lpc, twoAntennas);
    assert Reps(d, baud) + 1 == q && lpc == x % d;
    calc {
      SYMBOL_OVERHEAD + (Reps(d, baud) + 1) * Cycles(LoopBody(d, loopLabel, twoAntennas))
        + Cycles(Correction(d, lpc, twoAntennas));
      3 + q * d + lpc + 1;
      { DivMod(x, d); }
      x + 4;
    }
  }

  // ---------------------------------------------------------------------------
  // The capacity check as written: `uint8_t` counts and labels
  // ---------------------------------------------------------------------------

  /** `instructionCount` as called on line 47 and 52: the argument becomes a `uint16_t`, the count a `uint8_t`. */
  function CountAsWritten(delay: int, cap: int): byte
    requires ValidCap(cap)
  {
    ToU8(InstructionCount(ToU16(delay), cap))
  }

  function SymbolLengthAsWritten(d: int, lpc: int, cap: int): int
    requires ValidCap(cap)
  {
    1 + CountAsWritten(d / 2, cap) + CountAsWritten(d / 2 - 1, cap) + 1
      + CountAsWritten(HighCorrection(d, lpc), cap) + CountAsWritten(LowCorrection(d, lpc), cap) + 1
  }

  /** `send_0_label` as written: a `uint8_t`. */
  function Send0LabelAsWritten(d1: u16, baud: u32, twoAntennas: bool): byte
    requires d1 > 0 && baud > 0
  {
    ToU8(SEND_1_LABEL + SymbolLengthAsWritten(d1, LastPeriodCycles(d1, baud), MaxDelay(twoAntennas)))
  }

  /** The left-hand side of the check on line 52: `loop_0_label` (a `uint8_t`) plus the counts for symbol 0. */
  function CheckedTotalAsWritten(d0: u16, d1: u16, baud: u32, twoAntennas: bool): int
    requires d0 > 0 && d1 > 0 && baud > 0
  {
    ToU8(Send0LabelAsWritten(d1, baud, twoAntennas) + 1)
      + SymbolLengthAsWritten(d0, LastPeriodCycles(d0, baud), MaxDelay(twoAntennas)) - 1
  }

  predicate PassesCheckAsWritten(d0: u16, d1: u16, baud: u32, twoAntennas: bool)
    requires d0 > 0 && d1 > 0 && baud > 0
  {
    CheckedTotalAsWritten(d0, d1, baud, twoAntennas) < INSTRUCTION_MEMORY
  }

  /** A count that fits a `uint8_t` survives the conversions; for the delay -1 (d/2 - 1 with d < 2) both are 0. */
  lemma CountAgrees(delay: int, cap: int)
    requires ValidCap(cap) && -1 <= delay < 0x1_0000 && RepeatCount(delay, cap) < 0x100
    ensures CountAsWritten(delay, cap) == RepeatCount(delay, cap)
  {
    if delay == -1 {
      assert ToU16(delay) == 0xFFFF;
      assert InstructionCount(0xFFFF, cap) == (if cap == 8 then 0x2000 else 0x800);
    }
  }

  /** The counts of a block that is short enough agree with the real lengths. */
  lemma SymbolLengthAgrees(d: u16, baud: u32, cap: int)
    requires ValidCap(cap) && d > 0 && baud > 0
    requires SymbolLength(d, LastPeriodCycles(d, baud), cap) < INSTRUCTION_MEMORY
    ensures SymbolLengthAsWritten(d, LastPeriodCycles(d, baud), cap) == SymbolLength(d, LastPeriodCycles(d, baud), cap)
  {
    var lpc := LastPeriodCycles(d, baud);
    var high, low := HighCorrection(d, lpc), LowCorrection(d, lpc);
    assert 0 <= lpc < d by {
      var n := RepeatCount(d / 2, cap);
      assert n <= 31 && n * cap >= d / 2;
      MulMono(n, 31, cap);
    }
    assert 0 <= high <= lpc && 0 <= low <= lpc;
    assert CountAsWritten(d / 2, cap) == RepeatCount(d / 2, cap) by { CountAgrees(d / 2, cap); }
    assert CountAsWritten(d / 2 - 1, cap) == RepeatCount(d / 2 - 1, cap) by { CountAgrees(d / 2 - 1, cap); }
    assert CountAsWritten(high, cap) == RepeatCount(high, cap) by { CountAgrees(high, cap); }
    assert CountAsWritten(low, cap) == RepeatCount(low, cap) by { CountAgrees(low, cap); }
  }

  /**
   * For every program that fits, the `uint8_t` arithmetic is exact: the check sees the
   * real length and `send_0_label` is where symbol 0 starts.
   */
  lemma CheckAgreesWhenFits(d0: u16, d1: u16, baud: u32, twoAntennas: bool)
    requires d0 > 0 && d1 > 0 && baud > 0
    requires Fits(d0, d1, baud, twoAntennas)
    ensures Send0LabelAsWritten(d1, baud, twoAntennas) == Send0Label(d1, baud, twoAntennas)
    ensures CheckedTotalAsWritten(d0, d1, baud, twoAntennas) == |ProgramInstrs(d0, d1, baud, twoAntennas)|
    ensures PassesCheckAsWritten(d0, d1, baud, twoAntennas)
  {
    ProgramLength(d0, d1, baud, twoAntennas);
    SymbolLengthAgrees(d1, baud, MaxDelay(twoAntennas));
    SymbolLengthAgrees(d0, baud, MaxDelay(twoAntennas));
  }

  /**
   * The converse fails: with d0 = d1 = 4096 at 30488 Baud (an achievable rate) and two
   * antennas every count is 256 and wraps to 0, so the check sees 11 words and passes,
   * while the program has 2059 words and the writes run past the 32-word buffer.
   */
  lemma CheckOverflowExample(d: u16, baud: u32)
    requires d == 4096 && baud == 30488
    ensures PassesCheckAsWritten(d, d, baud, true)
    ensures CheckedTotalAsWritten(d, d, baud, true) == 11
    ensures |ProgramInstrs(d, d, baud, true)| == 2059
    ensures !Fits(d, d, baud, true)
  {
    var lpc := LastPeriodCycles(d, baud);
    assert lpc == 4095;
    assert d / 2 == 2048 && d / 2 - 1 == 2047;
    assert HighCorrection(d, lpc) == 2048 && LowCorrection(d, lpc) == 2047;
    assert RepeatCount(2048, 8) == 256 && RepeatCount(2047, 8) == 256;
    assert CountAsWritten(2048, 8) == 0 && CountAsWritten(2047, 8) == 0;
    assert SymbolLength(d, lpc, 8) == 1027;
    assert SymbolLengthAsWritten(d, lpc, 8) == 3;
    assert Send0LabelAsWritten(d, baud, true) == 8;
    ProgramLength(d, d, baud, true);
  }

  // ---------------------------------------------------------------------------
  // Baud-rate correction and the receiver settings (lines 111-115, 146-157)
  // ---------------------------------------------------------------------------

  /**
   * The baud rate the program runs at: kept when it divides 125 MHz, otherwise
   * round(125e6 / round(125e6 / baud)), rounding halfway cases away from zero as C's `round` does.
   */
  function CorrectedBaud(baud: u32): (r: u32)
    requires 0 < baud <= 2 * CLK_HZ
    ensures 0 < r <= 2 * CLK_HZ
    ensures CLK_HZ % baud == 0 ==> r == baud
  {
    if CLK_HZ % baud != 0 then
      RoundedQuotientBounds(CLK_HZ, baud);
      RoundedQuotientBounds(CLK_HZ, RoundHalfAway(CLK_HZ, baud));
      RoundHalfAway(CLK_HZ, RoundHalfAway(CLK_HZ, baud))
    else
      baud
  }

  /** Rounding a / b for 0 < b <= 2a gives a quotient in [1, a]. */
  lemma RoundedQuotientBounds(a: nat, b: nat)
    requires 0 < b <= 2 * a
    ensures 1 <= RoundHalfAway(a, b) <= a
  {
    var r := RoundHalfAway(a, b);
    MulMono(1, b, a);
    MulLess(r, a + 1, 2 * b);
  }

  /** The rounded quotient is the only r with 2a - b < 2rb <= 2a + b. */
  lemma RoundUnique(a: nat, b: nat, r: int)
    requires b > 0 && 2 * a - b < 2 * r * b <= 2 * a + b
    ensures r == RoundHalfAway(a, b)
  {
    var r0 := RoundHalfAway(a, b);
    MulLess(r, r0 + 1, 2 * b);
    MulLess(r0, r + 1, 2 * b);
  }

  /**
   * Above 12000 Baud the corrected rate keeps the rounded number of clock cycles per
   * symbol, so correcting it again changes nothing.
   */
  lemma CorrectedBaudKeepsCycles(baud: u32)
    requires 12000 <= baud <= 2 * CLK_HZ
    ensures RoundHalfAway(CLK_HZ, CorrectedBaud(baud)) == RoundHalfAway(CLK_HZ, baud)
    ensures CorrectedBaud(CorrectedBaud(baud)) == CorrectedBaud(baud)
  {
    if CLK_HZ % baud != 0 {
      var n := RoundHalfAway(CLK_HZ, baud);
      var b2 := RoundHalfAway(CLK_HZ, n);
      assert 1 <= n <= 10417 by {
        RoundedQuotientBounds(CLK_HZ, baud);
        MulLess(n, 10418, 2 * baud);
      }
      assert 2 * CLK_HZ - n < 2 * b2 * n <= 2 * CLK_HZ + n;
      assert n < b2 by {
        assert n * n <= 10417 * 10417 by {
          MulMono(n, 10417, n);
          MulMono(n, 10417, 10417);
        }
        assert (n - 1) * (2 * n) < b2 * (2 * n);
        MulLess(n - 1, b2, 2 * n);
      }
      assert 2 * n * b2 == 2 * b2 * n;
      assert 2 * CLK_HZ - b2 < 2 * n * b2 <= 2 * CLK_HZ + b2;
      RoundUnique(CLK_HZ, b2, n);
      assert CorrectedBaud(baud) == b2;
    }
  }

  /** `fcenter`: the mean of the two tone frequencies 125 MHz / d0 and 125 MHz / d1, in integer division. */
  function Center(d0: u16, d1: u16): (r: u32)
    requires d0 > 0 && d1 > 0
    ensures r <= CLK_HZ
  {
    DivAtMost(CLK_HZ, d0);
    DivAtMost(CLK_HZ, d1);
    (CLK_HZ / d0 + CLK_HZ / d1) / 2
  }

  lemma DivAtMost(a: nat, b: nat)
    requires b > 0
    ensures a / b <= a
  {
    DivMod(a, b);
    MulMono(1, b, a);
    MulLess(a / b, a + 1, b);
  }

  /** `fdeviation`: |round(125e6 / d1 - fcenter)|, computed here exactly on rationals. */
  function Deviation(d0: u16, d1: u16): (r: u32)
    requires d0 > 0 && d1 > 0
    ensures r <= CLK_HZ
  {
    DeviationAtMost(d0, d1);
    RoundHalfAway(Abs(CLK_HZ - Center(d0, d1) * d1), d1)
  }

  lemma DeviationAtMost(d0: u16, d1: u16)
    requires d0 > 0 && d1 > 0
    ensures RoundHalfAway(Abs(CLK_HZ - Center(d0, d1) * d1), d1) <= CLK_HZ
  {
    var c := Center(d0, d1);
    var cd := c * d1;
    var x := Abs(CLK_HZ - cd);
    var m := CLK_HZ * d1;
    assert cd <= m by { MulMono(c, CLK_HZ, d1); }
    assert CLK_HZ <= m by { MulMono(1, d1, CLK_HZ); }
    assert x <= m;
    var r := RoundHalfAway(x, d1);
    assert 2 * r * d1 <= 2 * x + d1;
    assert r * (2 * d1) < (CLK_HZ + 1) * (2 * d1);
    MulLess(r, CLK_HZ + 1, 2 * d1);
  }

  /** The settings `backscatter_program_init` reports in `struct backscatter_config`. */
  datatype BackscatterConfig = BackscatterConfig(baudrate: u32, centerOffset: u32, deviation: u32, minRxBw: u32)

  function Configure(d0: u16, d1: u16, baud: u32): BackscatterConfig
    requires d0 > 0 && d1 > 0 && 0 < baud <= 2 * CLK_HZ
  {
    var b := CorrectedBaud(baud);
    BackscatterConfig(b, Center(d0, d1), Deviation(d0, d1), ToU32(b + 2 * Deviation(d0, d1)))
  }

  /** Rounding (q d + rem) / d, with 0 <= rem < d, gives q or q + 1. */
  lemma RoundNear(q: int, rem: int, d: int, r: int)
    requires d > 0 && 0 <= rem < d
    requires 2 * (q * d + rem) - d < 2 * r * d <= 2 * (q * d + rem) + d
    ensures q <= r <= q + 1
  {
    MulLess(q - 1, r, 2 * d);
    MulLess(r, q + 2, 2 * d);
  }

  /**
   * With symbol 1 on the higher tone (d1 <= d0), the deviation is half the distance
   * between the tones 125e6 / d0 and 125e6 / d1, up to the integer rounding.
   */
  lemma DeviationIsHalfSpacing(d0: u16, d1: u16)
    requires 0 < d1 <= d0
    ensures CLK_HZ / d1 - CLK_HZ / d0 <= 2 * Deviation(d0, d1) <= CLK_HZ / d1 - CLK_HZ / d0 + 3
  {
    var f0, f1 := CLK_HZ / d0, CLK_HZ / d1;
    DivMod(CLK_HZ, d0);
    DivMod(CLK_HZ, d1);
    MulMono(d1, d0, f0);
    MulLess(f0, f1 + 1, d1);
    var c := Center(d0, d1);
    var rem := CLK_HZ % d1;
    DivMod(CLK_HZ, d1);
    assert CLK_HZ - c * d1 == (f1 - c) * d1 + rem;
    MulMono(0, f1 - c, d1);
    RoundNear(f1 - c, rem, d1, Deviation(d0, d1));
  }

  /** The minimum receiver bandwidth covers both tones (Carson's rule: baud + 2 * deviation), without wrap-around. */
  lemma BandwidthCoversTones(d0: u16, d1: u16, baud: u32)
    requires 0 < d1 <= d0 && 0 < baud <= 2 * CLK_HZ
    ensures Configure(d0, d1, baud).minRxBw == Configure(d0, d1, baud).baudrate + 2 * Configure(d0, d1, baud).deviation
    ensures Configure(d0, d1, baud).minRxBw >= Configure(d0, d1, baud).baudrate + CLK_HZ / d1 - CLK_HZ / d0
  {
    DeviationIsHalfSpacing(d0, d1);
  }

  /**
   * `backscatter_program_init` without the hardware calls: corrects the baud rate, generates
   * the program (ignoring a refusal, as the C does), and computes the repeat counts sent to
   * the state machine and the receiver settings.
   */
  method ProgramInit(d0: u16, d1: u16, baud: u32, buf: array<Word>, twoAntennas: bool)
    returns (config: BackscatterConfig, reps0: u32, reps1: u32, prog: PioProgram)
    requires d0 > 0 && d1 > 0 && 0 < baud <= 2 * CLK_HZ
    requires buf.Length >= INSTRUCTION_MEMORY
    modifies buf
    ensures config == Configure(d0, d1, baud)
    ensures reps0 == Reps(d0, config.baudrate) && reps1 == Reps(d1, config.baudrate)
    ensures fresh(prog)
    ensures Fits(d0, d1, config.baudrate, twoAntennas) ==>
              prog.length == |ProgramWords(d0, d1, config.baudrate, twoAntennas)|
              && buf[..prog.length] == ProgramWords(d0, d1, config.baudrate, twoAntennas)
    ensures !Fits(d0, d1, config.baudrate, twoAntennas) ==> buf[..] == old(buf[..])
  {
    var b := CorrectedBaud(baud);
    prog := new PioProgram(buf);
    var generated := GeneratePioProgram(d0, d1, b, buf, prog, twoAntennas);
    reps0 := Reps(d0, b);
    reps1 := Reps(d1, b);
    var fcenter := Center(d0, d1);
    var fdeviation := Deviation(d0, d1);
    config := BackscatterConfig(b, fcenter, fdeviation, ToU32(b + 2 * fdeviation));
  }

  // ---------------------------------------------------------------------------
  // The default configuration: d0 = 20, d1 = 18, 100000 Baud, two antennas
  // ---------------------------------------------------------------------------

  lemma DefaultLengths(d0: u16, d1: u16, baud: u32)
    requires d0 == 20 && d1 == 18 && baud == 100000
    ensures LastPeriodCycles(d1, baud) == 4 && LastPeriodCycles(d0, baud) == 6
    ensures Send0Label(d1, baud, true) == 12
    ensures |ProgramInstrs(d0, d1, baud, true)| == 20 && Fits(d0, d1, baud, true)
  {
    assert CLK_HZ / baud == 1250;
    assert LastPeriodCycles(d1, baud) == 4;
    assert LastPeriodCycles(d0, baud) == 6;
    assert RepeatCount(9, 8) == 2 && RepeatCount(8, 8) == 1 && RepeatCount(4, 8) == 1 && RepeatCount(0, 8) == 0;
    assert SymbolLength(d1, 4, 8) == 7;
    assert RepeatCount(10, 8) == 2 && RepeatCount(6, 8) == 1;
    assert SymbolLength(d0, 6, 8) == 8;
    ProgramLength(d0, d1, baud, true);
  }

  lemma DefaultConfiguration(d0: u16, d1: u16, baud: u32)
    requires d0 == 20 && d1 == 18 && baud == 100000
    ensures Reps(d0, baud) == 61 && Reps(d1, baud) == 68
    ensures Configure(d0, d1, baud) == BackscatterConfig(100000, 6597222, 347222, 794444)
  {
    assert CLK_HZ % baud == 0;
    assert CorrectedBaud(baud) == 100000;
    assert Center(d0, d1) == 6597222;
    assert CLK_HZ - 6597222 * 18 == 6250004;
    assert Deviation(d0, d1) == 347222;
  }

  /** The chains of the default program, with two antennas (at most 8 cycles per word). */
  lemma DefaultChains(high: Word, low: Word)
    requires high == HighInstr(true) && low == LowInstr(true)
    ensures high == 0xF801 && low == 0xF000
    ensures ChainInstrs(9, high, 8) == [Delayed(high, 7), Delayed(high, 0)]
    ensures ChainInstrs(8, low, 8) == [Delayed(low, 7)]
    ensures ChainInstrs(10, high, 8) == [Delayed(high, 7), Delayed(high, 1)]
    ensures ChainInstrs(9, low, 8) == [Delayed(low, 7), Delayed(low, 0)]
    ensures ChainInstrs(4, high, 8) == [Delayed(high, 3)]
    ensures ChainInstrs(6, high, 8) == [Delayed(high, 5)]
    ensures ChainInstrs(0, low, 8) == []
  {
    assert ChainInstrs(1, high, 8) == [Delayed(high, 0)];
    assert ChainInstrs(2, high, 8) == [Delayed(high, 1)];
    assert ChainInstrs(1, low, 8) == [Delayed(low, 0)];
  }

  lemma DefaultBlocksOne(d: int, lpc: int, high: Word, low: Word)
    requires d == 18 && lpc == 4 && high == HighInstr(true) && low == LowInstr(true)
    ensures LoopBody(d, LOOP_1_LABEL, true) == [Delayed(high, 7), Delayed(high, 0), Delayed(low, 7), Fixed(0x46)]
    ensures Correction(d, lpc, true) == [Delayed(high, 3), Fixed(JMP_GET_SYMBOL)]
    ensures SymbolBlock(MOV_X_Y, d, lpc, LOOP_1_LABEL, true)
            == [Fixed(0xA022), Delayed(0xF801, 7), Delayed(0xF801, 0), Delayed(0xF000, 7), Fixed(0x46),
                Delayed(0xF801, 3), Fixed(3)]
  {
    DefaultChains(high, low);
    assert Jump(ASM_JMP_XMM, LOOP_1_LABEL) == 0x46;
  }

  lemma DefaultBlocksZero(d: int, lpc: int, loopLabel: int, high: Word, low: Word)
    requires d == 20 && lpc == 6 && loopLabel == 13 && high == HighInstr(true) && low == LowInstr(true)
    ensures LoopBody(d, loopLabel, true) == [Delayed(high, 7), Delayed(high, 1), Delayed(low, 7), Delayed(low, 0), Fixed(0x4D)]
    ensures Correction(d, lpc, true) == [Delayed(high, 5), Fixed(JMP_GET_SYMBOL)]
    ensures SymbolBlock(MOV_X_ISR, d, lpc, loopLabel, true)
            == [Fixed(0xA026), Delayed(0xF801, 7), Delayed(0xF801, 1), Delayed(0xF000, 7), Delayed(0xF000, 0),
                Fixed(0x4D), Delayed(0xF801, 5), Fixed(3)]
  {
    DefaultChains(high, low);
    assert Jump(ASM_JMP_XMM, loopLabel) == 0x4D;
  }

  /** The instructions of the default program's two symbol blocks, assembled. */
  lemma DefaultBlockWords()
    ensures AssembleAll([Fixed(0xA022), Delayed(0xF801, 7), Delayed(0xF801, 0), Delayed(0xF000, 7), Fixed(0x46),
                         Delayed(0xF801, 3), Fixed(3)])
            == [0xA022, 0xFF01, 0xF801, 0xF700, 0x0046, 0xFB01, 0x0003]
    ensures AssembleAll([Fixed(0xA026), Delayed(0xF801, 7), Delayed(0xF801, 1), Delayed(0xF000, 7), Delayed(0xF000, 0),
                         Fixed(0x4D), Delayed(0xF801, 5), Fixed(3)])
            == [0xA026, 0xFF01, 0xF901, 0xF700, 0xF000, 0x004D, 0xFD01, 0x0003]
  {
    AssembleAllIs([Fixed(0xA022), Delayed(0xF801, 7), Delayed(0xF801, 0), Delayed(0xF000, 7), Fixed(0x46),
                   Delayed(0xF801, 3), Fixed(3)],
                  [0xA022, 0xFF01, 0xF801, 0xF700, 0x0046, 0xFB01, 0x0003]);
    AssembleAllIs([Fixed(0xA026), Delayed(0xF801, 7), Delayed(0xF801, 1), Delayed(0xF000, 7), Delayed(0xF000, 0),
                   Fixed(0x4D), Delayed(0xF801, 5), Fixed(3)],
                  [0xA026, 0xFF01, 0xF901, 0xF700, 0xF000, 0x004D, 0xFD01, 0x0003]);
  }

  lemma DefaultSymbolOne(d1: u16, baud: u32)
    requires d1 == 18 && baud == 100000
    ensures AssembleAll(SymbolOne(d1, baud, true)) == [0xA022, 0xFF01, 0xF801, 0xF700, 0x0046, 0xFB01, 0x0003]
  {
    assert SymbolOne(d1, baud, true) == SymbolBlock(MOV_X_Y, d1, 4, LOOP_1_LABEL, true) by {
      DefaultLengths(20, d1, baud);
    }
    DefaultBlocksOne(d1, 4, HighInstr(true), LowInstr(true));
    DefaultBlockWords();
  }

  lemma DefaultSymbolZero(d0: u16, d1: u16, baud: u32)
    requires d0 == 20 && d1 == 18 && baud == 100000
    ensures AssembleAll(SymbolZero(d0, d1, baud, true)) == [0xA026, 0xFF01, 0xF901, 0xF700, 0xF000, 0x004D, 0xFD01, 0x0003]
  {
    assert SymbolZero(d0, d1, baud, true) == SymbolBlock(MOV_X_ISR, d0, 6, 13, true) by {
      DefaultLengths(d0, d1, baud);
    }
    DefaultBlocksZero(d0, 6, 13, HighInstr(true), LowInstr(true));
    DefaultBlockWords();
  }

  lemma DefaultPrologue(d1: u16, baud: u32)
    requires d1 == 18 && baud == 100000
    ensures AssembleAll(Prologue(d1, baud, true)) == [0xF801, 0x60C0, 0x6040, 0x6021, 0x002C]
  {
    assert Send0Label(d1, baud, true) == 12 by { DefaultLengths(20, d1, baud); }
    assert Jump(ASM_JMP_NOTX, 12) == 0x2C;
    var p := Prologue(d1, baud, true);
    assert p == [Fixed(0xF801), Fixed(OUT_ISR), Fixed(OUT_Y), Fixed(OUT_X_1), Fixed(0x2C)];
    AssembleAllIs(p, [0xF801, 0x60C0, 0x6040, 0x6021, 0x002C]);
  }

  /** The 20 words of the default program: the prologue, the block of a 1, the block of a 0. */
  lemma DefaultProgramWords(d0: u16, d1: u16, baud: u32)
    requires d0 == 20 && d1 == 18 && baud == 100000
    ensures ProgramWords(d0, d1, baud, true)
            == [0xF801, 0x60C0, 0x6040, 0x6021, 0x002C]
               + [0xA022, 0xFF01, 0xF801, 0xF700, 0x0046, 0xFB01, 0x0003]
               + [0xA026, 0xFF01, 0xF901, 0xF700, 0xF000, 0x004D, 0xFD01, 0x0003]
  {
    DefaultPrologue(d1, baud);
    DefaultSymbolOne(d1, baud);
    DefaultSymbolZero(d0, d1, baud);
    AssembleAllAppend(Prologue(d1, baud, true), SymbolOne(d1, baud, true));
    AssembleAllAppend(Prologue(d1, baud, true) + SymbolOne(d1, baud, true), SymbolZero(d0, d1, baud, true));
  }
}
