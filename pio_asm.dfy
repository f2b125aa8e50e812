/**
 * PIO instruction words as `generatePIOprogram` builds them (project_pico_libs/backscatter.c
 * and backscatter.h): opcode constants, the delay field in bits 8 and up, `jmp` targets,
 * `instructionCount` and the delay chains `repeat` writes.
 *
 * Words are the integers 0..0xFFFF and the C operators `|`, `&` and `<<` are `BitOr`,
 * `BitAnd` and `Shl`. Every word the generator writes is shown equal to an arithmetic
 * form (a base plus the delay times 256, an opcode plus a target), which is what the
 * rest of the model reasons about.
 */
module PioAsm {
  import opened Common
  import opened Bits

  /** A `uint16_t` instruction word. */
  type Word = u16

  const ASM_SET_PINS: Word := 0xE000
  const ASM_OUT: Word := 0x6000
  const ASM_JMP: Word := 0x0000
  const ASM_JMP_NOTX: Word := 0x0020
  const ASM_JMP_XMM: Word := 0x0040
  const ASM_MOV: Word := 0xA000
  const ASM_X_REG: Word := 0x0001
  const ASM_Y_REG: Word := 0x0002
  const ASM_ISR_REG: Word := 0x0006

  /** The longest delay one instruction can hold: 8 cycles when side-set takes bits 12..11, else 32. */
  function MaxDelay(twoAntennas: bool): (r: int)
    ensures ValidCap(r)
  {
    if twoAntennas then 8 else 32
  }

  predicate ValidCap(cap: int)
  {
    cap == 8 || cap == 32
  }

  /** `OPT_SIDE_1` and `OPT_SIDE_0`: side-set enable plus the side value, only with two antennas. */
  function SideHigh(twoAntennas: bool): Word
  {
    if twoAntennas then 0x1800 else 0x0000
  }

  function SideLow(twoAntennas: bool): Word
  {
    if twoAntennas then 0x1000 else 0x0000
  }

  /** `set pins, 1 side 1` and `set pins, 0 side 0`, without delay. */
  function HighInstr(twoAntennas: bool): (r: Word)
    ensures r % 256 == 1 && r / 256 == 0xE0 + SideHigh(twoAntennas) / 256
  {
    ASM_SET_PINS + SideHigh(twoAntennas) + 1
  }

  function LowInstr(twoAntennas: bool): (r: Word)
    ensures r % 256 == 0 && r / 256 == 0xE0 + SideLow(twoAntennas) / 256
  {
    ASM_SET_PINS + SideLow(twoAntennas)
  }

  lemma HighWordTwoAntennas()
    ensures BitOr(BitOr(0xE000, 0x1800), 1) == 0xF801
  {
    OrAddAt(0xE000, 0x1800, 0x2000);
    OrAddAt(0xF800, 1, 2);
  }

  lemma HighWordOneAntenna()
    ensures BitOr(BitOr(0xE000, 0), 1) == 0xE001
  {
    OrAddAt(0xE000, 0, 2);
    OrAddAt(0xE000, 1, 2);
  }

  lemma LowWordValues()
    ensures BitOr(BitOr(0xE000, 0x1000), 0) == 0xF000
    ensures BitOr(BitOr(0xE000, 0), 0) == 0xE000
  {
    OrAddAt(0xE000, 0x1000, 0x2000);
    OrAddAt(0xF000, 0, 2);
    OrAddAt(0xE000, 0, 2);
  }

  /** The C expressions `ASM_SET_PINS | OPT_SIDE_1 | 1` and `ASM_SET_PINS | OPT_SIDE_0 | 0`. */
  lemma SetWordsAreCExpressions(twoAntennas: bool)
    ensures HighInstr(twoAntennas) == BitOr(BitOr(ASM_SET_PINS, SideHigh(twoAntennas)), 1)
    ensures LowInstr(twoAntennas) == BitOr(BitOr(ASM_SET_PINS, SideLow(twoAntennas)), 0)
  {
    HighWordTwoAntennas();
    HighWordOneAntenna();
    LowWordValues();
  }

  /** The delay operand of a word: bits 8 and up, as wide as `max_delay - 1`. */
  function OperandOf(w: nat, cap: int): (r: int)
    requires ValidCap(cap)
    ensures 0 <= r < cap
  {
    (w / 256) % cap
  }

  /** A base word whose delay field is clear, so that a delay can be put into it. */
  predicate FieldClear(base: Word, cap: int)
    requires ValidCap(cap)
  {
    OperandOf(base, cap) == 0
  }

  /** A `jmp` target: `0x1F & label`, the label being a `uint8_t`. */
  function Target(position: int): (r: Word)
    ensures r < 32
    ensures 0 <= position < 32 ==> r == position
  {
    ToU8(position) % 32
  }

  /** A `jmp` word: the opcode and condition in bits 5 and up, the target below. */
  function Jump(op: Word, position: int): Word
    requires op % 32 == 0 && op <= 0xFFE0
  {
    op + Target(position)
  }

  /** The words of the fixed part of the program and of the two `mov` instructions. */
  const OUT_ISR: Word := 0x60C0
  const OUT_Y: Word := 0x6040
  const OUT_X_1: Word := 0x6021
  const MOV_X_Y: Word := 0xA022
  const MOV_X_ISR: Word := 0xA026

  lemma OutWordValues()
    ensures BitOr(0x6000, 0xC0) == 0x60C0 && BitOr(0x6000, 0x40) == 0x6040
    ensures BitOr(BitOr(0x6000, 0x20), 1) == 0x6021
  {
    OrAddAt(0x6000, 0xC0, 256);
    OrAddAt(0x6000, 0x40, 256);
    OrAddAt(0x6000, 0x20, 256);
    OrAddAt(0x6020, 1, 2);
  }

  lemma MovWordValues()
    ensures BitOr(BitOr(0xA000, 0x20), 2) == 0xA022
    ensures BitOr(BitOr(0xA000, 0x20), 6) == 0xA026
  {
    OrAddAt(0xA000, 0x20, 256);
    OrAddAt(0xA020, 2, 4);
    OrAddAt(0xA020, 6, 8);
  }

  /** `ASM_OUT | (ASM_ISR_REG << 5)` and the other register-operand words, as the C writes them. */
  lemma RegisterWordsAreCExpressions()
    ensures OUT_ISR == BitOr(ASM_OUT, Shl(ASM_ISR_REG, 5))
    ensures OUT_Y == BitOr(ASM_OUT, Shl(ASM_Y_REG, 5))
    ensures OUT_X_1 == BitOr(BitOr(ASM_OUT, Shl(ASM_X_REG, 5)), 1)
    ensures MOV_X_Y == BitOr(BitOr(ASM_MOV, Shl(ASM_X_REG, 5)), ASM_Y_REG)
    ensures MOV_X_ISR == BitOr(BitOr(ASM_MOV, Shl(ASM_X_REG, 5)), ASM_ISR_REG)
  {
    Pow2Small(5);
    OutWordValues();
    MovWordValues();
  }

  /** An instruction as the generator thinks of it: a word written as is, or a base word with a delay. */
  datatype Instr = Fixed(word: Word) | Delayed(base: Word, delay: DelayCycles)

  /** A delay that fits the widest (5-bit) delay field. */
  type DelayCycles = x: int | 0 <= x < 32

  /** The word of an instruction; a delayed one carries its delay in bits 8 and up. */
  function Assemble(i: Instr): nat
  {
    match i
    case Fixed(w) => w
    case Delayed(base, delay) => base + delay * 256
  }

  predicate Assembles(instrs: seq<Instr>)
  {
    forall k :: 0 <= k < |instrs| ==> 0 <= Assemble(instrs[k]) < 0x1_0000
  }

  function AssembleAll(instrs: seq<Instr>): (r: seq<nat>)
    ensures |r| == |instrs|
  {
    if instrs == [] then [] else [Assemble(instrs[0])] + AssembleAll(instrs[1..])
  }

  /** The delay an instruction adds to its one execution cycle. */
  function DelayOf(i: Instr): int
  {
    match i
    case Fixed(_) => 0
    case Delayed(_, delay) => delay
  }

  /** Clock cycles a straight run of instructions takes. */
  function Cycles(instrs: seq<Instr>): int
  {
    if instrs == [] then 0 else DelayOf(instrs[0]) + 1 + Cycles(instrs[1..])
  }

  // ---------------------------------------------------------------------------
  // The delay field
  // ---------------------------------------------------------------------------

  /** `Pow2` of the delay-field width. */
  function FieldBits(cap: int): (k: nat)
    requires ValidCap(cap)
    ensures Pow2(k) == cap
  {
    Pow2Small(3);
    Pow2Small(5);
    if cap == 8 then 3 else 5
  }

  /** `(max_delay - 1) & delay_part` keeps a delay below `max_delay`. */
  lemma FieldMaskKeeps(part: nat, cap: int)
    requires ValidCap(cap) && part < cap
    ensures BitAnd(cap - 1, part) == part
  {
    AndLowMask(part, FieldBits(cap));
    ModUnique(part, cap, 0, part);
  }

  /** OR-ing a shifted delay into a base whose delay field is clear is addition. */
  lemma OrIntoClearField(base: Word, part: nat, cap: int)
    requires ValidCap(cap) && part < cap && FieldClear(base, cap)
    ensures BitOr(base, part * 256) == base + part * 256
  {
    var h, lo := base / 256, base % 256;
    DivMod(base, 256);
    Pow2Small(8);
    OrSplit(h, lo, part, 0, 8);
    assert BitOr(base, part * 256) == BitOr(h, part) * 256 + BitOr(lo, 0);
    OrZero(lo);
    OrAddAt(h, part, cap);
    calc {
      BitOr(h, part) * 256 + lo;
      (h + part) * 256 + lo;
      h * 256 + lo + part * 256;
    }
  }

  /**
   * `asm_instr | (((max_delay - 1) & delay_part) << 8)`: with the base's delay field clear,
   * the C expression is the delayed instruction's word.
   */
  lemma DelayedWordIsCExpression(base: Word, part: int, cap: int)
    requires ValidCap(cap) && 0 <= part < cap && FieldClear(base, cap)
    ensures BitOr(base, Shl(BitAnd(cap - 1, part), 8)) == Assemble(Delayed(base, part))
  {
    FieldMaskKeeps(part, cap);
    Pow2Small(8);
    OrIntoClearField(base, part, cap);
  }

  /** A delayed word decodes back to its base and its delay. */
  lemma DelayedFields(base: Word, delay: int, cap: int)
    requires ValidCap(cap) && 0 <= delay < cap && FieldClear(base, cap)
    ensures OperandOf(Assemble(Delayed(base, delay)), cap) == delay
    ensures Assemble(Delayed(base, delay)) - OperandOf(Assemble(Delayed(base, delay)), cap) * 256 == base
  {
    var q, lo := base / 256, base % 256;
    ModUnique(base + delay * 256, 256, q + delay, lo);
    assert q == (q / cap) * cap;
    ModUnique(q + delay, cap, q / cap, delay);
  }

  /** `0x1F & label` is the label modulo 32. */
  lemma TargetMask(position: nat)
    ensures BitAnd(0x1F, position) == position % 32
  {
    Pow2Small(5);
    AndLowMask(position, 5);
  }

  /** `ASM_JMP... | (0x1F & label)`, as the C writes a jump, is `Jump`. */
  lemma JumpIsCExpression(op: Word, position: int)
    requires op == ASM_JMP || op == ASM_JMP_NOTX || op == ASM_JMP_XMM
    ensures Jump(op, position) == BitOr(op, BitAnd(0x1F, ToU8(position)))
  {
    TargetMask(ToU8(position));
    OrAddAt(op, ToU8(position) % 32, 32);
  }

  /** The set words have a clear delay field in both antenna modes. */
  lemma SetBasesClear(twoAntennas: bool)
    ensures FieldClear(HighInstr(twoAntennas), MaxDelay(twoAntennas))
    ensures FieldClear(LowInstr(twoAntennas), MaxDelay(twoAntennas))
  {
  }

  // ---------------------------------------------------------------------------
  // Delay chains: `instructionCount` and `repeat`
  // ---------------------------------------------------------------------------

  /** `instructionCount`: how many words a delay needs, i.e. the ceiling of delay / max. */
  function InstructionCount(delay: nat, max: nat): (r: nat)
    requires max > 0
    ensures r * max >= delay
    ensures r == 0 || (r - 1) * max < delay
  {
    CeilingBounds(delay, max);
    if delay % max == 0 then delay / max else delay / max + 1
  }

  lemma CeilingBounds(delay: nat, max: nat)
    requires max > 0
    ensures delay % max == 0 ==> delay / max * max == delay
    ensures delay % max != 0 ==> (delay / max + 1) * max > delay && delay / max * max < delay
  {
    var q, m := delay / max, delay % max;
    assert delay == q * max + m;
    assert (q + 1) * max == q * max + max;
  }

  /** How many words `repeat` emits for a (possibly non-positive) delay. */
  function RepeatCount(delay: int, cap: int): nat
    requires cap > 0
  {
    if delay <= 0 then 0 else InstructionCount(delay, cap)
  }

  /**
   * The instructions `repeat` appends for a delay: `cap` cycles per word from the
   * front, the remainder last; each word's delay is its share minus one.
   */
  function ChainInstrs(delay: int, base: Word, cap: int): (r: seq<Instr>)
    requires ValidCap(cap)
    ensures forall k :: 0 <= k < |r| ==> r[k].Delayed? && r[k].base == base && r[k].delay < cap
    decreases delay
  {
    if delay <= 0 then []
    else [Delayed(base, Min(cap, delay) - 1)] + ChainInstrs(delay - Min(cap, delay), base, cap)
  }

  lemma InstructionCountStep(delay: nat, cap: nat)
    requires ValidCap(cap) && delay > cap
    ensures InstructionCount(delay, cap) == InstructionCount(delay - cap, cap) + 1
  {
    if cap == 8 {
      assert (delay - 8) / 8 == delay / 8 - 1 && (delay - 8) % 8 == delay % 8;
    } else {
      assert (delay - 32) / 32 == delay / 32 - 1 && (delay - 32) % 32 == delay % 32;
    }
  }

  /** `repeat` emits exactly `instructionCount(delay, max_delay)` words, and none for delay <= 0. */
  lemma {:induction false} ChainLength(delay: int, base: Word, cap: int)
    requires ValidCap(cap)
    ensures |ChainInstrs(delay, base, cap)| == RepeatCount(delay, cap)
    decreases delay
  {
    if delay > 0 {
      ChainLength(delay - Min(cap, delay), base, cap);
      if delay > cap {
        InstructionCountStep(delay, cap);
      }
    }
  }

  /** The delays plus one add up to exactly the requested delay. */
  lemma {:induction false} ChainCycles(delay: int, base: Word, cap: int)
    requires ValidCap(cap)
    ensures Cycles(ChainInstrs(delay, base, cap)) == Max(0, delay)
    decreases delay
  {
    if delay > 0 {
      var c := ChainInstrs(delay, base, cap);
      assert c[1..] == ChainInstrs(delay - Min(cap, delay), base, cap);
      ChainCycles(delay - Min(cap, delay), base, cap);
    }
  }

  /** Only the last word of a chain may wait less than the maximum. */
  lemma {:induction false} ChainFull(delay: int, base: Word, cap: int)
    requires ValidCap(cap)
    ensures forall k :: 0 <= k < |ChainInstrs(delay, base, cap)| - 1 ==> ChainInstrs(delay, base, cap)[k].delay == cap - 1
    decreases delay
  {
    if delay > 0 {
      var c := ChainInstrs(delay, base, cap);
      var rest := ChainInstrs(delay - Min(cap, delay), base, cap);
      ChainFull(delay - Min(cap, delay), base, cap);
      forall k | 0 <= k < |c| - 1
        ensures c[k].delay == cap - 1
      {
        if k > 0 {
          assert c[k] == rest[k - 1];
        }
      }
    }
  }

  /** A delay put into a base with a clear delay field still gives a 16-bit word. */
  lemma DelayedFits(base: Word, delay: int, cap: int)
    requires ValidCap(cap) && 0 <= delay < cap && FieldClear(base, cap)
    ensures 0 <= Assemble(Delayed(base, delay)) < 0x1_0000
  {
    var q := base / 256;
    assert base == q * 256 + base % 256;
    assert q <= 255;
    if cap == 8 {
      assert q % 8 == 0;
    } else {
      assert q % 32 == 0;
    }
  }

  /** A chain on a base with a clear delay field assembles to 16-bit words. */
  lemma ChainAssembles(delay: int, base: Word, cap: int)
    requires ValidCap(cap) && FieldClear(base, cap)
    ensures Assembles(ChainInstrs(delay, base, cap))
  {
    var c := ChainInstrs(delay, base, cap);
    forall k | 0 <= k < |c|
      ensures 0 <= Assemble(c[k]) < 0x1_0000
    {
      DelayedFits(base, c[k].delay, cap);
    }
  }

  /**
   * Every word of an assembled chain is its base with the chain's delay for it in the
   * delay field.
   */
  lemma ChainWordFields(delay: int, base: Word, cap: int)
    requires ValidCap(cap) && FieldClear(base, cap)
    ensures forall k :: 0 <= k < |ChainInstrs(delay, base, cap)| ==>
              OperandOf(AssembleAll(ChainInstrs(delay, base, cap))[k], cap) == ChainInstrs(delay, base, cap)[k].delay
    ensures forall k :: 0 <= k < |ChainInstrs(delay, base, cap)| ==>
              AssembleAll(ChainInstrs(delay, base, cap))[k] - ChainInstrs(delay, base, cap)[k].delay * 256 == base
  {
    var c := ChainInstrs(delay, base, cap);
    forall k | 0 <= k < |c|
      ensures OperandOf(AssembleAll(c)[k], cap) == c[k].delay
      ensures AssembleAll(c)[k] - c[k].delay * 256 == base
    {
      AssembleAllAt(c, k);
      DelayedFields(base, c[k].delay, cap);
    }
  }

  lemma {:induction false} AssembleAllAppend(a: seq<Instr>, b: seq<Instr>)
    ensures AssembleAll(a + b) == AssembleAll(a) + AssembleAll(b)
  {
    if a != [] {
      assert (a + b)[1..] == a[1..] + b;
      AssembleAllAppend(a[1..], b);
    } else {
      assert a + b == b;
    }
  }

  lemma {:induction false} AssembleAllAt(instrs: seq<Instr>, k: int)
    requires 0 <= k < |instrs|
    ensures AssembleAll(instrs)[k] == Assemble(instrs[k])
  {
    if k > 0 {
      AssembleAllAt(instrs[1..], k - 1);
    }
  }

  /** The words of a program, given word by word. */
  lemma AssembleAllIs(instrs: seq<Instr>, words: seq<nat>)
    requires |instrs| == |words|
    requires forall k :: 0 <= k < |instrs| ==> Assemble(instrs[k]) == words[k]
    ensures AssembleAll(instrs) == words
  {
    forall k | 0 <= k < |instrs|
      ensures AssembleAll(instrs)[k] == words[k]
    {
      AssembleAllAt(instrs, k);
    }
  }

  lemma AssemblesAppend(a: seq<Instr>, b: seq<Instr>)
    requires Assembles(a) && Assembles(b)
    ensures Assembles(a + b)
  {
    forall k | 0 <= k < |a + b|
      ensures 0 <= Assemble((a + b)[k]) < 0x1_0000
    {
      if k >= |a| {
        assert (a + b)[k] == b[k - |a|];
      }
    }
  }

  lemma {:induction false} CyclesAppend(a: seq<Instr>, b: seq<Instr>)
    ensures Cycles(a + b) == Cycles(a) + Cycles(b)
  {
    if a == [] {
      assert a + b == b;
    } else {
      assert (a + b)[1..] == a[1..] + b;
      CyclesAppend(a[1..], b);
    }
  }

  // ---------------------------------------------------------------------------
  // Writing words into the instruction buffer
  // ---------------------------------------------------------------------------

  /** `asm_instr | (((max_delay - 1) & delay_part) << 8)`, the word `repeat` stores. */
  method EncodeDelayed(instr: Word, part: int, cap: int) returns (w: Word)
    requires ValidCap(cap) && 0 <= part < cap && FieldClear(instr, cap)
    ensures w == Assemble(Delayed(instr, part))
  {
    DelayedWordIsCExpression(instr, part, cap);
    DelayedFits(instr, part, cap);
    w := BitOr(instr, Shl(BitAnd(cap - 1, part), 8));
  }

  /** `op | (0x1F & label)`, the word of a conditional or unconditional jump. */
  method EncodeJump(op: Word, position: int) returns (w: Word)
    requires op == ASM_JMP || op == ASM_JMP_NOTX || op == ASM_JMP_XMM
    ensures w == Jump(op, position)
  {
    JumpIsCExpression(op, position);
    w := BitOr(op, BitAnd(0x1F, ToU8(position)));
  }

  lemma WriteNext(buf: seq<int>, prefix: seq<int>, done: seq<int>, rest: seq<int>, w: int)
    requires buf == prefix + done + rest && |rest| > 0
    ensures buf[|prefix| + |done| := w] == prefix + (done + [w]) + rest[1..]
  {
  }

  lemma SplitAt(buf: seq<int>, prefix: seq<int>, rest: seq<int>)
    requires buf == prefix + rest
    ensures buf[..|prefix|] == prefix && buf[|prefix|..] == rest
  {
  }

  /** One turn of the `repeat` loop: the next chain word goes into the next free slot. */
  lemma RepeatStep(cur: seq<int>, before: seq<int>, len: nat, pos: nat, done: seq<Instr>,
                   rest: int, part: int, delay: int, instr: Word, cap: int, w: Word)
    requires ValidCap(cap) && rest > 0 && part == Min(cap, rest) - 1 && pos == len + |done|
    requires done + ChainInstrs(rest, instr, cap) == ChainInstrs(delay, instr, cap)
    requires len + |ChainInstrs(delay, instr, cap)| <= |before|
    requires cur == before[..len] + AssembleAll(done) + before[pos..]
    requires w == Assemble(Delayed(instr, part))
    ensures pos < |cur|
    ensures (done + [Delayed(instr, part)]) + ChainInstrs(rest - (part + 1), instr, cap) == ChainInstrs(delay, instr, cap)
    ensures cur[pos := w] == before[..len] + AssembleAll(done + [Delayed(instr, part)]) + before[pos + 1..]
  {
    var x := Delayed(instr, part);
    var tail := ChainInstrs(rest - (part + 1), instr, cap);
    assert ChainInstrs(rest, instr, cap) == [x] + tail;
    assert (done + [x]) + tail == done + ([x] + tail);
    WriteNext(cur, before[..len], AssembleAll(done), before[pos..], w);
    assert before[pos..][1..] == before[pos + 1..];
    assert AssembleAll([x]) == [w];
    AssembleAllAppend(done, [x]);
  }

  /**
   * `repeat`: appends the chain for `delay` at `buf[len..]` and returns the new length;
   * nothing outside the appended slots changes.
   */
  method Repeat(buf: array<Word>, delay: int, instr: Word, len: nat, cap: int) returns (newLen: nat)
    requires ValidCap(cap) && FieldClear(instr, cap)
    requires len + RepeatCount(delay, cap) <= buf.Length
    modifies buf
    ensures newLen == len + RepeatCount(delay, cap)
    ensures buf[..newLen] == old(buf[..len]) + AssembleAll(ChainInstrs(delay, instr, cap))
    ensures buf[newLen..] == old(buf[newLen..])
  {
    ChainLength(delay, instr, cap);
    ghost var before := buf[..];
    ghost var done: seq<Instr> := [];
    var rest := delay;
    newLen := len;
    while rest > 0
      invariant newLen == len + |done|
      invariant done + ChainInstrs(rest, instr, cap) == ChainInstrs(delay, instr, cap)
      invariant buf[..] == before[..len] + AssembleAll(done) + before[newLen..]
      decreases rest
    {
      var part := Min(cap, rest) - 1;
      var w := EncodeDelayed(instr, part, cap);
      ghost var cur := buf[..];
      RepeatStep(cur, before, len, newLen, done, rest, part, delay, instr, cap, w);
      buf[newLen] := w;
      assert buf[..] == cur[newLen := w];
      done := done + [Delayed(instr, part)];
      rest := rest - (part + 1);
      newLen := newLen + 1;
    }
    assert done == ChainInstrs(delay, instr, cap);
    SplitAt(buf[..], before[..len] + AssembleAll(done), before[newLen..]);
  }
}
