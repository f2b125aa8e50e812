# Backscatter test-bed core, modelled in Dafny

This project models the computational core of a backscatter test-bed. An RP2040 board toggles
an antenna switch from a PIO state machine, so that a tag reflects an unmodulated 2.45 GHz
carrier as two-tone FSK. A CC2500 radio produces the carrier, and a second CC2500 receives and
decodes the reflected frames. A Python script analyses the received log. The model covers five
parts and proves properties of each.

- **Waveform program synthesis.** Covers `project_pico_libs/backscatter.c` and
  `baseband/generate-backscatter-pio.py`.
  - Modules: `PioAsm` (`pio_asm.dfy`), `Backscatter` (`backscatter.dfy`) and `PioScript`
    (`pio_script.dfy`).
  - The PIO instruction encoding, section 3.4 of the RP2040 datasheet, is a datatype of
    instructions and their 16-bit words.
  - `repeat` is an in-place array method, and `instructionCount` is a ceiling.
  - `generatePIOprogram` writes a 32-word array and a `pio_program` object. Its closed-form
    labels and capacity check are proved against the code it writes.
  - The cycle count of every symbol is proved to be exactly 125 MHz / baud. This holds for even
    dividers up to 2^15 that fit at least one period into a symbol.
  - The integer tail of `backscatter_program_init` gives the repeat counts, centre offset,
    deviation and minimum bandwidth. It is checked against the default configuration.
  - The Python generator is modelled as functions. Its delay lists are proved equal to the
    firmware's chains, for every even divider up to 2^15, in both antenna modes.
- **CC2500 register codec and frame decoding.** Covers `project_pico_libs/receiver_CC2500.c`
  and `project_pico_libs/carrier_CC2500.c`.
  - Modules: `Cc2500` (`cc2500.dfy`), `Receiver` (`receiver.dfy`) and `Carrier` (`carrier.dfy`).
  - The data rate, channel bandwidth and deviation formulas of sections 12, 13 and 16 of the
    TI CC2500 datasheet are exact integer characterisations, not floating point. The
    carrier-frequency word of section 21 is modelled the same way.
  - Each setter becomes the list of SPI operations it issues. Register reads are inputs.
  - `readPacket` is a decoder plus an array method that fills the caller's buffer.
  - Also modelled: the timestamp split of `printPacket`, the GPIO interrupt, and the bounded
    event queue as a class.
  - `set_frecuency_rx` and `set_frecuency_tx` are the same code on two chips, so both are
    modelled by `Cc2500.SetFrequency`.
- **Packet framing.** Covers `project_pico_libs/packet_generation.c`/`.h` and the main loop
  of `carrier-receiver-baseband/main.c`.
  - Modules: `PacketGeneration` (`packet_generation.dfy`) and `BasebandMain`
    (`baseband_main.dfy`).
  - The generator's `seed` and `file_position` globals are fields of a class.
  - `add_header`, `generate_data`, the `memcpy` and the 32-bit packing loop work on arrays.
  - The main loop's `rx_ready`/`seq` state machine is a class whose `Step` handles one event.
  - A sent frame is proved to decode, through the receiver model, back to its length byte,
    sequence number and payload.
- **Command-line classifier.** Covers `carrier-receiver-baseband/command_receiver.c`.
  - Module: `CommandReceiver` (`command_receiver.dfy`).
  - The per-character line accumulator is modelled both as a function and as a class over a
    100-byte array.
  - `sscanf` is modelled abstractly, as a tokenised line and the number of fields it matches.
  - Classification into `c`/`b`/`h`/`s`/`t`/`e` events is proved in both directions.
- **Log analysis.** Covers `stats/functions.py`.
  - Module: `Stats` (`stats.dfy`).
  - Modelled: popcount bit-error counting, the hex parsing of printed frames, sequence-number
    unwrapping (`replace_seq`, a loop method) and the per-slot aggregation of `compute_ber`
    (loop methods proved against fold functions).
  - Parsing is proved to invert the receiver's `%02x` printing.
  - The unwrapping is proved to recover the true counter.
  - The BER is proved never to exceed 1.

`Common` (`common.dfy`) holds the integer helpers that model C and Python semantics: truncating
division, the two rounding modes, and conversions to 8-, 16- and 32-bit types. `Bits`
(`bits.dfy`) models C's `|`, `&` and `<<` on naturals, with the field lemmas that relate them to
arithmetic. Every width, wrap-around and truncation of the C code is written out explicitly.

Where the code and its written description differ, the model follows the code:
- `readPacket`'s burst read discards the chip's status byte, so the buffer holds the length
  byte, the sequence number and then the payload. The reported `len` is therefore the FIFO
  byte count less two: one more than the length byte.
- The carrier's wait after sending uses 8000, as written; see Findings.
- A terminator that arrives on an empty line is stored as a character, as written.

## Model

| member | source | states |
|---|---|---|
| PioAsm.MaxDelay | project_pico_libs/backscatter.c:31-38 | the delay cap is 8 cycles with two antennas (side-set takes two bits) and 32 otherwise |
| PioAsm.HighInstr | project_pico_libs/backscatter.c:58 | `set pins, 1 side 1`: low byte 1, opcode byte 0xE0 plus the side-set bits only with two antennas |
| PioAsm.LowInstr | project_pico_libs/backscatter.c:68 | `set pins, 0 side 0`: low byte 0, opcode byte 0xE0 plus the side-set bits only with two antennas |
| PioAsm.SetWordsAreCExpressions | project_pico_libs/backscatter.c:58 | the two set words are the C expressions `ASM_SET_PINS \| OPT_SIDE_1 \| 1` and `ASM_SET_PINS \| OPT_SIDE_0 \| 0` |
| PioAsm.HighWordTwoAntennas | project_pico_libs/backscatter.h:26 | `0xE000 \| 0x1800 \| 1` is 0xF801 |
| PioAsm.HighWordOneAntenna | project_pico_libs/backscatter.h:26 | `0xE000 \| 0 \| 1` is 0xE001 |
| PioAsm.LowWordValues | project_pico_libs/backscatter.c:36-37 | the low set word is 0xF000 with two antennas and 0xE000 with one |
| PioAsm.OutWordValues | project_pico_libs/backscatter.c:59-61 | the three `out` words are 0x60C0, 0x6040 and 0x6021 |
| PioAsm.MovWordValues | project_pico_libs/backscatter.c:64 | the two `mov` words are 0xA022 and 0xA026 |
| PioAsm.RegisterWordsAreCExpressions | project_pico_libs/backscatter.c:59-64 | the `out` and `mov` words are the C expressions with the register shifted into bits 7-5 |
| PioAsm.OperandOf | project_pico_libs/backscatter.c:14 | the delay operand read back from bits 8 and up lies in [0, max_delay - 1] |
| PioAsm.Target | project_pico_libs/backscatter.c:62 | `0x1F & label` is below 32 and is the label itself for labels in [0, 32) |
| PioAsm.TargetMask | project_pico_libs/backscatter.c:62 | `0x1F & label` is the label modulo 32 |
| PioAsm.JumpIsCExpression | project_pico_libs/backscatter.c:62 | a jump word is `op \| (0x1F & label)` with the label as a `uint8_t` |
| PioAsm.AssembleAll | project_pico_libs/backscatter.c:58-87 | assembling a program gives one word per instruction |
| PioAsm.FieldBits | project_pico_libs/backscatter.c:14 | the delay cap is a power of two, so `max_delay - 1` is a mask of ones |
| PioAsm.FieldMaskKeeps | project_pico_libs/backscatter.c:14 | `(max_delay - 1) & delay_part` is `delay_part` for every part below the cap |
| PioAsm.OrIntoClearField | project_pico_libs/backscatter.c:14 | OR-ing the shifted delay into a base whose delay field is clear adds it |
| PioAsm.DelayedWordIsCExpression | project_pico_libs/backscatter.c:14 | `asm_instr \| (((max_delay-1) & delay_part) << 8)` is the delayed instruction's word |
| PioAsm.DelayedFields | project_pico_libs/backscatter.c:14 | a delayed word decodes back to its base and its delay: the operand does not touch the opcode or side-set bits |
| PioAsm.SetBasesClear | project_pico_libs/backscatter.c:67-68 | both set words have a clear delay field, with and without side-set |
| PioAsm.InstructionCount | project_pico_libs/backscatter.c:21-27 | `instructionCount` is the ceiling of delay / max: enough words to hold the delay, and one fewer would not be |
| PioAsm.CeilingBounds | project_pico_libs/backscatter.c:22-26 | the two branches of `instructionCount`: delay / max when max divides delay, delay / max + 1 otherwise |
| PioAsm.ChainInstrs | project_pico_libs/backscatter.c:12-17 | every word `repeat` emits is the given instruction with a delay below the cap |
| PioAsm.InstructionCountStep | project_pico_libs/backscatter.c:12-17 | one full word less of delay is one instruction less |
| PioAsm.ChainLength | project_pico_libs/backscatter.c:11-18 | `repeat` emits exactly `instructionCount(delay, max_delay)` words, and none for delay <= 0 |
| PioAsm.ChainCycles | project_pico_libs/backscatter.c:13-15 | the delays plus one of the emitted words add up exactly to the requested delay (0 for delay <= 0) |
| PioAsm.ChainFull | project_pico_libs/backscatter.c:13 | every emitted word but the last waits the full `max_delay` cycles |
| PioAsm.DelayedFits | project_pico_libs/backscatter.c:14 | a delayed word fits the 16-bit instruction buffer |
| PioAsm.ChainAssembles | project_pico_libs/backscatter.c:14 | every word of a chain fits 16 bits |
| PioAsm.ChainWordFields | project_pico_libs/backscatter.c:13-15 | every stored word is the base instruction plus its delay in bits 8 and up, and that operand reads back |
| PioAsm.AssembleAllAppend | project_pico_libs/backscatter.c:58-87 | assembling a concatenation is concatenating the assemblies |
| PioAsm.CyclesAppend | project_pico_libs/backscatter.c:58-87 | the cycles of consecutive code add up |
| PioAsm.EncodeDelayed | project_pico_libs/backscatter.c:14 | the word computed with the C's OR, AND and shift is the delayed instruction's word |
| PioAsm.EncodeJump | project_pico_libs/backscatter.c:62 | the word computed as the C writes a jump is `Jump(op, label)` |
| PioAsm.RepeatStep | project_pico_libs/backscatter.c:12-16 | one turn of the loop writes the next chain word into slot `*length` and leaves the rest of the chain to do |
| PioAsm.Repeat | project_pico_libs/backscatter.c:11-18 | `repeat` advances the length by `instructionCount(delay, max_delay)`, writes the chain's words at the old length and changes no slot outside [old length, new length) |
| Backscatter.JumpGetSymbolIsCExpression | project_pico_libs/backscatter.c:74 | the closing jump is `ASM_JMP \| get_symbol_label` |
| Backscatter.LastPeriodCycles | project_pico_libs/backscatter.c:42-43 | `lastPeriodCycles` fits an `int16_t`, lies in [0, d) and equals (125e6 / baud - 4) mod d for dividers up to 2^15 |
| Backscatter.RunLength | project_pico_libs/backscatter.c:67-70 | a high run, a low run and a jump take `instructionCount` of each run plus one word |
| Backscatter.SymbolBlockLength | project_pico_libs/backscatter.c:47 | the closed-form count of a symbol block (mov, periods, jmp x--, correction, jmp) is the block's length |
| Backscatter.ProgramLength | project_pico_libs/backscatter.c:47-52 | `send_0_label` (without wrap) is where symbol 0's block starts, and the checked total is the program's length |
| Backscatter.PioProgram.constructor | project_pico_libs/backscatter.c:117 | an empty `struct pio_program` over the buffer |
| Backscatter.PioProgram.Load | project_pico_libs/backscatter.c:90-92 | the program points at the buffer with length `length + 1` and origin -1 |
| Backscatter.WriteRun | project_pico_libs/backscatter.c:67-70 | two `repeat` calls and a jump write exactly the run's words at `buf[start..]` and nothing else |
| Backscatter.WriteSymbol | project_pico_libs/backscatter.c:64-74 | one symbol block is written at `buf[start..]` and nothing else changes |
| Backscatter.WritePrologue | project_pico_libs/backscatter.c:58-62 | words 0-4 are the fixed prologue with `jmp !x, send_0_label` at word 4 |
| Backscatter.WriteProgram | project_pico_libs/backscatter.c:58-87 | the prologue and both symbol blocks are written to `buf[..len]`, the rest of the buffer untouched |
| Backscatter.GeneratePioProgram | project_pico_libs/backscatter.c:29-94 | succeeds exactly when the program has fewer than 32 words; then the buffer holds the program, length = the program's length, origin -1; on refusal neither the buffer nor the program struct changes |
| Backscatter.SymbolBlockAt | project_pico_libs/backscatter.c:64-74 | a block starts with its `mov`, has `jmp x--` after the period chains and ends with `jmp get_symbol_label` |
| Backscatter.ProgramLabels | project_pico_libs/backscatter.c:39-48 | the closed-form labels are where the code is: word 4 jumps to `mov x, isr` at `send_0_label`, the `jmp x--` go to 6 and to `send_0_label + 1`, both blocks end with `jmp 3`, and the length is below 32 |
| Backscatter.RunCycles | project_pico_libs/backscatter.c:67-74 | a run spends `high` cycles high, `low` low (none for a non-positive count) and one on its last word |
| Backscatter.LoopPeriod | project_pico_libs/backscatter.c:67-69 | one loop period is d/2 cycles high, then d/2 - 1 low plus the 1-cycle `jmp x--`: d cycles for even d |
| Backscatter.CorrectionCycles | project_pico_libs/backscatter.c:44-45 | the correction is high for min(last, d/2) cycles and low for max(0, last - that), last + 1 cycles with the jump |
| Backscatter.Reps | project_pico_libs/backscatter.c:146-147 | reps + 1 = (125e6 / baud - 4) / d whenever a symbol holds at least one period |
| Backscatter.SymbolDuration | project_pico_libs/backscatter.c:42-48 | a symbol lasts exactly 125e6 / baud cycles: the 4-cycle overhead, (reps + 1) periods and the correction |
| Backscatter.CountAgrees | project_pico_libs/backscatter.c:21 | a count that fits a `uint8_t` survives the C's conversions |
| Backscatter.SymbolLengthAgrees | project_pico_libs/backscatter.c:47 | the `uint8_t` sum of a short block's counts is its real length |
| Backscatter.CheckAgreesWhenFits | project_pico_libs/backscatter.c:47-52 | for every program that fits, the `uint8_t` arithmetic is exact and the check passes |
| Backscatter.CheckOverflowExample | project_pico_libs/backscatter.c:47-52 | d0 = d1 = 4096 at 30488 Bd with two antennas passes the written check with 11 words while the program has 2059 |
| Backscatter.CorrectedBaud | project_pico_libs/backscatter.c:111-115 | the corrected rate is positive and is the request itself when it divides 125 MHz |
| Backscatter.RoundedQuotientBounds | project_pico_libs/backscatter.c:112 | the rounded cycles per symbol lie in [1, 125e6] |
| Backscatter.RoundUnique | project_pico_libs/backscatter.c:112 | C's `round` of a / b is the only r with 2a - b < 2rb <= 2a + b |
| Backscatter.CorrectedBaudKeepsCycles | project_pico_libs/backscatter.c:111-115 | from 12000 Bd up the correction keeps the rounded cycles per symbol and is idempotent |
| Backscatter.Center | project_pico_libs/backscatter.c:152 | `fcenter` is at most 125 MHz |
| Backscatter.Deviation | project_pico_libs/backscatter.c:153 | `fdeviation` is at most 125 MHz |
| Backscatter.DeviationIsHalfSpacing | project_pico_libs/backscatter.c:152-153 | with d1 <= d0 twice the deviation is the tone spacing 125e6/d1 - 125e6/d0, up to 3 Hz of rounding |
| Backscatter.BandwidthCoversTones | project_pico_libs/backscatter.c:157 | minRxBw = baud + 2 deviation, so it covers the baud rate plus the tone spacing |
| Backscatter.ProgramInit | project_pico_libs/backscatter.c:110-157 | the configuration, the two repeat counts and, when the program fits, the loaded program words; a refused program leaves the buffer as it was |
| Backscatter.DefaultLengths | carrier-receiver-baseband/main.c:40-43 | the defaults (20, 18, 100000 Bd, two antennas) give lastPeriodCycles 4 and 6, `send_0_label` 12 and a 20-word program |
| Backscatter.DefaultConfiguration | receiver-CC2500/main.c:37-40 | the defaults give reps 61 and 68 and the configuration 100000 / 6597222 / 347222 / 794444 |
| Backscatter.DefaultChains | project_pico_libs/backscatter.c:67-86 | the default chains at cap 8 (9 = 8 + 1, 10 = 8 + 2, 4 and 6 in one word, 0 in none) |
| Backscatter.DefaultBlocksOne | project_pico_libs/backscatter.c:64-74 | the default block of a 1 as instructions |
| Backscatter.DefaultBlocksZero | project_pico_libs/backscatter.c:77-87 | the default block of a 0 as instructions |
| Backscatter.DefaultBlockWords | project_pico_libs/backscatter.c:64-87 | the default blocks as 16-bit words |
| Backscatter.DefaultSymbolOne | project_pico_libs/backscatter.c:64-74 | the words of symbol 1 for d1 = 18 at 100000 Bd |
| Backscatter.DefaultSymbolZero | project_pico_libs/backscatter.c:77-87 | the words of symbol 0 for d0 = 20 at 100000 Bd |
| Backscatter.DefaultPrologue | project_pico_libs/backscatter.c:58-62 | the prologue words, with `jmp !x, 12` = 0x002C |
| Backscatter.DefaultProgramWords | project_pico_libs/backscatter.c:58-87 | the 20 words of the default program |
| PioScript.LastMinus | baseband/generate-backscatter-pio.py:45 | `lastMinus` keeps every element but the last, and keeps the last reduced only when it stays positive |
| PioScript.SplitNbitLength | baseband/generate-backscatter-pio.py:38 | `splitNbit(x, n)` has ceil(x / 2^n) chunks |
| PioScript.SplitNbitChunks | baseband/generate-backscatter-pio.py:38 | the chunks add up to x, each lies in [1, 2^n], and there are none exactly when x is 0 |
| PioScript.LastMinusOne | baseband/generate-backscatter-pio.py:41-45 | taking one off the last chunk of x is splitting x - 1 |
| PioScript.WaitsOfDecrements | baseband/generate-backscatter-pio.py:41-42 | the `[x]` delays of `sleeptime` plus one per word add back up to the split total |
| PioScript.PeriodWaits | baseband/generate-backscatter-pio.py:86-88 | a script period waits d/2 cycles high and d/2 - 1 low before `JMP x--`, every delay within the field |
| PioScript.SplitMatchesChain | baseband/generate-backscatter-pio.py:38-44 | the script's decremented split is the delay sequence of the firmware's `repeat` chain, caps 8 and 32 |
| PioScript.ScriptBaud | baseband/generate-backscatter-pio.py:29-37 | the script accepts a baud in (0, 250e6), corrects it into (0, 125e6] and keeps a divisor of 125 MHz |
| PioScript.HalfEvenQuotientZero | baseband/generate-backscatter-pio.py:30 | Python's inner `round` gives 0 (a ZeroDivisionError in the outer division) exactly when b >= 2a |
| PioScript.HalfEvenQuotientBounds | baseband/generate-backscatter-pio.py:30 | the outer `round` for a divisor in (0, a] lies in [1, a] |
| PioScript.ScriptLastPeriodCycles | baseband/generate-backscatter-pio.py:48-49 | `lastPeriodCycles` is in [0, d) (Python's `%` floors) |
| PioScript.Generate | baseband/generate-backscatter-pio.py:26-49 | the script produces a program exactly when the baud can be corrected and both dividers are even and at least 2 |
| PioScript.BlockDelays | project_pico_libs/backscatter.c:64-74 | a firmware symbol block's delay sequence is mov, periods, jmp x--, correction, jmp |
| PioScript.ScriptSymbolMatches | baseband/generate-backscatter-pio.py:86-103 | the delays the script writes for a symbol are exactly the firmware's `repeat` delays for that symbol |
| PioScript.SleeptimeMatches | baseband/generate-backscatter-pio.py:86-87 | `sleeptime(h)` and `sleeptime(h, 1)` are the delays of the firmware's high chain of h and low chain of h - 1 |
| PioScript.CorrectionMatches | baseband/generate-backscatter-pio.py:91-92 | the script's correction (`splitDelay` minus one) is the firmware's correction chains |
| PioScript.ScriptMatchesFirmware | baseband/generate-backscatter-pio.py:29-125 | the generated script and the firmware's run-time generator agree: side-set, cap, both symbols' delays and both FIFO repeat counts |
| PioScript.SymbolMatchesAt | baseband/generate-backscatter-pio.py:124-125 | the script's last-period cycles and FIFO words agree with the firmware's for one divider |
| PioScript.BaudCorrectionsAgree | baseband/generate-backscatter-pio.py:29-30 | away from exact halves Python's and C's baud corrections agree |
| PioScript.RoundingsAgree | baseband/generate-backscatter-pio.py:30 | half-even and half-away rounding differ only on an exact half |
| PioScript.BaudCorrectionsDiffer | baseband/generate-backscatter-pio.py:30 | at 80000 Bd the firmware corrects to 79974 and the script to 80026 |
| Common.CDiv | project_pico_libs/receiver_CC2500.c:210-212 | C's `/` on a signed value truncates toward zero: the quotient brackets the dividend from below for non-negative and from above for negative dividends |
| Common.RoundHalfAway | project_pico_libs/backscatter.c:112 | C's `round` of a / b is within half a unit of the quotient, halves going up |
| Common.RoundHalfEven | baseband/generate-backscatter-pio.py:30 | Python's `round` of a / b is within half a unit of the quotient, halves going to the even neighbour |
| Common.ToU8 | project_pico_libs/backscatter.c:21 | a conversion to `uint8_t` keeps values in [0, 256) and otherwise reduces modulo 256 |
| Common.ToU16 | project_pico_libs/backscatter.c:12 | a conversion to `uint16_t` keeps values in [0, 2^16) and otherwise reduces modulo 2^16 |
| Common.ToU32 | project_pico_libs/backscatter.c:146 | a conversion to `uint32_t` keeps values in [0, 2^32) and otherwise reduces modulo 2^32 |
| Common.ToInt16 | project_pico_libs/backscatter.c:42 | a conversion to `int16_t` keeps values in [-2^15, 2^15) and otherwise wraps into that range |
| Common.CeilDiv | project_pico_libs/packet_generation.h:19 | the ceiling of a / b: enough b-units to cover a, and one fewer would not be |
| Common.Offer | carrier-receiver-baseband/command_receiver.c:58 | `queue_try_add` appends when the queue has room and drops the item when it is full |
| Cc2500.Addresses | project_pico_libs/receiver_CC2500.c:333-340 | the addresses of a register list, in order |
| Cc2500.FloorLog2Ratio | project_pico_libs/receiver_CC2500.c:260 | `floor(log2(n / d))` as the one e with d 2^e <= n < d 2^(e+1) |
| Cc2500.FloorLog2Unique | project_pico_libs/receiver_CC2500.c:260 | that e is unique |
| Cc2500.DataRateExponent | project_pico_libs/receiver_CC2500.c:260 | `drate_e` is the largest e with F_XOSC 2^e <= r 2^20 |
| Cc2500.DataRateQuantisation | project_pico_libs/receiver_CC2500.c:260-264 | `drate_m` lies in [0, 255], the achieved rate (256 + m) 2^e F_XOSC / 2^28 is at most the request, and m + 1 would overshoot it |
| Cc2500.DataRateExponentSmall | project_pico_libs/receiver_CC2500.c:260 | for a 32-bit request the exponent is at most 27 |
| Cc2500.BandwidthExponent | project_pico_libs/receiver_CC2500.c:281 | `chanbw_e` is the largest e with 32 bw 2^e <= F_XOSC |
| Cc2500.BandwidthQuantisation | project_pico_libs/receiver_CC2500.c:281-285 | `chanbw_m` lies in [0, 3], the achieved bandwidth F_XOSC / (8 (4 + m) 2^e) is at least the request, and m + 1 would fall below it |
| Cc2500.BandwidthExponentSmall | project_pico_libs/receiver_CC2500.c:281 | the bandwidth exponent is at most 19 |
| Cc2500.DeviationExponent | project_pico_libs/receiver_CC2500.c:299 | `deviation_e` is the largest e with F_XOSC 2^e <= f 2^14 |
| Cc2500.DeviationQuantisation | project_pico_libs/receiver_CC2500.c:299-300 | `deviation_m` lies in [0, 7], the programmed deviation F_XOSC (8 + m) 2^e / 2^17 is at most the request, and m + 1 would overshoot it |
| Cc2500.DeviationPrintedOverstates | project_pico_libs/receiver_CC2500.c:303 | the printed deviation, computed with m + 1, brackets the request from above while the programmed one brackets it from below |
| Cc2500.DeviationPrintedExample | project_pico_libs/receiver_CC2500.c:299-304 | for 347222 Hz (e = 7, m = 5) the register programs 330078 Hz and the firmware prints 355468 Hz |
| Cc2500.DeviationExponentSmall | project_pico_libs/receiver_CC2500.c:299 | the deviation exponent is at most 21 |
| Cc2500.HighNibble | project_pico_libs/receiver_CC2500.c:270 | `value & 0xf0` keeps the upper nibble and clears the lower |
| Cc2500.DataRateField | project_pico_libs/receiver_CC2500.c:270 | MDMCFG4 keeps its upper nibble and takes the exponent's low four bits |
| Cc2500.BandwidthField | project_pico_libs/receiver_CC2500.c:290 | MDMCFG4 keeps its lower nibble and takes e & 3 in bits 7-6 and m & 3 in bits 5-4 |
| Cc2500.DeviationField | project_pico_libs/receiver_CC2500.c:307 | DEVIATN takes e & 7 in bits 6-4 and m & 7 in bits 2-0 |
| Cc2500.Mdmcfg4WritesCommute | project_pico_libs/receiver_CC2500.c:268-291 | the data-rate and bandwidth read-modify-writes touch disjoint bits and commute |
| Cc2500.FieldsAreCExpressions | project_pico_libs/receiver_CC2500.c:270-307 | the three field functions are the C expressions with `&`, `<<` and `+` |
| Cc2500.FrequencyWord | project_pico_libs/receiver_CC2500.c:322 | `freq` is floor(f 2^16 / F_XOSC) and fits 24 bits |
| Cc2500.FrequencyQuantisation | project_pico_libs/carrier_CC2500.c:157-163 | the reported carrier floor(F_XOSC freq / 2^16) lies in [f - 397, f] |
| Cc2500.FrequencyBytes | project_pico_libs/carrier_CC2500.c:170-172 | three register bytes |
| Cc2500.FrequencyBytesAreCExpressions | project_pico_libs/carrier_CC2500.c:170-172 | the bytes are `(freq & 0x7f0000) >> 16`, `(freq & 0xff00) >> 8` and `freq & 0xff` |
| Cc2500.FrequencyBytesReassemble | project_pico_libs/receiver_CC2500.c:335-337 | FREQ2, FREQ1 and FREQ0 reassemble to freq mod 2^23 |
| Cc2500.SetFrequency | project_pico_libs/receiver_CC2500.c:311-343 | strobe SIDLE first, read MDMCFG1, then one burst: CHANNR = 0, the frequency bytes, MDMCFG1 with its upper nibble kept and exponent 0, MDMCFG0; the reported carrier is within 397 Hz below the request |
| Cc2500.CarrierWordRecovered | project_pico_libs/carrier_CC2500.c:157-172 | below 3 GHz the written bytes give back the whole frequency word |
| Carrier.PowerTableOrdered | project_pico_libs/carrier_CC2500.c:48-67 | `TX_power` has 18 entries with strictly increasing dBm from -55 to +1 |
| Carrier.IncreasingByNeighbours | project_pico_libs/carrier_CC2500.c:48-67 | a table increasing between neighbours is increasing between any two entries |
| Carrier.SetupUsesMaximumPower | project_pico_libs/carrier_CC2500.c:134 | `setupCarrier` picks entry 17, (+1 dBm, 0xFF), the highest power in the table |
| Carrier.SetTxPower | project_pico_libs/carrier_CC2500.c:118-127 | `setTXpower` writes three bytes: the burst header for PATABLE, then the register value twice |
| Carrier.BurstWriteHeader | project_pico_libs/carrier_CC2500.c:121 | a burst-write header carries the address in bits 5-0, the burst bit set and the read bit clear |
| Carrier.BurstHeaderIsCExpression | project_pico_libs/carrier_CC2500.c:121 | `(1 << 6) \| 0x3E` is 0x7E |
| Receiver.PacketLength | project_pico_libs/receiver_CC2500.c:201 | `len` is the FIFO byte count minus 2, as a `uint8_t`: it wraps to 254 or 255 for counts 0 and 1 |
| Receiver.CopyLength | project_pico_libs/receiver_CC2500.c:204 | `min(min(len, 62), 64)` copies the whole packet or exactly 62 bytes, never more than the length |
| Receiver.SignedByte | project_pico_libs/receiver_CC2500.c:209-210 | the RSSI byte read as two's complement, in [-128, 128) |
| Receiver.Rssi | project_pico_libs/receiver_CC2500.c:209-213 | the reported RSSI lies in [-134, -7] |
| Receiver.RssiHalvesReading | project_pico_libs/receiver_CC2500.c:209-213 | RSSI + 70 is half the signed reading rounded toward zero, as C's division does |
| Receiver.RssiMonotonic | project_pico_libs/receiver_CC2500.c:209-213 | a stronger signed reading never gives a lower RSSI |
| Receiver.RssiExamples | project_pico_libs/receiver_CC2500.c:209-213 | 200 gives -98, 100 gives -20, 255 gives -70, and the extremes 128 and 127 give -134 and -7 |
| Receiver.DecodePacket | project_pico_libs/receiver_CC2500.c:199-213 | bit 7 of the FIFO status decides overflow; an overflow copies nothing; otherwise the length is `PacketLength`, the copied bytes are `CopyLength` of it and the LQI is below 128 |
| Receiver.DecodeReceivedPacket | project_pico_libs/receiver_CC2500.c:199-213 | a FIFO holding a packet of up to 62 bytes, its RSSI byte and its CRC/LQI byte decodes to exactly that packet, RSSI, CRC flag and LQI |
| Receiver.DecodeIsCMasking | project_pico_libs/receiver_CC2500.c:199-208 | the decoding is the C masks `& 0x80` and `& 0x7F` |
| Receiver.ByteMasks | project_pico_libs/receiver_CC2500.c:199-208 | `& 0x80` is bit 7 and `& 0x7F` is the value mod 128 |
| Receiver.ReadPacket | project_pico_libs/receiver_CC2500.c:192-216 | the status returned is the decoded one, the caller's buffer starts with the copied payload and the rest of the buffer is untouched |
| Receiver.PrintedPayload | project_pico_libs/receiver_CC2500.c:229-234 | nothing is printed for an overflow, otherwise the first min(len, 64) buffer bytes |
| Receiver.PrintedAfterRead | project_pico_libs/receiver_CC2500.c:204-233 | after a read the printed bytes are the payload when len <= 62, and for longer lengths also the stale buffer bytes 62 and up |
| Receiver.WrappedLengths | project_pico_libs/receiver_CC2500.c:201-204 | a non-overflowed length exceeds 62 exactly when the FIFO status is below 2 or above 64 |
| Receiver.SplitTimestamp | project_pico_libs/receiver_CC2500.c:221-227 | minutes and seconds are below 60 and milliseconds below 1000 |
| Receiver.TimestampSplitsTime | project_pico_libs/receiver_CC2500.c:221-227 | hours, minutes, seconds, milliseconds and the dropped microseconds add back up to the time |
| Receiver.IsrEvent | project_pico_libs/receiver_CC2500.c:141-158 | a rising edge on GDO0 is `rx_assert_evt`, a falling edge `rx_deassert_evt`, and anything else no event |
| Receiver.EventQueue.constructor | project_pico_libs/receiver_CC2500.c:167-170 | the event queue starts empty |
| Receiver.EventQueue.Isr | project_pico_libs/receiver_CC2500.c:141-158 | the ISR offers its event to the 20-deep queue, which drops it when full |
| Receiver.EventQueue.GetEvent | project_pico_libs/receiver_CC2500.c:245-253 | `get_event` returns `no_evt` exactly when the queue is empty, and otherwise removes and returns its head |
| Receiver.SimultaneousEdgesIgnored | project_pico_libs/receiver_CC2500.c:146-155 | a rise and fall reported together (0xC) match neither case and queue nothing |
| Receiver.SetDatarateRx | project_pico_libs/receiver_CC2500.c:255-274 | strobe idle, read MDMCFG4, write MDMCFG4 (upper nibble kept) and MDMCFG3; when the exponent fits its nibble the programmed rate is the best mantissa at or below the request; the reported rate never exceeds it |
| Receiver.DataRateRegisters | project_pico_libs/receiver_CC2500.c:260-271 | the register fields decode back to the quantised rate whenever the exponent fits four bits |
| Receiver.DataRateExponentFits | project_pico_libs/receiver_CC2500.c:270 | below F_XOSC / 16 the exponent fits four bits |
| Receiver.SetFilterBandwidthRx | project_pico_libs/receiver_CC2500.c:276-292 | strobe idle, read MDMCFG4, write it with its lower nibble kept; when the exponent fits two bits the programmed bandwidth is the narrowest at or above the request |
| Receiver.BandwidthRegisters | project_pico_libs/receiver_CC2500.c:281-290 | the register field decodes back to the quantised bandwidth whenever the exponent fits two bits |
| Receiver.BandwidthFieldFits | project_pico_libs/receiver_CC2500.c:290 | above F_XOSC / 512 the exponent fits two bits |
| Receiver.SetFrequencyDeviationRx | project_pico_libs/receiver_CC2500.c:294-309 | strobe idle, write DEVIATN; when the exponent fits three bits the programmed deviation is the best at or below the request; the reported value is the programmed one, not the m + 1 value printed |
| Receiver.DeviationRegisters | project_pico_libs/receiver_CC2500.c:299-307 | the DEVIATN field decodes back to the quantised deviation whenever the exponent fits three bits |
| Receiver.DeviationFieldFits | project_pico_libs/receiver_CC2500.c:307 | below F_XOSC / 64 the exponent fits three bits |
| PacketGeneration.BufferSizeIsCeiling | project_pico_libs/packet_generation.h:19 | `buffer_size(x, y)` is ceil((x + y) / 4): 4 buffer_size - 4 < x + y <= 4 buffer_size |
| PacketGeneration.FrameSizes | project_pico_libs/packet_generation.h:17-19 | `buffer_size(14, 10)` is 6 words and `buffer_size(14 + 2, 10)` is 7 |
| PacketGeneration.PacketHdrTemplate | project_pico_libs/packet_generation.c:25-31 | four 0xaa preamble bytes, then the CC2500 sync word exactly for receiver 2500 and the CC1352 one for any other value |
| PacketGeneration.HeaderLengthByte | project_pico_libs/packet_generation.c:96-102 | the header is the template's 8 bytes, the length byte 1 + PAYLOADSIZE = 15 and the sequence number |
| PacketGeneration.AddHeader | project_pico_libs/packet_generation.c:94-103 | `add_header` writes exactly the header into packet[0..10) and leaves every later byte alone |
| PacketGeneration.LcgIsUint32Arithmetic | project_pico_libs/packet_generation.c:36-42 | the modelled LCG step is `(seed * 1664525 + 1013904223) & 0xFFFFFFFF` in 32-bit arithmetic |
| PacketGeneration.SampleStep | project_pico_libs/packet_generation.c:50-53 | each sample advances `file_position` by 2 modulo 2^16 |
| PacketGeneration.SampleDraws | project_pico_libs/packet_generation.c:56-57 | the second draw is the generator's seed after the sample |
| PacketGeneration.Samples | project_pico_libs/packet_generation.c:78-79 | k calls give k samples |
| PacketGeneration.SamplesAdvancePosition | project_pico_libs/packet_generation.c:53 | k samples advance `file_position` by 2k modulo 2^16 |
| PacketGeneration.SamplesFromStart | project_pico_libs/packet_generation.c:50-51 | from file position 0 the samples do not depend on the previous seed, since it is reset to 0xABCD |
| PacketGeneration.BigEndian | project_pico_libs/packet_generation.c:80-81 | two bytes per sample |
| PacketGeneration.Split16 | project_pico_libs/packet_generation.c:80-81 | the two bytes of a sample, high byte first, give the sample back |
| PacketGeneration.BigEndianDecodes | project_pico_libs/packet_generation.c:78-82 | every byte pair of the output decodes to its sample |
| PacketGeneration.SampleBytesAreCExpressions | project_pico_libs/packet_generation.c:80-81 | the two bytes are `sample >> 8` and `sample & 0x00FF` |
| PacketGeneration.PacketGenerator.constructor | project_pico_libs/packet_generation.c:48 | the generator starts at file position 0 with the default seed |
| PacketGeneration.PacketGenerator.Rnd | project_pico_libs/packet_generation.c:36-42 | `rnd` replaces the seed by its LCG successor and returns it |
| PacketGeneration.PacketGenerator.GenerateSample | project_pico_libs/packet_generation.c:49-60 | the state advances as `SampleStep` and the sample is the shape of the two draws |
| PacketGeneration.PacketGenerator.GenerateData | project_pico_libs/packet_generation.c:67-83 | the buffer gets the optional big-endian file position and then one big-endian sample per byte pair, as `GeneratedData` says; nothing else changes |
| PacketGeneration.PacketGenerator.FillSamples | project_pico_libs/packet_generation.c:78-82 | the loop writes `count` samples big-endian from `start` and advances the state as `Samples` does |
| PacketGeneration.GeneratedData | project_pico_libs/packet_generation.c:67-83 | the bytes written are the index (if any) plus the length rounded up to even |
| PacketGeneration.SampleCount | project_pico_libs/packet_generation.c:78 | the loop runs once per byte pair after the index |
| PacketGeneration.GeneratedDataLayout | project_pico_libs/packet_generation.c:72-82 | the first two bytes hold `file_position` from before any sampling, each later pair is the next sample, and the position advances by 2 per sample |
| PacketGeneration.Filled | project_pico_libs/packet_generation.c:78-82 | writing bytes into the buffer keeps its length |
| PacketGeneration.FilledParts | project_pico_libs/packet_generation.c:78-82 | the bytes before and after the written range are unchanged |
| CommandReceiver.CString | carrier-receiver-baseband/command_receiver.c:44-50 | `sscanf` reads the stored line up to its first NUL: a prefix without NUL, followed by the NUL when shorter |
| CommandReceiver.CStringTerminated | carrier-receiver-baseband/command_receiver.c:44 | the NUL written at `buff_pos` ends the string at the stored characters |
| CommandReceiver.SkipSpace | carrier-receiver-baseband/command_receiver.c:50 | a space in the format skips white space: the rest starts with no white space |
| CommandReceiver.DigitRun | carrier-receiver-baseband/command_receiver.c:50 | `%u` consumes the longest run of digits |
| CommandReceiver.Matched | carrier-receiver-baseband/command_receiver.c:50-52 | `sscanf` on an empty line returns EOF (-1); otherwise the char plus the numbers matched, all n + 1 exactly when n numbers follow |
| CommandReceiver.Unsigned | carrier-receiver-baseband/command_receiver.c:49-50 | a parsed value that fits 32 bits is stored unchanged |
| CommandReceiver.Classify | carrier-receiver-baseband/command_receiver.c:50-134 | 'c' exactly for a 'c' with four numbers (carrying them), 'b' exactly for a 'b' with three (value4 = 0), 'h', 's' or 't' exactly for that letter with fewer than three numbers (values 0), and 'e' with values 0 otherwise |
| CommandReceiver.DigitValues | carrier-receiver-baseband/command_receiver.c:50 | the values of single digits, in order |
| CommandReceiver.ScanSpaced | carrier-receiver-baseband/command_receiver.c:50 | space-separated single digits scan to their values |
| CommandReceiver.FieldsOfSpaced | carrier-receiver-baseband/command_receiver.c:50 | a letter followed by spaced digits has those digits as its fields |
| CommandReceiver.ErrorUnlessCommandLetter | carrier-receiver-baseband/command_receiver.c:85-132 | a line starting with any letter other than c, b, h, s, t is an error event |
| CommandReceiver.ClassifyExamples | carrier-receiver-baseband/command_receiver.c:50-134 | "c 1 2 3 4" is c(1,2,3,4); "b 1 2 3 4" is an error; "h 1" is h; "h 1 2 3" is an error |
| CommandReceiver.StoreOf | carrier-receiver-baseband/command_receiver.c:43-44 | each pass stores at index `buff_pos`: the NUL when a line completes, which keeps the line's C string, else the input character |
| CommandReceiver.OverlongLineOverflows | carrier-receiver-baseband/command_receiver.c:136-138 | as written, the 100th stored character leaves `buff_pos` at 100, and the next pass stores its NUL or character at index 100, one past the end of `command[100]` |
| CommandReceiver.FeedKeepsBounds | carrier-receiver-baseband/command_receiver.c:32-58 | with the bound, the line never reaches 100 characters and the queue never exceeds 10 |
| CommandReceiver.FeedAgreesWhileRoom | carrier-receiver-baseband/command_receiver.c:43-138 | the bounded accumulator is the written one while the line has room |
| CommandReceiver.FeedEmits | carrier-receiver-baseband/command_receiver.c:43-135 | only a terminator after a non-empty line changes the queue; it offers the line's classification and resets the line |
| CommandReceiver.LineEndAtStartStored | carrier-receiver-baseband/command_receiver.c:43-138 | a terminator at `buff_pos` 0 is stored as a character |
| CommandReceiver.FeedChars | carrier-receiver-baseband/command_receiver.c:136-138 | characters that are not terminators are appended to the line |
| CommandReceiver.FeedAllStep | carrier-receiver-baseband/command_receiver.c:40-42 | the loop takes one input at a time |
| CommandReceiver.FeedAllAppend | carrier-receiver-baseband/command_receiver.c:40-42 | feeding two inputs in a row is feeding the first, then the second |
| CommandReceiver.FeedLine | carrier-receiver-baseband/command_receiver.c:43-138 | characters followed by `\n` or `\r` offer the classification of the whole line and leave an empty line |
| CommandReceiver.CrLfShiftsNextCommand | carrier-receiver-baseband/command_receiver.c:43-138 | with CRLF line ends the `\n` is stored at the start of the next line, which then classifies as an error |
| CommandReceiver.NewlineFirstIsError | carrier-receiver-baseband/command_receiver.c:43-58 | a line starting with a stored `\n` is an error event |
| CommandReceiver.CommandReader.constructor | carrier-receiver-baseband/command_receiver.c:31-38 | the line is empty and the queue drained |
| CommandReceiver.CommandReader.ReadInput | carrier-receiver-baseband/command_receiver.c:42-139 | one pass of the loop changes the line and the queue as `Feed` does, in the 100-byte array |
| CommandReceiver.CommandReader.QueuedCommand | carrier-receiver-baseband/command_receiver.c:143-145 | true exactly when the queue is non-empty |
| CommandReceiver.CommandReader.GetCommand | carrier-receiver-baseband/command_receiver.c:147-149 | on an empty queue returns false and changes nothing; otherwise removes and returns the head |
| BasebandMain.FrameDimensions | carrier-receiver-baseband/main.c:79-80 | the FIFO buffer has `buffer_size(14, 10)` = 6 words covering the 24-byte frame exactly, and the message array is 4 `buffer_size(16, 10)` = 28 bytes |
| BasebandMain.Frame | carrier-receiver-baseband/main.c:128-130 | a frame is 24 bytes |
| BasebandMain.FrameFields | carrier-receiver-baseband/main.c:128-130 | the frame is the template's 8 bytes, the length byte (the bytes after it), the sequence number and the 14 payload bytes at offset 10 |
| BasebandMain.FrameReachesReceiver | carrier-receiver-baseband/main.c:113-120 | the frame's length byte counts the sequence byte and payload, and the receiver's decoding of the frame after its sync word gives back the length byte, sequence number and payload with the radio's RSSI and CRC/LQI |
| BasebandMain.WordBytes | carrier-receiver-baseband/main.c:134 | a 32-bit word as four bytes |
| BasebandMain.WordBytesOfPackWord | carrier-receiver-baseband/main.c:133-135 | the word packed from message[4i..4i+4] gives those four bytes back, most significant first |
| BasebandMain.PackWordOfWordBytes | carrier-receiver-baseband/main.c:134 | packing a word's four bytes gives the word back |
| BasebandMain.PackWordIsCExpression | carrier-receiver-baseband/main.c:134 | the packed word is `m[4i+3] \| m[4i+2] << 8 \| m[4i+1] << 16 \| m[4i] << 24` |
| BasebandMain.PackWords | carrier-receiver-baseband/main.c:133-135 | n words |
| BasebandMain.UnpackPackWords | carrier-receiver-baseband/main.c:133-135 | the packed words hold exactly the first 4n message bytes, big-endian |
| BasebandMain.PackWordsPrefix | carrier-receiver-baseband/main.c:133-135 | packing reads only the first 4n bytes of the message |
| BasebandMain.PackFrame | carrier-receiver-baseband/main.c:133-135 | the loop fills the FIFO buffer with the packed first 24 message bytes |
| BasebandMain.BuildFrame | carrier-receiver-baseband/main.c:128-130 | `add_header` then `memcpy` leave the frame in message[0..24) and bytes 24-27 untouched |
| BasebandMain.CopyPayload | carrier-receiver-baseband/main.c:130 | `memcpy` copies the payload to offset 10 and changes nothing else |
| BasebandMain.TxWait | carrier-receiver-baseband/main.c:140 | the corrected wait is the smallest whole number of ms, plus 3, that covers the 32 bits per word on air |
| BasebandMain.TxWaitAtConfiguredRate | carrier-receiver-baseband/main.c:140 | from 64000 Bd up the written wait covers the frame; at 100000 Bd it is 4 ms where the corrected one is 5 ms |
| BasebandMain.TxWaitAsWrittenCutsFrame | carrier-receiver-baseband/main.c:140 | at 10000 Bd the written wait of 8 ms stops the carrier before the 19.2 ms frame is out; the corrected wait is 23 ms |
| BasebandMain.ReceiverSetup | carrier-receiver-baseband/main.c:95-99 | the receiver is tuned to carrier + centre offset, its deviation and data rate are at most the generator's and its bandwidth at least the minimum |
| BasebandMain.SetupKeepsBothMdmcfg4Fields | carrier-receiver-baseband/main.c:98-99 | after the data-rate and bandwidth writes MDMCFG4 holds both: the data-rate exponent in the low nibble, the bandwidth exponent and mantissa above |
| BasebandMain.DefaultReceiverSetup | carrier-receiver-baseband/main.c:96-99 | the default configuration tunes the receiver to 2456597222 Hz with every exponent fitting its field |
| BasebandMain.Baseband.constructor | carrier-receiver-baseband/main.c:79-103 | zeroed message and buffer arrays, sequence 0, `rx_ready` set and the template for the configured receiver |
| BasebandMain.Baseband.Step | carrier-receiver-baseband/main.c:107-146 | `rx_assert_evt` clears `rx_ready`; `rx_deassert_evt` copies the decoded payload into `rx_buffer` (the rest of it kept), prints it, the whole packet for lengths up to 62, and sets `rx_ready`; `no_evt` sends the next frame only when `rx_ready`, leaving it in `buffer` and bytes 0-23 of `message`, with the sequence number incremented mod 256; nothing else sends or touches `message`, `buffer`, `tx_payload_buffer` or `rx_buffer`, and bytes 24-27 of `message` never change |
| BasebandMain.Baseband.SendFrame | carrier-receiver-baseband/main.c:124-143 | the words sent, and left in `buffer`, are the packed frame of the next generated payload, the message tail is untouched and `seq` increments modulo 256 |
| Stats.Popcount | stats/functions.py:58-59 | the count of ones is 0 exactly for 0 |
| Stats.BitXor | stats/functions.py:67-68 | `^` is 0 exactly on equal values |
| Stats.XorBelow | stats/functions.py:67-68 | the XOR of two k-bit values is a k-bit value |
| Stats.PopcountBelow | stats/functions.py:58-59 | a k-bit value has at most k ones |
| Stats.ByteDistance | stats/functions.py:58-68 | two bytes differ in at most 8 bits |
| Stats.ErrorsUpTo | stats/functions.py:62-71 | the summed popcounts over the first n positions are 0 exactly when those positions agree |
| Stats.BitErrors | stats/functions.py:62-71 | `compute_bit_errors` is 0 exactly when the first min(PACKET_LEN, len(payload)) bytes equal the sequence's; defined only when that prefix is non-empty |
| Stats.ErrorsUpToBound | stats/functions.py:62-71 | over n byte positions there are at most 8n bit errors |
| Stats.BitErrorsBound | stats/functions.py:62-71 | a packet has at most 8 bit errors per compared byte, so at most 8 PACKET_LEN |
| Stats.RndIsFirmwareLcg | stats/functions.py:86-91 | the script's `rnd` is the firmware's LCG step `(seed * 1664525 + 1013904223) & 0xFFFFFFFF` (project_pico_libs/packet_generation.c:36-42) |
| Stats.HexDigitValue | stats/functions.py:54 | a hex digit's value is below 16 |
| Stats.HexDigits | stats/functions.py:54 | `int(x, 16)` succeeds exactly on hex digits |
| Stats.LStrip | stats/functions.py:41 | `lstrip` only removes characters |
| Stats.RStrip | stats/functions.py:41 | `rstrip` only removes characters |
| Stats.Word | stats/functions.py:54 | the next token of `split()` is the longest leading run of non-blank characters |
| Stats.ParseTokens | stats/functions.py:53-55 | parsing the tokens gives one value per token, in order |
| Stats.HexChar | project_pico_libs/receiver_CC2500.c:233 | the hex digit `%02x` prints for a nibble reads back as that nibble |
| Stats.Hex2 | project_pico_libs/receiver_CC2500.c:233 | `%02x` prints two hex digits, high nibble first |
| Stats.Slice | stats/functions.py:43-44 | Python's `x[a:b]` has min(b, len) - a characters, or none |
| Stats.ReadFrame | stats/functions.py:41-44 | a frame is dropped exactly when it contains "packet overflow" |
| Stats.HexIntOfHex2 | stats/functions.py:43-54 | `int(…, 16)` of a printed byte is the byte |
| Stats.HexTokens | stats/functions.py:54 | one token per byte |
| Stats.TokensOfJoined | stats/functions.py:54 | splitting the printed bytes gives one token per byte |
| Stats.ParseHexTokens | stats/functions.py:53-55 | parsing the tokens of printed bytes gives the bytes |
| Stats.ParseJoined | stats/functions.py:53-55 | `parse_payload` of the bytes as printed gives the bytes back, in order |
| Stats.PrintedIsJoined | project_pico_libs/receiver_CC2500.c:232-235 | the printed packet is the joined hex bytes and a trailing space |
| Stats.NoOverflowText | stats/functions.py:42 | text of hex digits and spaces never contains "packet overflow" |
| Stats.StripPrinted | stats/functions.py:41 | stripping the column gives the joined bytes |
| Stats.JoinedSequenceSlice | stats/functions.py:43 | characters 3-5 of a printed frame are the second byte, the sequence number |
| Stats.JoinedPayloadSlice | stats/functions.py:44 | from character 6 on a printed frame is the bytes after the sequence number |
| Stats.ReadPrintedFrame | stats/functions.py:41-44 | a frame printed by the receiver is kept, its `seq` is the sequence byte and its payload parses to the bytes after it |
| Stats.Wraps | stats/functions.py:76-80 | the wrap counter at index i is at most i |
| Stats.Unwrapped | stats/functions.py:77-82 | one unwrapped number per row |
| Stats.ReplaceSeq | stats/functions.py:74-83 | the loop's `new_seq` column is MAX_SEQ times the wrap count plus the logged sequence number |
| Stats.WrapsMonotonic | stats/functions.py:79-80 | the wrap count never decreases |
| Stats.WrapStep | stats/functions.py:79 | for a step of at most MAX_SEQ - 51 the sequence number drops by more than 50 exactly when the counter passes a multiple of MAX_SEQ |
| Stats.UnwrapRecoversCounter | stats/functions.py:74-83 | when the true counter starts below MAX_SEQ and never steps back or jumps more than MAX_SEQ - 51, `replace_seq` recovers it exactly |
| Stats.WrapsCountTurns | stats/functions.py:76-80 | the wrap count is the number of whole turns of the true counter |
| Stats.TallyStep | stats/functions.py:148-159 | one logged row keeps the number of slots; a row outside the slot range changes nothing; a row in range raises when nothing follows its index or `PACKET_LEN` is 0 |
| Stats.ShortRowRaises | stats/functions.py:62-71 | a row in the slot range whose payload is only the two index bytes makes `compute_ber` raise, whatever the other rows hold |
| Stats.TallyUpTo | stats/functions.py:146-159 | the loop keeps the number of slots |
| Stats.MinOf | stats/functions.py:170 | `min(l)` is an element no larger than any other |
| Stats.SlotError | stats/functions.py:165-172 | a slot with no reception costs 8 PACKET_LEN errors and one with receptions the minimum of its errors |
| Stats.SlotErrors | stats/functions.py:172 | one entry per slot |
| Stats.TallyStaysFailed | stats/functions.py:153-158 | once a row raises, the loop does not recover |
| Stats.TallyRows | stats/functions.py:146-159 | the loop gives the tally function's result |
| Stats.SumSlots | stats/functions.py:162-172 | the aggregation loop's counter is the total and its list the per-slot errors |
| Stats.ComputeBer | stats/functions.py:130-178 | `compute_ber`'s counter and file size are `Ber`'s |
| Stats.TallyStepBounded | stats/functions.py:158 | over bytes every recorded error is at most 8 PACKET_LEN |
| Stats.TallyBounded | stats/functions.py:146-159 | the bound holds for every slot after the loop |
| Stats.SlotErrorBound | stats/functions.py:165-172 | a slot costs at most 8 PACKET_LEN |
| Stats.TotalErrorsBound | stats/functions.py:162-172 | the counter is at most slots times 8 PACKET_LEN |
| Stats.FileSizeBits | stats/functions.py:140 | `file_size` = slots · PACKET_LEN · 8 |
| Stats.BerAtMostOne | stats/functions.py:130-178 | over byte payloads the counter never exceeds the file size: the BER is at most 1 |
| Stats.TotalErrorsZero | stats/functions.py:162-172 | the counter is 0 exactly when every slot holds an error-free reception |

## Left out

- SPI, GPIO and timing plumbing are not modelled as hardware. This covers chip select, `spi_*` transfers, `sleep_*`, `print_registers_rx`, `setupReceiver`/`setupCarrier`, `startCarrier`/`stopCarrier`, `RX_start_listen`/`RX_stop_listen` and `backscatter_send`. Register reads are inputs and writes are returned as operation lists.
- `printf` output is left out: the ERROR and WARNING messages of the generator and the script, and the printed register values. The exception is the printed deviation, which is a finding.
- The hardware calls in `backscatter_program_init` are left out: clearing instruction memory, `pio_add_program` and the state-machine configuration. The generator's own contract is modelled. A refused program leaves the buffer as it was, and the caller ignores the result.
- Floating point is not simulated. The `double`/`log2`/`floor`/`round` formulas of the codec and the generator are exact integer characterisations. This assumes double precision does not move a floor across an integer boundary.
- The Box–Muller body of `generate_sample` is a parameter, `shape`, of the two LCG draws. The same goes for the `data`/`generate_data` functions of the analysis script: the expected file is an input map from file position to bytes.
- Concurrency is left out: core 1 running `readInput_core1`, the settings mutex and interrupts that pre-empt the main loop. Queues are sequences that drop on full, and each call is atomic.
- `channspc_m` is a negative `double` converted to `uint8_t`, which is undefined in C. It does not matter with channel 0, so the byte written to MDMCFG0 is an input of `Cc2500.SetFrequency`.
- The Python script's text output is left out: the .pio assembly strings, comments, the C-SDK snippet, the file write and the kHz floats `fcenter`/`fdeviation`.
- The demo programs and `serial-print.py` are left out: serial I/O, regular expressions over live output and plots. Their BER helpers duplicate `stats/functions.py`.
- The boot code and forever loops of `baseband/main.c`, `carrier-CC2500/main.c` and `receiver-CC2500/main.c` are left out. The packing loop of `baseband/main.c` is the one modelled. The configured values in `receiver-CC2500/main.c` are used as a worked vector.
- Header/implementation mismatches are left out. Some headers declare `bool`/`uint32_t` results where the `.c` files return `void`, and `repeat` returns nothing. The model follows the `.c` files.
- The deviation-ceiling warnings are advisory output only.
- The `time_rx` and `rssi` columns of the log and the pandas `DataFrame` mechanics are left out. A log is a sequence of frame columns, or of (sequence number, payload) rows.
- CommandReceiver.Unsigned: a `%u` number that does not fit 32 bits saturates to 2^32 - 1 in the model, where C leaves the result undefined. A leading sign, which `%u` would accept, is not modelled.
- CommandReceiver.CommandReader.GetCommand: the event returned with `false` is unspecified, as the C leaves the caller's struct untouched.
- PacketGeneration.PacketGenerator.GenerateData: length 255 is excluded. There the `uint8_t` loop counter wraps and the loop never ends.
- Stats.HexDigits: Python's `int(x, 16)` also accepts a sign, a `0x` prefix and underscores. The receiver never prints them, so the model accepts hex digits only.
- Stats.BitErrors requires the reference sequence to be at least as long as the compared prefix, and the prefix to be non-empty. numpy raises on shorter sequences, and on an empty prefix, whose two empty float64 arrays `^` refuses. `Stats.TallyStep` models that case as a raise.
- Stats.ReplaceSeq requires at least one row. An empty log raises a `KeyError` at `df.seq[0]`.
- Stats.ComputeBer requires at least one row, for the same reason. It returns the counter and the file size rather than their quotient, and `None` when a row raises or the file size is 0.
- The `ceil` of a double is exact here, as in `BasebandMain.TxWait`.
- Receiver.SetDatarateRx requires r_data >= 25 Bd. Below that, including 0, `log2` is negative or minus infinity, and converting it to `uint8_t` is undefined in C.
- Receiver.SetFilterBandwidthRx requires 0 < bw <= 812500 Hz. At 0 the quotient is infinite, and above F_XOSC/32 the `log2` is negative; both conversions to `uint8_t` are undefined in C.
- Receiver.SetFrequencyDeviationRx requires f_dev >= 1587 Hz. Below that, including 0, `log2` is negative or minus infinity, and converting it to `uint8_t` is undefined in C.
- Backscatter.CorrectedBaud requires 0 < baud <= 250000000. Baud 0 is a `% 0`, and above 250 MHz the inner `round` gives 0, so the quotient is infinite and its conversion to `uint32_t` is undefined in C.
- BasebandMain.ReceiverSetup requires the configuration to meet the three setters' bounds above: a deviation of at least 1587 Hz, at least 25 Bd, and a minimum filter bandwidth in (0, 812500] Hz.

## Findings

| source | as written | input that shows it | evidently intended | confidence | as-written member | corrected member |
|---|---|---|---|---|---|---|
| project_pico_libs/backscatter.c:47-52 | `instructionCount` and the labels are `uint8_t`, so the capacity check sums wrapped counts | d0 = d1 = 4096, baud 30488, two antennas: every count is 256 and wraps to 0, so the check sees 11 words while the program has 2059 | refuse every program of 32 words or more | not executed | Backscatter.CheckOverflowExample | Backscatter.GeneratePioProgram |
| project_pico_libs/receiver_CC2500.c:303 | the printed deviation uses 8 + m + 1 | 347222 Hz: DEVIATN programs 330078 Hz, the firmware prints 355468 Hz | report F_XOSC (8 + m) 2^e / 2^17, the value programmed | not executed | Cc2500.DeviationPrintedExample | Receiver.SetFrequencyDeviationRx |
| carrier-receiver-baseband/command_receiver.c:136-138 | characters are stored at `command[buff_pos]` with no bound | a line of 100 characters without a terminator: the next character, or the NUL, is written at index 100 | keep the line within the 100-byte buffer | not executed | CommandReceiver.OverlongLineOverflows | CommandReceiver.FeedKeepsBounds |
| carrier-receiver-baseband/main.c:140 | the carrier stays on `ceil(words * 8000 / baud) + 3` ms, 8 symbols per word where the state machine sends 32 | DESIRED_BAUD 10000: 8 ms of carrier for a 6-word frame that needs 19.2 ms | keep the carrier on for the whole frame, `ceil(words * 32000 / baud) + 3` ms | not executed | BasebandMain.TxWaitAsWrittenCutsFrame | BasebandMain.TxWait |
