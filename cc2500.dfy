/**
 * The TI CC2500 transceiver as both radios drive it (receiver_CC2500.c, carrier_CC2500.c):
 * its constants, SPI transactions as data, and the Hz <-> register-field codec of sections 12,
 * 13, 16 and 21 of the CC2500 datasheet. The C code computes the fields with `double`,
 * `log2` and `floor`; here each field is characterised on exact integers and rationals
 * (an exponent is "the largest e with ...", a mantissa is a floor quotient).
 */
module Cc2500 {
  import opened Common
  import opened Bits

  /** The crystal frequency `F_XOSC`, in Hz. */
  const F_XOSC: int := 26_000_000

  /** Command strobes. */
  const SRES: byte := 0x30
  const SRX: byte := 0x34
  const STX: byte := 0x35
  const SIDLE: byte := 0x36
  const SFRX: byte := 0x3A

  /** Register addresses the codec writes. */
  const CHANNR: byte := 0x0A
  const FREQ2: byte := 0x0D
  const FREQ1: byte := 0x0E
  const FREQ0: byte := 0x0F
  const MDMCFG4: byte := 0x10
  const MDMCFG3: byte := 0x11
  const MDMCFG1: byte := 0x13
  const MDMCFG0: byte := 0x14
  const DEVIATN: byte := 0x15

  const TWO_14: int := 0x4000
  const TWO_16: int := 0x1_0000
  const TWO_17: int := 0x2_0000
  const TWO_20: int := 0x10_0000
  const TWO_23: int := 0x80_0000
  const TWO_28: int := 0x1000_0000

  /** `RF_setting`: one register address and the value written to (or read from) it. */
  datatype RfSetting = RfSetting(address: byte, value: byte)

  /**
   * One SPI transaction with the chip: a command strobe, register writes under one chip select,
   * a single-register read (the value it returns is an input of the operation that issues it),
   * or raw bytes.
   */
  datatype SpiOp =
    | Strobe(command: byte)
    | WriteRegisters(settings: seq<RfSetting>)
    | ReadRegister(address: byte)
    | WriteBytes(bytes: seq<byte>)

  function Addresses(settings: seq<RfSetting>): (r: seq<byte>)
    ensures |r| == |settings|
    ensures forall i :: 0 <= i < |r| ==> r[i] == settings[i].address
  {
    if settings == [] then [] else [settings[0].address] + Addresses(settings[1..])
  }

  // ---------------------------------------------------------------------------
  // Exponents: floor(log2(n / d))
  // ---------------------------------------------------------------------------

  /** floor(log2(n / d)) for n >= d > 0: the largest e with d * 2^e <= n. */
  function FloorLog2Ratio(n: nat, d: nat): (e: nat)
    requires 0 < d <= n
    ensures d * Pow2(e) <= n < d * Pow2(e + 1)
    decreases n - d
  {
    if n < 2 * d then 0
    else
      var e := FloorLog2Ratio(n, 2 * d);
      DoubleShift(d, e);
      DoubleShift(d, e + 1);
      e + 1
  }

  /** Doubling the divisor is one more power of two. */
  lemma DoubleShift(d: nat, e: nat)
    ensures (2 * d) * Pow2(e) == d * Pow2(e + 1)
  {
    var p := Pow2(e);
    assert Pow2(e + 1) == 2 * p;
    MulDouble(d, p);
  }

  /** The characterisation determines the exponent: no other e satisfies it. */
  lemma FloorLog2Unique(n: nat, d: nat, e: nat)
    requires 0 < d <= n
    requires d * Pow2(e) <= n < d * Pow2(e + 1)
    ensures FloorLog2Ratio(n, d) == e
  {
    var f := FloorLog2Ratio(n, d);
    Pow2Below(d, e, f + 1);
    Pow2Below(d, f, e + 1);
  }

  /** d * 2^a < d * 2^b forces a < b. */
  lemma Pow2Below(d: nat, a: nat, b: nat)
    requires d > 0 && d * Pow2(a) < d * Pow2(b)
    ensures a < b
  {
    if a >= b {
      Pow2Monotonic(b, a);
      MulMono(Pow2(b), Pow2(a), d);
    }
  }

  // ---------------------------------------------------------------------------
  // Quotient arithmetic used by every field
  // ---------------------------------------------------------------------------

  /**
   * Quantising x in units of `unit` when it lies in [k, 2k) units: the quotient is in [k, 2k),
   * rounding it down never increases a further floor division, and one more unit exceeds x.
   */
  lemma Quantise(x: int, unit: int, k: int, den: int)
    requires unit > 0 && den > 0 && k * unit <= x < 2 * k * unit
    ensures k <= x / unit < 2 * k
    ensures (x / unit) * unit / den <= x / den
    ensures x < (x / unit + 1) * unit
  {
    QuotientBetween(x, unit, k, 2 * k);
    QuotientBrackets(x, unit);
    DivMonotonic((x / unit) * unit, x, den);
  }

  /** Products of three factors regrouped: a * b * c == a * (c * b) and == b * (a * c). */
  lemma Reassociate(a: int, b: int, c: int)
    ensures a * b * c == b * (a * c) && a * b * c == a * (c * b)
  {
  }

  /** A quotient lies between lo and hi - 1 when lo * d <= x < hi * d. */
  lemma QuotientBetween(x: int, d: int, lo: int, hi: int)
    requires d > 0 && lo * d <= x < hi * d
    ensures lo <= x / d < hi
  {
    var q := x / d;
    DivMod(x, d);
    MulSucc(q, d);
    MulLess(q, hi, d);
    MulLess(lo, q + 1, d);
  }

  /** q * d <= x < (q + 1) * d for q = x / d. */
  lemma QuotientBrackets(x: int, d: int)
    requires d > 0
    ensures (x / d) * d <= x < (x / d + 1) * d
  {
    DivMod(x, d);
    MulSucc(x / d, d);
  }

  /** Dividing a smaller numerator gives a smaller quotient. */
  lemma DivMonotonic(a: int, b: int, c: int)
    requires c > 0 && a <= b
    ensures a / c <= b / c
  {
    QuotientBrackets(a, c);
    QuotientBrackets(b, c);
    MulLess(a / c, b / c + 1, c);
  }

  /** floor(x / c) >= q when q * c <= x, and floor(x / c) < q when x < q * c. */
  lemma DivAgainst(x: int, c: int, q: int)
    requires c > 0
    ensures q * c <= x ==> q <= x / c
    ensures x < q * c ==> x / c < q
  {
    QuotientBrackets(x, c);
    if q * c <= x {
      MulLess(q, x / c + 1, c);
    }
    if x < q * c {
      MulLess(x / c, q, c);
    }
  }

  // ---------------------------------------------------------------------------
  // Data rate (datasheet section 12): MDMCFG4[3:0] = DRATE_E, MDMCFG3 = DRATE_M
  // ---------------------------------------------------------------------------

  /** `drate_e`: floor(log2(r * 2^20 / F_XOSC)). */
  function DataRateExponent(r: nat): (e: nat)
    requires r * TWO_20 >= F_XOSC
    ensures F_XOSC * Pow2(e) <= r * TWO_20 < F_XOSC * Pow2(e + 1)
  {
    FloorLog2Ratio(r * TWO_20, F_XOSC)
  }

  /** `drate_m`: floor(r * 2^28 / (F_XOSC * 2^e) - 256). */
  function DataRateMantissa(r: nat, e: nat): int
  {
    r * TWO_28 / (F_XOSC * Pow2(e)) - 256
  }

  /** The data rate the fields select: floor((256 + m) * 2^e * F_XOSC / 2^28). */
  function DataRateOf(e: nat, m: int): int
  {
    (256 + m) * Pow2(e) * F_XOSC / TWO_28
  }

  /**
   * The quantised data rate: the mantissa fills its 8 bits, the rate the chip runs at is at most
   * the request, and the next mantissa would overshoot it.
   */
  lemma DataRateQuantisation(r: nat)
    requires r * TWO_20 >= F_XOSC
    ensures var e := DataRateExponent(r);
      var m := DataRateMantissa(r, e);
      0 <= m <= 255 && DataRateOf(e, m) <= r && r * TWO_28 < (256 + m + 1) * Pow2(e) * F_XOSC
  {
    var e := DataRateExponent(r);
    var p := Pow2(e);
    var d := F_XOSC * p;
    var x := r * TWO_28;
    assert 256 * d <= x < 512 * d by {
      assert F_XOSC * Pow2(e + 1) == 2 * d;
    }
    Quantise(x, d, 256, TWO_28);
    var q := x / d;
    assert (256 + (q - 256)) * p * F_XOSC == q * d by { Reassociate(q, p, F_XOSC); }
    assert (256 + (q - 256) + 1) * p * F_XOSC == (q + 1) * d by { Reassociate(q + 1, p, F_XOSC); }
  }

  /** `drate_e` fits its `uint8_t` and `1 << drate_e` does not overflow: e <= 27 for a 32-bit rate. */
  lemma DataRateExponentSmall(r: u32)
    requires r * TWO_20 >= F_XOSC
    ensures DataRateExponent(r) <= 27
  {
    var e := DataRateExponent(r);
    Pow2Values();
    if e >= 28 {
      Pow2Monotonic(28, e);
      MulMono(TWO_28, Pow2(e), F_XOSC);
    }
  }

  // ---------------------------------------------------------------------------
  // Channel filter bandwidth (section 13): MDMCFG4[7:6] = CHANBW_E, MDMCFG4[5:4] = CHANBW_M
  // ---------------------------------------------------------------------------

  /** `chanbw_e`: floor(log2(F_XOSC / (2^5 * bw))). */
  function BandwidthExponent(bw: nat): (e: nat)
    requires 0 < bw && 32 * bw <= F_XOSC
    ensures 32 * bw * Pow2(e) <= F_XOSC < 32 * bw * Pow2(e + 1)
  {
    FloorLog2Ratio(F_XOSC, 32 * bw)
  }

  /** `chanbw_m`: floor(F_XOSC / (8 * bw * 2^e) - 4). */
  function BandwidthMantissa(bw: nat, e: nat): int
    requires bw > 0
  {
    F_XOSC / (8 * bw * Pow2(e)) - 4
  }

  /** The bandwidth the fields select: floor(F_XOSC / (8 * (4 + m) * 2^e)). */
  function BandwidthOf(e: nat, m: nat): int
  {
    F_XOSC / (8 * (4 + m) * Pow2(e))
  }

  /**
   * The quantised filter: the mantissa fits its 2 bits, the filter is at least as wide as
   * requested, and the next mantissa would make it narrower than the request.
   */
  lemma BandwidthQuantisation(bw: nat)
    requires 0 < bw && 32 * bw <= F_XOSC
    ensures var e := BandwidthExponent(bw);
      var m := BandwidthMantissa(bw, e);
      0 <= m <= 3 && BandwidthOf(e, m) >= bw && F_XOSC < bw * (8 * (4 + m + 1) * Pow2(e))
  {
    var e := BandwidthExponent(bw);
    var p := Pow2(e);
    var d := 8 * bw * p;
    assert 4 * d <= F_XOSC < 8 * d by {
      assert 32 * bw * p == 4 * d;
      assert 32 * bw * Pow2(e + 1) == 8 * d;
    }
    var q := F_XOSC / d;
    assert 4 <= q < 8 by { QuotientBetween(F_XOSC, d, 4, 8); }
    assert q * d <= F_XOSC < (q + 1) * d by { QuotientBrackets(F_XOSC, d); }
    var m := q - 4;
    assert m == BandwidthMantissa(bw, e);
    var c := 8 * q * p;
    assert c > 0 by { MulMono(1, q, 8 * p); }
    assert bw * c == q * d by { ProductSwap(bw, q, p); }
    assert bw * (8 * (q + 1) * p) == (q + 1) * d by { ProductSwap(bw, q + 1, p); }
    assert BandwidthOf(e, m) == F_XOSC / c;
    DivAgainst(F_XOSC, c, bw);
  }

  /** Reassociating the bandwidth divisor: a * (8 * b * p) == b * (8 * a * p). */
  lemma ProductSwap(a: int, b: int, p: int)
    ensures a * (8 * b * p) == b * (8 * a * p)
  {
  }

  /** `chanbw_e` <= 19: the widest request the characterisation admits is F_XOSC / 32. */
  lemma BandwidthExponentSmall(bw: nat)
    requires 0 < bw && 32 * bw <= F_XOSC
    ensures BandwidthExponent(bw) <= 19
  {
    var e := BandwidthExponent(bw);
    Pow2Values();
    if e >= 20 {
      Pow2Monotonic(20, e);
      MulMono(TWO_20, Pow2(e), 32 * bw);
    }
  }

  // ---------------------------------------------------------------------------
  // Frequency deviation (section 16): DEVIATN[6:4] = DEVIATION_E, DEVIATN[2:0] = DEVIATION_M
  // ---------------------------------------------------------------------------

  /** `deviation_e`: floor(log2(f * 2^14 / F_XOSC)). */
  function DeviationExponent(f: nat): (e: nat)
    requires f * TWO_14 >= F_XOSC
    ensures F_XOSC * Pow2(e) <= f * TWO_14 < F_XOSC * Pow2(e + 1)
  {
    FloorLog2Ratio(f * TWO_14, F_XOSC)
  }

  /** `deviation_m`: floor(f * 2^17 / (2^e * F_XOSC) - 8). */
  function DeviationMantissa(f: nat, e: nat): int
  {
    f * TWO_17 / (Pow2(e) * F_XOSC) - 8
  }

  /** The deviation the fields select (datasheet formula): floor(F_XOSC * (8 + m) * 2^e / 2^17). */
  function DeviationOf(e: nat, m: int): int
  {
    F_XOSC * (8 + m) * Pow2(e) / TWO_17
  }

  /**
   * The quantised deviation: the mantissa fits its 3 bits, the programmed deviation is at most
   * the request, and the next mantissa would overshoot it.
   */
  lemma DeviationQuantisation(f: nat)
    requires f * TWO_14 >= F_XOSC
    ensures var e := DeviationExponent(f);
      var m := DeviationMantissa(f, e);
      0 <= m <= 7 && DeviationOf(e, m) <= f && f * TWO_17 < F_XOSC * (8 + m + 1) * Pow2(e)
  {
    var e := DeviationExponent(f);
    var p := Pow2(e);
    var d := p * F_XOSC;
    var x := f * TWO_17;
    assert 8 * d <= x < 16 * d by {
      assert F_XOSC * Pow2(e + 1) == 2 * d;
    }
    Quantise(x, d, 8, TWO_17);
    var q := x / d;
    assert F_XOSC * (8 + (q - 8)) * p == q * d by { Reassociate(F_XOSC, q, p); }
    assert F_XOSC * (8 + (q - 8) + 1) * p == (q + 1) * d by { Reassociate(F_XOSC, q + 1, p); }
  }

  /**
   * The value `set_frequency_deviation_rx` prints as the new deviation:
   * floor(F_XOSC * (8 + m + 1) * 2^e / 2^17), one mantissa step above what it programs.
   */
  function DeviationPrintedAsWritten(e: nat, m: int): int
  {
    F_XOSC * (8 + m + 1) * Pow2(e) / TWO_17
  }

  /**
   * The printed deviation is never below the request, while the programmed one never exceeds it:
   * the printout reports the next mantissa's deviation, not the chip's.
   */
  lemma DeviationPrintedOverstates(f: nat)
    requires f * TWO_14 >= F_XOSC
    ensures var e := DeviationExponent(f);
      var m := DeviationMantissa(f, e);
      DeviationOf(e, m) <= f <= DeviationPrintedAsWritten(e, m)
  {
    var e := DeviationExponent(f);
    var m := DeviationMantissa(f, e);
    DeviationQuantisation(f);
    DivAgainst(F_XOSC * (8 + m + 1) * Pow2(e), TWO_17, f);
  }

  /**
   * At the deviation of the default tag settings (347222 Hz) the register gets DEVIATION_E = 7,
   * DEVIATION_M = 5, i.e. 330078 Hz, but 355468 Hz is printed.
   */
  lemma DeviationPrintedExample(f: nat)
    requires f == 347222
    ensures DeviationExponent(f) == 7 && DeviationMantissa(f, 7) == 5
    ensures DeviationOf(7, 5) == 330078 && DeviationPrintedAsWritten(7, 5) == 355468
  {
    Pow2Values();
    FloorLog2Unique(f * TWO_14, F_XOSC, 7);
  }

  /** `deviation_e` <= 21 for a 32-bit request, so `1 << deviation_e` does not overflow. */
  lemma DeviationExponentSmall(f: u32)
    requires f * TWO_14 >= F_XOSC
    ensures DeviationExponent(f) <= 21
  {
    var e := DeviationExponent(f);
    Pow2Values();
    if e >= 22 {
      Pow2Monotonic(22, e);
      MulMono(0x40_0000, Pow2(e), F_XOSC);
    }
  }

  lemma Pow2Values()
    ensures Pow2(2) == 4 && Pow2(3) == 8 && Pow2(4) == 16 && Pow2(6) == 64 && Pow2(7) == 128
    ensures Pow2(8) == 256 && Pow2(16) == TWO_16 && Pow2(20) == TWO_20 && Pow2(22) == 0x40_0000
    ensures Pow2(28) == TWO_28
  {
    Pow2Small(8);
    assert Pow2(4) == 16 && Pow2(7) == 128;
    Pow2Add(8, 8);
    Pow2Add(16, 4);
    Pow2Add(16, 6);
    Pow2Add(20, 8);
  }

  // ---------------------------------------------------------------------------
  // Register bytes
  // ---------------------------------------------------------------------------

  /** `x & 0xf0` of a register byte: its upper nibble, in place. */
  function HighNibble(x: byte): (r: byte)
    ensures r % 16 == 0 && r / 16 == x / 16
  {
    x - x % 16
  }

  /** MDMCFG4 after `set_datarate_rx`: the upper nibble kept, DRATE_E (`drate_e & 0x0f`) below it. */
  function DataRateField(prev: byte, e: nat): (r: byte)
    ensures r / 16 == prev / 16 && r % 16 == e % 16
  {
    HighNibble(prev) + e % 16
  }

  /**
   * MDMCFG4 after `set_filter_bandwidth_rx`: `((e & 3) << 6) + ((m & 3) << 4)` over the kept
   * lower nibble.
   */
  function BandwidthField(prev: byte, e: nat, m: nat): (r: byte)
    ensures r % 16 == prev % 16 && r / 64 == e % 4 && (r / 16) % 4 == m % 4
  {
    (e % 4) * 64 + (m % 4) * 16 + prev % 16
  }

  /** DEVIATN: `((e & 7) << 4) + (m & 7)`; bits 7 and 3 are zero. */
  function DeviationField(e: nat, m: nat): (r: byte)
    ensures r / 16 == e % 8 && r % 16 == m % 8
  {
    (e % 8) * 16 + m % 8
  }

  /**
   * The data-rate and bandwidth writes to MDMCFG4 touch disjoint bits, so they commute:
   * either order leaves the same register value.
   */
  lemma Mdmcfg4WritesCommute(prev: byte, de: nat, be: nat, bm: nat)
    ensures DataRateField(BandwidthField(prev, be, bm), de) == BandwidthField(DataRateField(prev, de), be, bm)
  {
  }

  /** The fields are the C expressions: masks by AND, shifts by multiplication. */
  lemma FieldsAreCExpressions(prev: byte, e: nat, m: nat)
    ensures HighNibble(prev) == BitAnd(0xF0, prev)
    ensures DataRateField(prev, e) == BitAnd(0xF0, prev) + BitAnd(0x0F, e)
    ensures BandwidthField(prev, e, m) == Shl(BitAnd(0x03, e), 6) + Shl(BitAnd(0x03, m), 4) + BitAnd(0x0F, prev)
    ensures DeviationField(e, m) == Shl(BitAnd(0x07, e), 4) + BitAnd(0x07, m)
  {
    Pow2Values();
    AndFieldMask(prev, 4, 4);
    ModUnique(prev / 16, 16, 0, prev / 16);
    AndLowMask(e, 4);
    AndLowMask(prev, 4);
    AndLowMask(e, 2);
    AndLowMask(m, 2);
    AndLowMask(e, 3);
    AndLowMask(m, 3);
  }

  // ---------------------------------------------------------------------------
  // Carrier frequency (section 21): FREQ2:FREQ1:FREQ0
  // ---------------------------------------------------------------------------

  /** `freq`: floor(f * 2^16 / F_XOSC), the 24-bit frequency word. */
  function FrequencyWord(f: u32): (freq: nat)
    ensures freq * F_XOSC <= f * TWO_16 < (freq + 1) * F_XOSC
    ensures freq < 0x100_0000
  {
    QuotientBrackets(f * TWO_16, F_XOSC);
    DivAgainst(f * TWO_16, F_XOSC, 0x100_0000);
    f * TWO_16 / F_XOSC
  }

  /** The carrier the chip synthesises for a frequency word on channel 0: floor(F_XOSC * freq / 2^16). */
  function FrequencyOf(freq: nat): int
  {
    F_XOSC * freq / TWO_16
  }

  /** The synthesised carrier is at most the request and within one step (F_XOSC / 2^16, about 397 Hz) of it. */
  lemma FrequencyQuantisation(f: u32)
    ensures f - 397 <= FrequencyOf(FrequencyWord(f)) <= f
  {
    var freq := FrequencyWord(f);
    DivMonotonic(F_XOSC * freq, f * TWO_16, TWO_16);
    assert (f * TWO_16) / TWO_16 == f;
    assert (f - 397) * TWO_16 < F_XOSC * freq;
    DivAgainst(F_XOSC * freq, TWO_16, f - 397);
  }

  /** FREQ2, FREQ1, FREQ0: bits 22-16 (`(freq & 0x7f0000) >> 16`), 15-8 and 7-0 of the word. */
  function FrequencyBytes(freq: nat): (r: seq<byte>)
    ensures |r| == 3
  {
    [(freq / TWO_16) % 128, (freq / 256) % 256, freq % 256]
  }

  /** The three bytes are the C expressions `(freq & 0x7f0000) >> 16`, `(freq & 0xff00) >> 8`, `freq & 0xff`. */
  lemma FrequencyBytesAreCExpressions(freq: nat)
    ensures FrequencyBytes(freq) == [BitAnd(0x7F_0000, freq) / TWO_16, BitAnd(0xFF00, freq) / 256, BitAnd(0xFF, freq)]
  {
    assert Pow2(0) == 1 && Pow2(7) == 128 && Pow2(8) == 256 && Pow2(16) == TWO_16 by {
      Pow2Values();
    }
    AndFieldShifted(freq, 7, 16, 0x7F_0000, TWO_16, 128);
    AndFieldShifted(freq, 8, 8, 0xFF00, 256, 256);
    AndFieldShifted(freq, 8, 0, 0xFF, 1, 256);
  }

  /**
   * The bytes reassemble to the word modulo 2^23: bit 23 is masked off, so the word survives
   * whole exactly for carriers below 2^23 * F_XOSC / 2^16 (about 3.33 GHz).
   */
  lemma FrequencyBytesReassemble(freq: nat)
    ensures var b := FrequencyBytes(freq);
      (b[0] as int) * TWO_16 + (b[1] as int) * 256 + b[2] as int == freq % TWO_23
  {
    var hi, mid, lo := (freq / TWO_16) % 128, (freq / 256) % 256, freq % 256;
    DivMod(freq, TWO_16);
    DivMod(freq / TWO_16, 128);
    DivMod(freq % TWO_16, 256);
    DivMod(freq, 256);
    DivMod(freq / 256, 256);
    assert (freq % TWO_16) / 256 == mid && (freq % TWO_16) % 256 == lo by {
      var q := freq / TWO_16;
      ModUnique(freq, 256, q * 256 + (freq % TWO_16) / 256, (freq % TWO_16) % 256);
      ModUnique(freq / 256, 256, q, (freq % TWO_16) / 256);
    }
    ModUnique(freq, TWO_23, (freq / TWO_16) / 128, hi * TWO_16 + mid * 256 + lo);
  }

  /** The channel-spacing exponent `channspc_e` is fixed at 0; channel 0 is used. */
  const CHANNSPC_E: nat := 0
  const CHANNEL: byte := 0

  /** What a setter does: the SPI transactions it issues and the value it reports as configured. */
  datatype Setup = Setup(ops: seq<SpiOp>, reported: int)

  /**
   * `set_frecuency_rx` (receiver) and `set_frecuency_tx` (carrier), which are the same code:
   * strobe idle, read MDMCFG1, then write CHANNR, FREQ2/1/0, MDMCFG1 (upper nibble kept,
   * `channspc_e & 3` below) and MDMCFG0. The value written to MDMCFG0 (`channspc_m`) is an input.
   * The reported carrier is the one channel 0 gives.
   */
  function SetFrequency(f: u32, mdmcfg1: byte, channspcM: byte): (s: Setup)
    ensures ProgramsCarrier(s.ops, f, mdmcfg1, channspcM)
    ensures f - 397 <= s.reported <= f
  {
    var freq := FrequencyWord(f);
    var b := FrequencyBytes(freq);
    FrequencyBytesReassemble(freq);
    FrequencyQuantisation(f);
    Setup([Strobe(SIDLE), ReadRegister(MDMCFG1),
           WriteRegisters([RfSetting(CHANNR, CHANNEL), RfSetting(FREQ2, b[0]), RfSetting(FREQ1, b[1]),
                           RfSetting(FREQ0, b[2]), RfSetting(MDMCFG1, HighNibble(mdmcfg1) + CHANNSPC_E % 4),
                           RfSetting(MDMCFG0, channspcM)])],
          FrequencyOf(freq))
  }

  /**
   * What programming the carrier does: idle first, then the read, then one burst that sets the
   * channel to 0, the frequency word (modulo 2^23), MDMCFG1 with its upper nibble preserved and
   * channel-spacing exponent 0, and MDMCFG0.
   */
  predicate ProgramsCarrier(ops: seq<SpiOp>, f: u32, mdmcfg1: byte, channspcM: byte)
  {
    |ops| == 3 && ops[0] == Strobe(SIDLE) && ops[1] == ReadRegister(MDMCFG1) && ops[2].WriteRegisters?
    && var s := ops[2].settings;
    |s| == 6
    && Addresses(s) == [CHANNR, FREQ2, FREQ1, FREQ0, MDMCFG1, MDMCFG0]
    && s[0].value == 0
    && (s[1].value as int) * TWO_16 + (s[2].value as int) * 256 + s[3].value as int == FrequencyWord(f) % TWO_23
    && s[4].value / 16 == mdmcfg1 / 16 && s[4].value % 16 == 0
    && s[5].value == channspcM
  }

  /** Below 2^23 steps (about 3.33 GHz, so over the whole 2.4 GHz band) the written bytes give the word back whole. */
  lemma CarrierWordRecovered(f: u32, mdmcfg1: byte, channspcM: byte)
    requires f < 3_000_000_000
    ensures var s := SetFrequency(f, mdmcfg1, channspcM).ops[2].settings;
      (s[1].value as int) * TWO_16 + (s[2].value as int) * 256 + s[3].value as int == FrequencyWord(f)
  {
    var freq := FrequencyWord(f);
    assert freq * F_XOSC <= f * TWO_16;
    if freq >= TWO_23 {
      MulMono(TWO_23, freq, F_XOSC);
    }
  }
}
