/**
 * Frame contents for the backscatter tag (packet_generation.c, packet_generation.h): the sync
 * header templates, the header written into a frame, the linear congruential generator behind
 * the payload samples, the file-position counter, and the word count of a frame.
 */
module PacketGeneration {
  import opened Common
  import opened Bits

  const PAYLOADSIZE: nat := 14
  /** 8 sync bytes, the length byte and the sequence number. */
  const HEADER_LEN: nat := 10
  const DEFAULT_SEED: u32 := 0xABCD

  /** The LCG constants of `rnd` (the Numerical Recipes generator). */
  const LCG_A: nat := 1664525
  const LCG_C: nat := 1013904223

  /** Preamble and sync word for the CC2500 receiver; the last two bytes are filled per frame. */
  const HEADER_2500: seq<byte> := [0xaa, 0xaa, 0xaa, 0xaa, 0xd3, 0x91, 0xd3, 0x91, 0x00, 0x00]
  /** Preamble and sync word for the CC1352P7 receiver. */
  const HEADER_1352: seq<byte> := [0xaa, 0xaa, 0xaa, 0xaa, 0x93, 0x0b, 0x51, 0xde, 0x00, 0x00]

  // ---------------------------------------------------------------------------
  // buffer_size
  // ---------------------------------------------------------------------------

  /** `buffer_size(x, y)`: the 32-bit FIFO words needed for x + y bytes, ceil((x + y) / 4). */
  function BufferSize(x: nat, y: nat): (r: nat)
  {
    if (x + y) % 4 == 0 then (x + y) / 4 else (x + y) / 4 + 1
  }

  /** The macro is the ceiling: the fewest words that hold x + y bytes. */
  lemma BufferSizeIsCeiling(x: nat, y: nat)
    ensures 4 * BufferSize(x, y) - 4 < x + y <= 4 * BufferSize(x, y)
    ensures BufferSize(x, y) == CeilDiv(x + y, 4)
  {
    var r := BufferSize(x, y);
    var c := CeilDiv(x + y, 4);
    assert 4 * c - 4 < x + y <= 4 * c by {
      if c > 0 {
        assert (c - 1) * 4 < x + y;
      }
    }
  }

  /**
   * The frame is 6 words (24 bytes); the tag's message array, sized with `PAYLOADSIZE + 2`, is
   * 7 words (28 bytes): the macro only adds its arguments, so the textual expansion is harmless.
   */
  lemma FrameSizes()
    ensures BufferSize(PAYLOADSIZE, HEADER_LEN) == 6
    ensures BufferSize(PAYLOADSIZE + 2, HEADER_LEN) == 7
  {
  }

  // ---------------------------------------------------------------------------
  // Header
  // ---------------------------------------------------------------------------

  /** `packet_hdr_template`: the CC2500 header for receiver 2500, the CC1352 one for anything else. */
  function PacketHdrTemplate(receiver: u16): (t: seq<byte>)
    ensures |t| == HEADER_LEN && t[..4] == [0xaa, 0xaa, 0xaa, 0xaa]
    ensures receiver == 2500 <==> t[4..8] == [0xd3, 0x91, 0xd3, 0x91]
    ensures receiver != 2500 <==> t[4..8] == [0x93, 0x0b, 0x51, 0xde]
  {
    assert HEADER_2500[4..8][0] != HEADER_1352[4..8][0];
    if receiver == 2500 then HEADER_2500 else HEADER_1352
  }

  /** The ten header bytes `add_header` produces: template bytes 0-7, then `1 + PAYLOADSIZE`, then the sequence number. */
  function Header(template: seq<byte>, sequence: byte): (h: seq<byte>)
    requires |template| >= HEADER_LEN - 2
    ensures |h| == HEADER_LEN
  {
    template[..HEADER_LEN - 2] + [1 + PAYLOADSIZE, sequence]
  }

  /**
   * The length byte counts the payload and the sequence number: what follows the length byte in
   * a frame of `HEADER_LEN + PAYLOADSIZE` bytes, as the CC2500 datasheet defines packet length.
   */
  lemma HeaderLengthByte(template: seq<byte>, sequence: byte)
    requires |template| >= HEADER_LEN - 2
    ensures Header(template, sequence)[HEADER_LEN - 2] == HEADER_LEN + PAYLOADSIZE - (HEADER_LEN - 1)
    ensures Header(template, sequence)[HEADER_LEN - 1] == sequence
    ensures Header(template, sequence)[..HEADER_LEN - 2] == template[..HEADER_LEN - 2]
  {
  }

  /** `add_header`: write the header into `packet[0..10)`; the rest of the packet is untouched. */
  method AddHeader(packet: array<byte>, sequence: byte, template: seq<byte>)
    requires packet.Length >= HEADER_LEN && |template| >= HEADER_LEN - 2
    modifies packet
    ensures packet[..HEADER_LEN] == Header(template, sequence)
    ensures packet[HEADER_LEN..] == old(packet[HEADER_LEN..])
  {
    var i := 0;
    while i < HEADER_LEN - 2
      invariant 0 <= i <= HEADER_LEN - 2
      invariant packet[..i] == template[..i]
      invariant packet[i..] == old(packet[i..])
    {
      packet[i] := template[i];
      i := i + 1;
      assert packet[..i] == packet[..i - 1] + [template[i - 1]];
    }
    packet[HEADER_LEN - 2] := 1 + PAYLOADSIZE;
    packet[HEADER_LEN - 1] := sequence;
    assert packet[..HEADER_LEN] == packet[..HEADER_LEN - 2] + [packet[HEADER_LEN - 2], packet[HEADER_LEN - 1]];
  }

  // ---------------------------------------------------------------------------
  // The generator
  // ---------------------------------------------------------------------------

  /** One step of `rnd`: (seed * 1664525 + 1013904223) mod 2^32. */
  function Lcg(seed: u32): (next: u32)
  {
    (seed * LCG_A + LCG_C) % U32_MOD
  }

  /**
   * The C code computes in `uint32_t`, wrapping after the multiplication and again after the
   * addition, then masks with 0xFFFFFFFF; reducing once at the end gives the same value.
   */
  lemma LcgIsUint32Arithmetic(seed: u32)
    ensures Lcg(seed) == BitAnd(0xFFFF_FFFF, (seed * LCG_A % U32_MOD + LCG_C) % U32_MOD)
    ensures Lcg(seed) == BitAnd(0xFFFF_FFFF, seed * LCG_A + LCG_C)
  {
    MaskedSum(seed * LCG_A, LCG_C);
  }

  /** Masking with 0xFFFFFFFF is reduction modulo 2^32, before or after an early reduction. */
  lemma MaskedSum(x: nat, c: nat)
    ensures BitAnd(0xFFFF_FFFF, (x % U32_MOD + c) % U32_MOD) == (x + c) % U32_MOD
    ensures BitAnd(0xFFFF_FFFF, x + c) == (x + c) % U32_MOD
  {
    Pow2Value32();
    AndLowMask((x % U32_MOD + c) % U32_MOD, 32);
    AndLowMask(x + c, 32);
    ReduceEarly(x, c, U32_MOD);
  }

  /** Reducing the first addend early does not change the sum's remainder. */
  lemma ReduceEarly(x: nat, c: nat, m: nat)
    requires m > 0
    ensures (x % m + c) % m == (x + c) % m
    ensures ((x % m + c) % m) % m == (x % m + c) % m
  {
    var q1, r1 := x / m, x % m;
    DivMod(x, m);
    var q2, r2 := (r1 + c) / m, (r1 + c) % m;
    DivMod(r1 + c, m);
    assert (q1 + q2) * m == q1 * m + q2 * m;
    ModUnique(x + c, m, q1 + q2, r2);
    ModUnique(r2, m, 0, r2);
  }

  lemma Pow2Value32()
    ensures Pow2(32) == U32_MOD && Pow2(32) - 1 == 0xFFFF_FFFF
  {
    Pow2Small(8);
    Pow2Add(8, 8);
    Pow2Add(16, 16);
  }

  /** `seed` and `file_position`, the generator's state. */
  datatype GenState = GenState(seed: u32, filePosition: u16)

  /**
   * The state after one `generate_sample`: the seed restarts at `DEFAULT_SEED` whenever the file
   * position is 0, then `rnd` runs twice (for u1 and u2) and the position advances by 2 modulo 2^16.
   */
  function SampleStep(st: GenState): (r: GenState)
    ensures r.filePosition == (st.filePosition + 2) % 0x1_0000
  {
    var s0 := if st.filePosition == 0 then DEFAULT_SEED else st.seed;
    GenState(Lcg(Lcg(s0)), (st.filePosition + 2) % 0x1_0000)
  }

  /** The two uniform draws (u1, u2) behind a sample, as raw `rnd` values. */
  function SampleDraws(st: GenState): (u1u2: (u32, u32))
    ensures u1u2.1 == SampleStep(st).seed
  {
    var s0 := if st.filePosition == 0 then DEFAULT_SEED else st.seed;
    (Lcg(s0), Lcg(Lcg(s0)))
  }

  /**
   * The states before each of k samples and the state after them; `shape` stands for the
   * floating-point Box-Muller transform that turns the draws into a sample.
   */
  function Samples(st: GenState, k: nat, shape: ((u32, u32)) -> u16): (r: (seq<u16>, GenState))
    ensures |r.0| == k
    decreases k
  {
    if k == 0 then ([], st)
    else
      var prev := Samples(st, k - 1, shape);
      (prev.0 + [shape(SampleDraws(prev.1))], SampleStep(prev.1))
  }

  /** The file position counts the bytes sampled so far, modulo 2^16. */
  lemma {:induction false} SamplesAdvancePosition(st: GenState, k: nat, shape: ((u32, u32)) -> u16)
    ensures Samples(st, k, shape).1.filePosition == (st.filePosition + 2 * k) % 0x1_0000
  {
    if k > 0 {
      SamplesAdvancePosition(st, k - 1, shape);
      ReduceEarly(st.filePosition + 2 * (k - 1), 2, 0x1_0000);
    }
  }

  /**
   * The sample stream restarts with the file position: from position 0 the samples and the final
   * state do not depend on the seed, so every file the tag sends after a wrap is the same data.
   */
  lemma {:induction false} SamplesFromStart(a: u32, b: u32, k: nat, shape: ((u32, u32)) -> u16)
    requires k >= 1
    ensures Samples(GenState(a, 0), k, shape) == Samples(GenState(b, 0), k, shape)
  {
    if k > 1 {
      SamplesFromStart(a, b, k - 1, shape);
    }
  }

  /** Samples as bytes, two per sample, high byte first (`(uint8_t)(sample >> 8)`, `sample & 0x00FF`). */
  function BigEndian(samples: seq<u16>): (bytes: seq<byte>)
    ensures |bytes| == 2 * |samples|
  {
    if samples == [] then [] else BigEndian(samples[..|samples| - 1]) + Split16(samples[|samples| - 1])
  }

  function Split16(s: u16): (b: seq<byte>)
    ensures |b| == 2 && (b[0] as int) * 256 + b[1] as int == s
  {
    [s / 256, s % 256]
  }

  /** The big-endian 16-bit value of byte pair k. */
  function Word16At(bytes: seq<byte>, k: nat): int
    requires 2 * k + 1 < |bytes|
  {
    (bytes[2 * k] as int) * 256 + bytes[2 * k + 1] as int
  }

  /** Every byte pair of the encoding gives its sample back. */
  lemma {:induction false} BigEndianDecodes(samples: seq<u16>, i: nat)
    requires i < |samples|
    ensures Word16At(BigEndian(samples), i) == samples[i]
  {
    var n := |samples| - 1;
    var init := samples[..n];
    if i < n {
      BigEndianDecodes(init, i);
      assert init[i] == samples[i];
    }
  }

  /** The C byte expressions are the big-endian split. */
  lemma SampleBytesAreCExpressions(sample: u16)
    ensures sample / 256 == Pow2(8) * 0 + sample / Pow2(8) && sample % 256 == BitAnd(0xFF, sample)
  {
    Pow2Small(8);
    AndLowMask(sample, 8);
  }

  /**
   * `rnd`, `generate_sample` and `generate_data` share the globals `seed` and `file_position`;
   * this class holds them.
   */
  class PacketGenerator {
    var seed: u32
    var filePosition: u16

    /** The globals' initial values. */
    constructor()
      ensures seed == DEFAULT_SEED && filePosition == 0
    {
      seed := DEFAULT_SEED;
      filePosition := 0;
    }

    /** `rnd`: advance the seed one LCG step and return it. */
    method Rnd() returns (r: u32)
      modifies this
      ensures seed == Lcg(old(seed)) && r == seed
      ensures filePosition == old(filePosition)
    {
      seed := Lcg(seed);
      r := seed;
    }

    /** `generate_sample` with the transform of the two draws passed in as `shape`. */
    method GenerateSample(shape: ((u32, u32)) -> u16) returns (sample: u16)
      modifies this
      ensures GenState(seed, filePosition) == SampleStep(GenState(old(seed), old(filePosition)))
      ensures sample == shape(SampleDraws(GenState(old(seed), old(filePosition))))
    {
      if filePosition == 0 {
        seed := DEFAULT_SEED;
      }
      filePosition := (filePosition + 2) % 0x1_0000;
      var u1 := Rnd();
      var u2 := Rnd();
      sample := shape((u1, u2));
    }

    /**
     * `generate_data(buffer, length, include_index)`: the buffer's first bytes become
     * `GeneratedData` and the rest is untouched. An odd length only draws a warning, and the last
     * sample then writes one byte past it; at 255 the 8-bit loop counter would wrap and never stop.
     */
    method GenerateData(buffer: array<byte>, length: byte, includeIndex: bool, shape: ((u32, u32)) -> u16)
      requires length < 255 && buffer.Length >= length + length % 2
      requires includeIndex ==> buffer.Length >= 2
      modifies this, buffer
      ensures var out := GeneratedData(GenState(old(seed), old(filePosition)), length, includeIndex, shape);
        GenState(seed, filePosition) == out.1 && buffer[..] == Filled(old(buffer[..]), 0, out.0)
    {
      ghost var st0 := GenState(seed, filePosition);
      ghost var b0 := buffer[..];
      var start: byte := 0;
      if includeIndex {
        buffer[0] := filePosition / 256;
        buffer[1] := filePosition % 256;
        start := 2;
      }
      var count := SampleCount(length, includeIndex);
      ghost var indexed := buffer[..];
      ghost var prefix := if includeIndex then Split16(st0.filePosition) else [];
      assert indexed == Filled(b0, 0, prefix);
      ghost var gen := Samples(st0, count, shape);
      ghost var bytes := BigEndian(gen.0);
      FillSamples(buffer, start, count, shape);
      FillAfterIndex(b0, indexed, prefix, bytes);
      GeneratedDataSplits(st0, length, includeIndex, shape, count);
    }

    /** The loop of `generate_data`: `count` samples into `buffer[start..start + 2 * count)`, high byte first. */
    method FillSamples(buffer: array<byte>, start: nat, count: nat, shape: ((u32, u32)) -> u16)
      requires start + 2 * count <= buffer.Length
      modifies this, buffer
      ensures var gen := Samples(GenState(old(seed), old(filePosition)), count, shape);
        GenState(seed, filePosition) == gen.1 && buffer[..] == Filled(old(buffer[..]), start, BigEndian(gen.0))
    {
      ghost var st0 := GenState(seed, filePosition);
      ghost var b0 := buffer[..];
      var i := start;
      ghost var j := 0;
      ghost var gen := Samples(st0, 0, shape);
      while i < start + 2 * count
        invariant i == start + 2 * j && j <= count
        invariant gen == Samples(st0, j, shape)
        invariant GenState(seed, filePosition) == gen.1
        invariant buffer[..] == Filled(b0, start, BigEndian(gen.0))
      {
        var sample := GenerateSample(shape);
        var pair := Split16(sample);
        buffer[i] := pair[0];
        buffer[i + 1] := pair[1];
        FillStep(b0, start, st0, j, shape);
        i := i + 2;
        j := j + 1;
        gen := Samples(st0, j, shape);
      }
    }
  }

  /** One more sample: its two bytes land right after those of the samples before it. */
  lemma FillStep(b: seq<byte>, start: nat, st: GenState, j: nat, shape: ((u32, u32)) -> u16)
    requires start + 2 * j + 2 <= |b|
    ensures var prev := Samples(st, j, shape);
      var pair := Split16(shape(SampleDraws(prev.1)));
      var i := start + 2 * j;
      && Samples(st, j + 1, shape).1 == SampleStep(prev.1)
      && Filled(b, start, BigEndian(prev.0))[i := pair[0]][i + 1 := pair[1]]
         == Filled(b, start, BigEndian(Samples(st, j + 1, shape).0))
  {
    var prev := Samples(st, j, shape);
    var sample := shape(SampleDraws(prev.1));
    SamplesSnoc(st, j, shape);
    BigEndianSnoc(prev.0, sample);
    FillPair(b, start, BigEndian(prev.0), Split16(sample));
  }

  /**
   * What `generate_data` writes and the generator state after it: with the index,
   * `file_position` big-endian (before any sampling), then one sample per loop step
   * (`SampleCount`). Two bytes per sample, high byte first.
   */
  function GeneratedData(st: GenState, length: nat, includeIndex: bool, shape: ((u32, u32)) -> u16): (r: (seq<byte>, GenState))
    ensures |r.0| == Max(if includeIndex then 2 else 0, length + length % 2)
  {
    var prefix := if includeIndex then Split16(st.filePosition) else [];
    var gen := Samples(st, SampleCount(length, includeIndex), shape);
    (prefix + BigEndian(gen.0), gen.1)
  }

  /** The steps of `for (i = data_start; i < length; i = i + 2)`. */
  function SampleCount(length: nat, includeIndex: bool): (n: nat)
    ensures var start := if includeIndex then 2 else 0;
      start + 2 * n == Max(start, length + length % 2)
  {
    var start := if includeIndex then 2 else 0;
    if length <= start then 0
    else
      var d := length - start;
      assert d % 2 == length % 2;
      (d + 1) / 2
  }

  /**
   * The data has the index (when asked for) in bytes 0-1, then sample k in bytes
   * `start + 2k` and `start + 2k + 1`; it ends at `length`, or one byte past an odd one. The
   * file position advances by two per sample.
   */
  lemma GeneratedDataLayout(st: GenState, length: nat, includeIndex: bool, shape: ((u32, u32)) -> u16)
    ensures var out := GeneratedData(st, length, includeIndex, shape);
      var start := if includeIndex then 2 else 0;
      var count := SampleCount(length, includeIndex);
      var samples := Samples(st, count, shape).0;
      && (includeIndex ==> Word16At(out.0, 0) == st.filePosition)
      && (forall k :: 0 <= k < count ==> Word16At(out.0[start..], k) == samples[k])
      && out.1.filePosition == (st.filePosition + 2 * count) % 0x1_0000
  {
    var start := if includeIndex then 2 else 0;
    var count := SampleCount(length, includeIndex);
    var samples := Samples(st, count, shape).0;
    var prefix := if includeIndex then Split16(st.filePosition) else [];
    var out := GeneratedData(st, length, includeIndex, shape);
    assert out.0[start..] == BigEndian(samples);
    assert includeIndex ==> out.0[..2] == prefix;
    forall k | 0 <= k < count
      ensures Word16At(out.0[start..], k) == samples[k]
    {
      BigEndianDecodes(samples, k);
    }
    SamplesAdvancePosition(st, count, shape);
  }

  /** `GeneratedData` is the optional index followed by `count` samples. */
  lemma GeneratedDataSplits(st: GenState, length: nat, includeIndex: bool, shape: ((u32, u32)) -> u16, count: nat)
    requires count == SampleCount(length, includeIndex)
    ensures var gen := Samples(st, count, shape);
      GeneratedData(st, length, includeIndex, shape)
      == ((if includeIndex then Split16(st.filePosition) else []) + BigEndian(gen.0), gen.1)
  {
  }

  /** `b` with `xs` written from index `start` on. */
  function Filled(b: seq<byte>, start: nat, xs: seq<byte>): (r: seq<byte>)
    requires start + |xs| <= |b|
    ensures |r| == |b|
  {
    b[..start] + xs + b[start + |xs|..]
  }

  /** Filling leaves the bytes before and after the range as they were and holds `xs` in it. */
  lemma FilledParts(b: seq<byte>, start: nat, xs: seq<byte>)
    requires start + |xs| <= |b|
    ensures var r := Filled(b, start, xs);
      r[..start] == b[..start] && r[start..start + |xs|] == xs && r[start + |xs|..] == b[start + |xs|..]
  {
  }

  /** Filling after a filled prefix is filling with the concatenation. */
  lemma FillAfterIndex(b: seq<byte>, indexed: seq<byte>, prefix: seq<byte>, xs: seq<byte>)
    requires |prefix| + |xs| <= |b| && indexed == Filled(b, 0, prefix)
    ensures Filled(indexed, |prefix|, xs) == Filled(b, 0, prefix + xs)
  {
  }

  /** Writing two more bytes right after the filled range extends it. */
  lemma FillPair(b: seq<byte>, start: nat, xs: seq<byte>, pair: seq<byte>)
    requires start + |xs| + 2 <= |b| && |pair| == 2
    ensures var i := start + |xs|;
      Filled(b, start, xs)[i := pair[0]][i + 1 := pair[1]] == Filled(b, start, xs + pair)
  {
    var i := start + |xs|;
    var lhs := Filled(b, start, xs)[i := pair[0]][i + 1 := pair[1]];
    var rhs := Filled(b, start, xs + pair);
    assert forall k :: 0 <= k < |b| ==> lhs[k] == rhs[k];
  }

  /** One more sample: the stream grows by the sample of the current state. */
  lemma SamplesSnoc(st: GenState, k: nat, shape: ((u32, u32)) -> u16)
    ensures var prev := Samples(st, k, shape);
      Samples(st, k + 1, shape) == (prev.0 + [shape(SampleDraws(prev.1))], SampleStep(prev.1))
  {
  }

  lemma BigEndianSnoc(samples: seq<u16>, s: u16)
    ensures BigEndian(samples + [s]) == BigEndian(samples) + Split16(s)
  {
    assert (samples + [s])[..|samples|] == samples;
  }
}
