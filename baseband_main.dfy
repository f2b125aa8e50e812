/**
 * The firmware that drives carrier, receiver and tag from one board
 * (carrier-receiver-baseband/main.c): the frame assembled from header and payload, its packing
 * into the 32-bit words of the state machine's FIFO, the time the carrier stays on, the order in
 * which the receiver is configured, and the event loop that backscatters a frame whenever the
 * receiver is listening.
 */
module BasebandMain {
  import opened Common
  import opened Bits
  import opened Cc2500
  import opened Receiver
  import opened PacketGeneration
  import Backscatter

  const TX_DURATION: nat := 250
  const RECEIVER: u16 := 2500
  const CLOCK_DIV0: u16 := 20
  const CLOCK_DIV1: u16 := 18
  const DESIRED_BAUD: u32 := 100000
  const TWOANTENNAS: bool := true
  const CARRIER_FEQ: u32 := 2450000000

  /** `buffer_size(PAYLOADSIZE, HEADER_LEN)`: the words of one frame, and its bytes. */
  const FRAME_WORDS: nat := 6
  const FRAME_LEN: nat := 24
  /** `message` is sized with `buffer_size(PAYLOADSIZE + 2, HEADER_LEN) * 4`. */
  const MESSAGE_LEN: nat := 28
  /** The state machine sends one symbol per bit of a FIFO word. */
  const BITS_PER_WORD: nat := 32

  lemma FrameDimensions()
    ensures FRAME_WORDS == BufferSize(PAYLOADSIZE, HEADER_LEN) && FRAME_LEN == 4 * FRAME_WORDS
    ensures FRAME_LEN == HEADER_LEN + PAYLOADSIZE
    ensures MESSAGE_LEN == 4 * BufferSize(PAYLOADSIZE + 2, HEADER_LEN)
  {
    FrameSizes();
  }

  // ---------------------------------------------------------------------------
  // The frame
  // ---------------------------------------------------------------------------

  /** `add_header` followed by the `memcpy` of the payload: the 24 bytes the tag sends. */
  function Frame(template: seq<byte>, sequence: byte, payload: seq<byte>): (f: seq<byte>)
    requires |template| >= HEADER_LEN - 2 && |payload| == PAYLOADSIZE
    ensures |f| == FRAME_LEN
  {
    Header(template, sequence) + payload
  }

  /**
   * The frame is sync bytes, a length byte that counts exactly the bytes after it, the sequence
   * number and the payload.
   */
  lemma {:induction false} FrameFields(template: seq<byte>, sequence: byte, payload: seq<byte>)
    requires |template| >= HEADER_LEN - 2 && |payload| == PAYLOADSIZE
    ensures var f := Frame(template, sequence, payload);
      f[..HEADER_LEN - 2] == template[..HEADER_LEN - 2]
      && f[HEADER_LEN - 2] == |f| - (HEADER_LEN - 1)
      && f[HEADER_LEN - 1] == sequence
      && f[HEADER_LEN..] == payload
  {
    HeaderLengthByte(template, sequence);
    var f := Frame(template, sequence, payload);
    assert f[..HEADER_LEN] == Header(template, sequence);
  }

  /**
   * What a CC2500 receiver makes of the frame: after the sync word its FIFO holds the length byte
   * and the 15 bytes it announces, followed by the RSSI and the CRC/LQI byte, so the byte count is
   * 18 and `readPacket` returns the length byte, the sequence number and the payload.
   */
  lemma {:induction false} FrameReachesReceiver(template: seq<byte>, sequence: byte, payload: seq<byte>,
                                                rssiRaw: byte, crcOk: bool, lqi: byte, rest: seq<byte>)
    requires |template| >= HEADER_LEN - 2 && |payload| == PAYLOADSIZE
    requires lqi < 128 && |rest| >= MAX_COPY + 2 - (PAYLOADSIZE + 4)
    ensures var f := Frame(template, sequence, payload);
      var quality: byte := (if crcOk then 128 else 0) + lqi;
      var packet := f[HEADER_LEN - 2..];
      f[HEADER_LEN - 2] + 1 == |packet|
      && DecodePacket(|packet| + 2, packet + [rssiRaw, quality] + rest)
         == Reception(Received(2 + PAYLOADSIZE, Rssi(rssiRaw), crcOk, lqi),
                      [(1 + PAYLOADSIZE) as byte, sequence] + payload)
  {
    var f := Frame(template, sequence, payload);
    FrameFields(template, sequence, payload);
    var packet := f[HEADER_LEN - 2..];
    assert packet == [(1 + PAYLOADSIZE) as byte, sequence] + payload by {
      assert f[HEADER_LEN..] == payload;
      assert packet == [f[HEADER_LEN - 2], f[HEADER_LEN - 1]] + f[HEADER_LEN..];
    }
    DecodeReceivedPacket(packet, rssiRaw, crcOk, lqi, rest);
  }

  // ---------------------------------------------------------------------------
  // Packing into FIFO words
  // ---------------------------------------------------------------------------

  /** Word `i` of the cast loop: byte 4i in bits 31-24 down to byte 4i + 3 in bits 7-0. */
  function PackWord(m: seq<byte>, i: nat): (w: u32)
    requires 4 * i + 3 < |m|
  {
    (m[4 * i] as int) * 0x100_0000 + (m[4 * i + 1] as int) * 0x1_0000 + (m[4 * i + 2] as int) * 0x100 + m[4 * i + 3] as int
  }

  /** The four bytes of a word, most significant first: the order the state machine shifts them out. */
  function WordBytes(w: u32): (b: seq<byte>)
    ensures |b| == 4
  {
    [w / 0x100_0000, (w / 0x1_0000) % 0x100, (w / 0x100) % 0x100, w % 0x100]
  }

  /** Unpacking a packed word gives its four bytes back. */
  lemma {:induction false} WordBytesOfPackWord(m: seq<byte>, i: nat)
    requires 4 * i + 3 < |m|
    ensures WordBytes(PackWord(m, i)) == m[4 * i .. 4 * i + 4]
  {
    var a: int, b: int, c: int, d: int := m[4 * i], m[4 * i + 1], m[4 * i + 2], m[4 * i + 3];
    var w := PackWord(m, i);
    ModUnique(w, 0x100_0000, a, b * 0x1_0000 + c * 0x100 + d);
    ModUnique(w, 0x1_0000, a * 0x100 + b, c * 0x100 + d);
    ModUnique(a * 0x100 + b, 0x100, a, b);
    ModUnique(w, 0x100, a * 0x1_0000 + b * 0x100 + c, d);
    ModUnique(a * 0x1_0000 + b * 0x100 + c, 0x100, a * 0x100 + b, c);
  }

  /** Packing the bytes of a word gives the word back, so packing loses nothing. */
  lemma PackWordOfWordBytes(w: u32)
    ensures PackWord(WordBytes(w), 0) == w
  {
    var a: int, r1: int := w / 0x100_0000, w % 0x100_0000;
    var b: int, r2: int := r1 / 0x1_0000, r1 % 0x1_0000;
    var c: int, d: int := r2 / 0x100, r2 % 0x100;
    assert w == a * 0x100_0000 + b * 0x1_0000 + c * 0x100 + d;
    assert (w / 0x1_0000) % 0x100 == b by {
      ModUnique(w, 0x1_0000, a * 0x100 + b, r2);
      ModUnique(a * 0x100 + b, 0x100, a, b);
    }
    assert (w / 0x100) % 0x100 == c by {
      ModUnique(w, 0x100, a * 0x1_0000 + b * 0x100 + c, d);
      ModUnique(a * 0x1_0000 + b * 0x100 + c, 0x100, a * 0x100 + b, c);
    }
    assert w % 0x100 == d by {
      ModUnique(w, 0x100, a * 0x1_0000 + b * 0x100 + c, d);
    }
    assert WordBytes(w) == [a, b, c, d];
  }

  /**
   * The cast loop's expression
   * `m[4i+3] | (m[4i+2] << 8) | (m[4i+1] << 16) | (m[4i] << 24)`: the fields do not overlap,
   * so every OR is an addition.
   */
  lemma {:induction false} PackWordIsCExpression(m: seq<byte>, i: nat)
    requires 4 * i + 3 < |m|
    ensures PackWord(m, i)
      == BitOr(BitOr(BitOr(m[4 * i + 3], Shl(m[4 * i + 2], 8)), Shl(m[4 * i + 1], 16)), Shl(m[4 * i], 24))
  {
    var a: int, b: int, c: int, d: int := m[4 * i], m[4 * i + 1], m[4 * i + 2], m[4 * i + 3];
    Pow2Values();
    Pow2Add(16, 8);
    assert Pow2(24) == 0x100_0000;
    ModUnique(c * 0x100, Pow2(8), c, 0);
    OrAdd(c * 0x100, d, 8);
    ModUnique(b * 0x1_0000, Pow2(16), b, 0);
    OrAdd(b * 0x1_0000, d + c * 0x100, 16);
    ModUnique(a * 0x100_0000, Pow2(24), a, 0);
    OrAdd(a * 0x100_0000, d + c * 0x100 + b * 0x1_0000, 24);
  }

  /** The first `n` words of the cast loop. */
  function PackWords(m: seq<byte>, n: nat): (r: seq<u32>)
    requires 4 * n <= |m|
    ensures |r| == n
  {
    if n == 0 then [] else PackWords(m, n - 1) + [PackWord(m, n - 1)]
  }

  /** The bytes the state machine shifts out for a sequence of words. */
  function Unpack(words: seq<u32>): (bytes: seq<byte>)
    ensures |bytes| == 4 * |words|
  {
    if words == [] then [] else Unpack(words[..|words| - 1]) + WordBytes(words[|words| - 1])
  }

  /** Unpacking the packed words gives back exactly the packed bytes, in order. */
  lemma {:induction false} UnpackPackWords(m: seq<byte>, n: nat)
    requires 4 * n <= |m|
    ensures Unpack(PackWords(m, n)) == m[..4 * n]
  {
    if n > 0 {
      var words := PackWords(m, n);
      assert words[..n - 1] == PackWords(m, n - 1);
      UnpackPackWords(m, n - 1);
      WordBytesOfPackWord(m, n - 1);
      assert m[..4 * n] == m[..4 * (n - 1)] + m[4 * (n - 1) .. 4 * n];
    }
  }

  /** The words depend on the first `4 n` bytes only: what lies beyond is never sent. */
  lemma {:induction false} PackWordsPrefix(m: seq<byte>, m': seq<byte>, n: nat)
    requires 4 * n <= |m| && 4 * n <= |m'| && m[..4 * n] == m'[..4 * n]
    ensures PackWords(m, n) == PackWords(m', n)
  {
    if n > 0 {
      assert m[..4 * (n - 1)] == m'[..4 * (n - 1)] by {
        assert m[..4 * (n - 1)] == m[..4 * n][..4 * (n - 1)];
        assert m'[..4 * (n - 1)] == m'[..4 * n][..4 * (n - 1)];
      }
      PackWordsPrefix(m, m', n - 1);
      assert m[4 * n - 4] == m[..4 * n][4 * n - 4] && m[4 * n - 3] == m[..4 * n][4 * n - 3];
      assert m[4 * n - 2] == m[..4 * n][4 * n - 2] && m[4 * n - 1] == m[..4 * n][4 * n - 1];
    }
  }

  /** The cast loop: `words[i]` = word i of `message`, for i < 6; `message` is only read. */
  method PackFrame(message: array<byte>, words: array<u32>)
    requires message.Length >= FRAME_LEN && words.Length == FRAME_WORDS
    modifies words
    ensures words[..] == PackWords(message[..], FRAME_WORDS)
  {
    var i: byte := 0;
    while i < FRAME_WORDS
      invariant 0 <= i <= FRAME_WORDS
      invariant words[..i] == PackWords(message[..], i)
    {
      words[i] := PackWord(message[..], i);
      i := i + 1;
      assert words[..i] == words[..i - 1] + [words[i - 1]];
    }
    assert words[..] == words[..FRAME_WORDS];
  }

  /** `add_header` then the `memcpy` of the payload: `message` starts with the frame, its tail stays. */
  method BuildFrame(message: array<byte>, payload: array<byte>, sequence: byte, template: seq<byte>)
    requires message.Length >= FRAME_LEN && payload.Length == PAYLOADSIZE && message != payload
    requires |template| >= HEADER_LEN - 2
    modifies message
    ensures message[..FRAME_LEN] == Frame(template, sequence, payload[..])
    ensures message[FRAME_LEN..] == old(message[FRAME_LEN..])
  {
    ghost var before := message[..];
    AddHeader(message, sequence, template);
    ghost var afterHeader := message[..];
    assert afterHeader[FRAME_LEN..] == before[FRAME_LEN..] by {
      assert afterHeader[HEADER_LEN..] == before[HEADER_LEN..];
      assert afterHeader[FRAME_LEN..] == afterHeader[HEADER_LEN..][PAYLOADSIZE..];
      assert before[FRAME_LEN..] == before[HEADER_LEN..][PAYLOADSIZE..];
    }
    CopyPayload(message, payload);
    assert message[..FRAME_LEN] == message[..HEADER_LEN] + message[HEADER_LEN..FRAME_LEN];
  }

  /** The `memcpy` of the payload behind the header; the header and the tail of `message` stay. */
  method CopyPayload(message: array<byte>, payload: array<byte>)
    requires message.Length >= HEADER_LEN + payload.Length && message != payload
    modifies message
    ensures message[..HEADER_LEN] == old(message[..HEADER_LEN])
    ensures message[HEADER_LEN..HEADER_LEN + payload.Length] == payload[..]
    ensures message[HEADER_LEN + payload.Length..] == old(message[HEADER_LEN + payload.Length..])
  {
    forall i | 0 <= i < payload.Length {
      message[HEADER_LEN + i] := payload[i];
    }
  }

  // ---------------------------------------------------------------------------
  // Carrier-on time
  // ---------------------------------------------------------------------------

  /** Milliseconds the state machine needs to shift out `words` words at `baud` symbols per second, times `baud`. */
  function AirtimeScaled(words: nat): nat
  {
    words * BITS_PER_WORD * 1000
  }

  /**
   * The wait after `backscatter_send` as written: `ceil(words * 8000 / baud) + 3` milliseconds,
   * which counts 8 symbols per word where the state machine sends 32.
   */
  function TxWaitAsWritten(words: nat, baud: nat): nat
    requires baud > 0
  {
    CeilDiv(words * 8000, baud) + 3
  }

  /**
   * The wait that covers the frame: its airtime rounded up to whole milliseconds, plus the
   * 3 ms margin. The carrier stays on until the last symbol is out, and not a millisecond
   * longer than the margin needs.
   */
  function TxWait(words: nat, baud: nat): (ms: nat)
    requires baud > 0
    ensures ms >= 3 && (ms - 3) * baud >= AirtimeScaled(words)
    ensures ms == 3 || (ms - 4) * baud < AirtimeScaled(words)
  {
    CeilDiv(AirtimeScaled(words), baud) + 3
  }

  /**
   * At the configured 100000 Bd the written wait (4 ms) still covers the 1.92 ms frame, and so
   * does it at any rate from 64000 Bd up; the frame-covering wait is 5 ms.
   */
  lemma TxWaitAtConfiguredRate(baud: nat)
    requires baud >= 64000
    ensures TxWaitAsWritten(FRAME_WORDS, baud) * baud >= AirtimeScaled(FRAME_WORDS)
    ensures baud == DESIRED_BAUD ==> TxWaitAsWritten(FRAME_WORDS, baud) == 4 && TxWait(FRAME_WORDS, baud) == 5
  {
    var w := TxWaitAsWritten(FRAME_WORDS, baud);
    MulMono(3, w, baud);
    if baud == DESIRED_BAUD {
      assert CeilDiv(48000, baud) == 1;
      assert CeilDiv(192000, baud) == 2;
    }
  }

  /**
   * At 10000 Bd the written wait is 8 ms, but the frame takes 19.2 ms: the carrier is stopped
   * while the tag is still backscattering.
   */
  lemma TxWaitAsWrittenCutsFrame(baud: nat)
    requires baud == 10000
    ensures TxWaitAsWritten(FRAME_WORDS, baud) == 8
    ensures TxWaitAsWritten(FRAME_WORDS, baud) * baud < AirtimeScaled(FRAME_WORDS)
    ensures TxWait(FRAME_WORDS, baud) == 23
  {
    assert CeilDiv(48000, baud) == 5;
    assert CeilDiv(192000, baud) == 20;
  }

  // ---------------------------------------------------------------------------
  // Receiver configuration
  // ---------------------------------------------------------------------------

  /** What the four receiver setters of main.c do, in the order main.c calls them. */
  datatype RxSetup = RxSetup(frequency: Setup, deviation: Setup, datarate: Setup, bandwidth: Setup)

  /** The setters' own preconditions on the tag's configuration. */
  predicate SetupDefined(c: Backscatter.BackscatterConfig)
  {
    c.deviation * TWO_14 >= F_XOSC && c.baudrate * TWO_20 >= F_XOSC && 0 < c.minRxBw && 32 * c.minRxBw <= F_XOSC
  }

  /** The value MDMCFG4 holds after a setter: the last one it wrote, else what it held before. */
  function Mdmcfg4After(s: Setup, prev: byte): byte
  {
    if |s.ops| == 3 && s.ops[2].WriteRegisters? && |s.ops[2].settings| >= 1 && s.ops[2].settings[0].address == MDMCFG4
    then s.ops[2].settings[0].value else prev
  }

  /**
   * `set_frecuency_rx(CARRIER_FEQ + center_offset)` (a `uint32_t` sum), then the deviation, data
   * rate and channel filter of the configuration. `mdmcfg1` and `mdmcfg4` are the register values
   * the chip returns; the bandwidth setter reads the MDMCFG4 the data-rate setter has written.
   */
  function ReceiverSetup(c: Backscatter.BackscatterConfig, mdmcfg1: byte, mdmcfg4: byte, channspcM: byte): (s: RxSetup)
    requires SetupDefined(c)
    ensures ProgramsCarrier(s.frequency.ops, ToU32(CARRIER_FEQ + c.centerOffset), mdmcfg1, channspcM)
    ensures s.deviation.reported <= c.deviation && s.datarate.reported <= c.baudrate
    ensures s.bandwidth.reported >= c.minRxBw
  {
    var datarate := SetDatarateRx(c.baudrate, mdmcfg4);
    RxSetup(SetFrequency(ToU32(CARRIER_FEQ + c.centerOffset), mdmcfg1, channspcM),
            SetFrequencyDeviationRx(c.deviation), datarate,
            SetFilterBandwidthRx(c.minRxBw, Mdmcfg4After(datarate, mdmcfg4)))
  }

  /**
   * Data rate and channel filter share MDMCFG4; because the bandwidth setter reads the register
   * back, its final value carries both: the data-rate exponent below, the filter fields above.
   */
  lemma {:induction false} SetupKeepsBothMdmcfg4Fields(c: Backscatter.BackscatterConfig, mdmcfg1: byte, mdmcfg4: byte, channspcM: byte)
    requires SetupDefined(c)
    ensures var s := ReceiverSetup(c, mdmcfg1, mdmcfg4, channspcM);
      var v := Mdmcfg4After(s.bandwidth, Mdmcfg4After(s.datarate, mdmcfg4));
      v % 16 == DataRateExponent(c.baudrate) % 16
      && v / 64 == BandwidthExponent(c.minRxBw) % 4
      && (v / 16) % 4 == BandwidthMantissa(c.minRxBw, BandwidthExponent(c.minRxBw)) % 4
  {
    var datarate := SetDatarateRx(c.baudrate, mdmcfg4);
    var written := Mdmcfg4After(datarate, mdmcfg4);
    assert written == DataRateField(mdmcfg4, DataRateExponent(c.baudrate));
    var be := BandwidthExponent(c.minRxBw);
    var bm := BandwidthMantissa(c.minRxBw, be);
    BandwidthRegisters(c.minRxBw, written);
    assert Mdmcfg4After(SetFilterBandwidthRx(c.minRxBw, written), written) == BandwidthField(written, be, bm);
  }

  /**
   * With the configured dividers 20 and 18 at 100000 Bd the receiver is tuned to
   * 2450000000 + 6597222 Hz and every setter's precondition holds, with each exponent inside its
   * register field.
   */
  lemma {:induction false} DefaultReceiverSetup(c: Backscatter.BackscatterConfig)
    requires c == Backscatter.Configure(CLOCK_DIV0, CLOCK_DIV1, DESIRED_BAUD)
    ensures SetupDefined(c)
    ensures ToU32(CARRIER_FEQ + c.centerOffset) == 2456597222
    ensures 16 * c.baudrate < F_XOSC && 64 * c.deviation < F_XOSC && F_XOSC < 512 * c.minRxBw
  {
    Backscatter.DefaultConfiguration(CLOCK_DIV0, CLOCK_DIV1, DESIRED_BAUD);
  }

  // ---------------------------------------------------------------------------
  // The event loop
  // ---------------------------------------------------------------------------

  /**
   * The state of `main` that outlives one pass of the loop: `rx_ready`, the static `seq`,
   * `message`, the word `buffer`, `tx_payload_buffer`, `rx_buffer`, the header template and the
   * generator's globals.
   */
  class Baseband {
    var rxReady: bool
    var sequence: byte
    const template: seq<byte>
    const message: array<byte>
    const words: array<u32>
    const payload: array<byte>
    const rxBuffer: array<byte>
    const generator: PacketGenerator

    ghost predicate Valid()
      reads this
    {
      message.Length == MESSAGE_LEN && words.Length == FRAME_WORDS && payload.Length == PAYLOADSIZE
      && rxBuffer.Length == RX_BUFFER_SIZE && |template| == HEADER_LEN
      && message != payload && message != rxBuffer && payload != rxBuffer
    }

    /** The state just before the loop: zeroed statics, the receiver listening. */
    constructor(receiver: u16)
      ensures Valid() && fresh(message) && fresh(words) && fresh(payload) && fresh(rxBuffer) && fresh(generator)
      ensures template == PacketHdrTemplate(receiver) && rxReady && sequence == 0
      ensures message[..] == seq(MESSAGE_LEN, _ => 0) && words[..] == seq(FRAME_WORDS, _ => 0)
      ensures generator.seed == DEFAULT_SEED && generator.filePosition == 0
    {
      template := PacketHdrTemplate(receiver);
      message := new byte[MESSAGE_LEN](_ => 0);
      words := new u32[FRAME_WORDS](_ => 0);
      payload := new byte[PAYLOADSIZE](_ => 0);
      rxBuffer := new byte[RX_BUFFER_SIZE](_ => 0);
      generator := new PacketGenerator();
      rxReady := true;
      sequence := 0;
    }

    /**
     * One pass of the loop for the event `get_event` returned. `rx_assert` marks the receiver
     * busy; `rx_deassert` reads and reports the packet (`fifoStatus` and `fifo` are what the chip
     * returns) and marks it listening; with no event a frame is sent only while it listens.
     * `sent` is what goes to the state machine's FIFO; `printed` the payload `printPacket` shows.
     */
    method Step(evt: Event, fifoStatus: byte, fifo: seq<byte>, shape: ((u32, u32)) -> u16)
      returns (sent: seq<u32>, received: Option<PacketStatus>, printed: seq<byte>)
      requires Valid() && |fifo| >= MAX_COPY + 2
      modifies this, message, words, payload, rxBuffer, generator
      ensures Valid()
      ensures evt != NoEvt || !old(rxReady) ==>
        sent == [] && sequence == old(sequence)
        && generator.seed == old(generator.seed) && generator.filePosition == old(generator.filePosition)
        && message[..] == old(message[..]) && words[..] == old(words[..]) && payload[..] == old(payload[..])
      ensures evt != RxDeassert ==> received == None && printed == [] && rxBuffer[..] == old(rxBuffer[..])
      ensures evt == RxAssert ==> !rxReady
      ensures evt == RxDeassert ==>
        var r := DecodePacket(fifoStatus, fifo);
        rxReady && received == Some(r.status)
        && rxBuffer[..|r.payload|] == r.payload && rxBuffer[|r.payload|..] == old(rxBuffer[|r.payload|..])
        && printed == PrintedPayload(rxBuffer[..], r.status)
        && (r.status.Received? && r.status.len <= MAX_COPY ==> printed == r.payload)
      ensures message[FRAME_LEN..] == old(message[FRAME_LEN..])
      ensures evt == NoEvt ==> rxReady == old(rxReady)
      ensures evt == NoEvt && old(rxReady) ==>
        var out := GeneratedData(GenState(old(generator.seed), old(generator.filePosition)), PAYLOADSIZE, true, shape);
        var frame := Frame(template, old(sequence), out.0);
        sent == PackWords(frame, FRAME_WORDS) && words[..] == sent && message[..FRAME_LEN] == frame
        && sequence == (old(sequence) + 1) % 256
        && GenState(generator.seed, generator.filePosition) == out.1
    {
      sent, received, printed := [], None, [];
      match evt {
        case RxAssert =>
          rxReady := false;
        case RxDeassert =>
          var status := ReadPacket(fifoStatus, fifo, rxBuffer);
          received := Some(status);
          printed := PrintedPayload(rxBuffer[..], status);
          PrintedAfterRead(fifoStatus, fifo, rxBuffer[..]);
          rxReady := true;
        case NoEvt =>
          if rxReady {
            sent := SendFrame(shape);
          }
      }
    }

    /**
     * The `no_evt` branch while the receiver listens: draw the payload, write the header with
     * the current sequence number, copy the payload behind it, pack the words, hand them to the
     * state machine and increment the 8-bit sequence number.
     */
    method SendFrame(shape: ((u32, u32)) -> u16) returns (sent: seq<u32>)
      requires Valid()
      modifies this, message, words, payload, generator
      ensures Valid() && rxReady == old(rxReady)
      ensures var out := GeneratedData(GenState(old(generator.seed), old(generator.filePosition)), PAYLOADSIZE, true, shape);
        sent == PackWords(Frame(template, old(sequence), out.0), FRAME_WORDS) && words[..] == sent
        && message[..FRAME_LEN] == Frame(template, old(sequence), out.0)
        && message[FRAME_LEN..] == old(message[FRAME_LEN..])
        && sequence == (old(sequence) + 1) % 256
        && GenState(generator.seed, generator.filePosition) == out.1
    {
      ghost var st0 := GenState(generator.seed, generator.filePosition);
      ghost var before := message[..];
      generator.GenerateData(payload, PAYLOADSIZE, true, shape);
      ghost var out := GeneratedData(st0, PAYLOADSIZE, true, shape);
      assert payload[..] == out.0 by {
        FilledParts(old(payload[..]), 0, out.0);
      }
      assert message[..] == before;
      BuildFrame(message, payload, sequence, template);
      ghost var frame := Frame(template, sequence, out.0);
      PackFrame(message, words);
      sent := words[..];
      PackWordsPrefix(message[..], frame, FRAME_WORDS);
      sequence := (sequence + 1) % 256;
    }
  }
}
