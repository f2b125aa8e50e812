/**
 * The receiving CC2500 (receiver_CC2500.c): decoding what `readPacket` reads from the RX FIFO,
 * the timestamp and payload of `printPacket`, the GDO0 interrupt feeding the event queue, and
 * the register setters for data rate, channel filter and deviation.
 */
module Receiver {
  import opened Common
  import opened Bits
  import opened Cc2500

  /** `RX_BUFFER_SIZE`: the caller's packet buffer. */
  const RX_BUFFER_SIZE: nat := 64
  /** At most 62 packet bytes are taken from the 64-byte FIFO (two are status bytes). */
  const MAX_COPY: nat := 62
  const EVENT_QUEUE_LENGTH: nat := 20
  const RX_GDO0_PIN: u32 := 21
  /** The Pico SDK's edge flags. */
  const GPIO_IRQ_EDGE_FALL: u32 := 0x4
  const GPIO_IRQ_EDGE_RISE: u32 := 0x8

  // ---------------------------------------------------------------------------
  // readPacket
  // ---------------------------------------------------------------------------

  /**
   * `Packet_status`. When the FIFO overflowed `readPacket` sets only the flag (the other fields
   * stay uninitialised), so that case carries nothing.
   */
  datatype PacketStatus =
    | Overflowed
    | Received(len: byte, rssi: int, crcOk: bool, lqi: byte)

  /** Bit 7 of RXBYTES: RXFIFO_OVERFLOW (`tmp_buffer[1] & 0x80`). */
  predicate FifoOverflowed(fifoStatus: byte)
  {
    fifoStatus >= 128
  }

  /**
   * `status.len`: the FIFO byte count (`& 0x7F`) less the two appended status bytes, stored in a
   * `uint8_t`, so a count of 0 or 1 wraps to 254 or 255.
   */
  function PacketLength(fifoStatus: byte): (len: byte)
    ensures fifoStatus % 128 >= 2 ==> len == fifoStatus % 128 - 2
    ensures fifoStatus % 128 < 2 ==> len == 254 + fifoStatus % 128
  {
    ToU8(fifoStatus % 128 - 2)
  }

  /** The number of payload bytes `readPacket` copies: `min(min(len, 62), RX_BUFFER_SIZE)`. */
  function CopyLength(len: byte): (n: nat)
    ensures n <= MAX_COPY && n <= len
    ensures n == len || n == MAX_COPY
  {
    Min(Min(len, MAX_COPY), RX_BUFFER_SIZE)
  }

  /** A raw RSSI byte as the two's-complement value the datasheet defines. */
  function SignedByte(b: byte): (s: int)
    ensures -128 <= s < 128
    ensures (s - b) % 256 == 0
  {
    if b >= 128 then b - 256 else b
  }

  /** RSSI in dBm: the signed reading halved with C's truncating division, less the 70 dB offset. */
  function Rssi(b: byte): (dbm: int)
    ensures -134 <= dbm <= -7
  {
    var s := SignedByte(b);
    CDiv(s, 2) - 70
  }

  /**
   * The RSSI is the signed reading over two rounded toward zero: 2 * (dbm + 70) is the reading,
   * or the reading moved one step toward zero when it is odd.
   */
  lemma RssiHalvesReading(b: byte)
    ensures var s, dbm := SignedByte(b), Rssi(b);
      (s >= 0 ==> 2 * (dbm + 70) == s - s % 2) && (s < 0 ==> 2 * (dbm + 70) == s + (-s) % 2)
  {
  }

  /** A stronger reading never gives a lower RSSI. */
  lemma RssiMonotonic(a: byte, b: byte)
    requires SignedByte(a) <= SignedByte(b)
    ensures Rssi(a) <= Rssi(b)
  {
    var sa, sb := SignedByte(a), SignedByte(b);
    if sa >= 0 {
      DivMonotonic(sa, sb, 2);
    } else if sb < 0 {
      DivMonotonic(-sb, -sa, 2);
    }
  }

  lemma RssiExamples()
    ensures Rssi(200) == -98 && Rssi(100) == -20 && Rssi(255) == -70 && Rssi(128) == -134 && Rssi(127) == -7
  {
  }

  /** The status and payload one `readPacket` call produces. */
  datatype Reception = Reception(status: PacketStatus, payload: seq<byte>)

  /**
   * `readPacket` on the FIFO status byte and the bytes the burst read delivers after the chip's
   * status byte: overflow stops it before any burst; otherwise the packet bytes come first and the
   * two quality bytes (RSSI, then CRC flag and LQI) follow them.
   */
  function DecodePacket(fifoStatus: byte, fifo: seq<byte>): (r: Reception)
    requires |fifo| >= MAX_COPY + 2
    ensures r.status.Overflowed? <==> FifoOverflowed(fifoStatus)
    ensures r.status.Overflowed? ==> r.payload == []
    ensures r.status.Received? ==> r.status.len == PacketLength(fifoStatus) && |r.payload| == CopyLength(r.status.len)
    ensures r.status.Received? ==> r.status.lqi < 128
  {
    if FifoOverflowed(fifoStatus) then Reception(Overflowed, [])
    else
      var len := PacketLength(fifoStatus);
      var n := CopyLength(len);
      Reception(Received(len, Rssi(fifo[n]), fifo[n + 1] >= 128, fifo[n + 1] % 128), fifo[..n])
  }

  /**
   * The decoder recovers a well-formed reception: a packet of at most 62 bytes followed by its
   * RSSI byte and its CRC/LQI byte, announced by the byte count |packet| + 2.
   */
  lemma DecodeReceivedPacket(packet: seq<byte>, rssiRaw: byte, crcOk: bool, lqi: byte, rest: seq<byte>)
    requires |packet| <= MAX_COPY && lqi < 128 && |packet| + 2 + |rest| >= MAX_COPY + 2
    ensures var quality: byte := (if crcOk then 128 else 0) + lqi;
      DecodePacket(|packet| + 2, packet + [rssiRaw, quality] + rest)
      == Reception(Received(|packet|, Rssi(rssiRaw), crcOk, lqi), packet)
  {
    var quality: byte := (if crcOk then 128 else 0) + lqi;
    var fifo := packet + [rssiRaw, quality] + rest;
    var n := |packet|;
    assert !FifoOverflowed(n + 2);
    assert PacketLength(n + 2) == n by {
      assert (n + 2) % 128 == n + 2;
    }
    assert CopyLength(n) == n;
    assert fifo[n] == rssiRaw && fifo[n + 1] == quality;
    assert fifo[..n] == packet;
    assert quality >= 128 <==> crcOk;
    assert quality % 128 == lqi;
  }

  /** The decoder's bit arithmetic is the C code's masking. */
  lemma DecodeIsCMasking(fifoStatus: byte, quality: byte)
    ensures FifoOverflowed(fifoStatus) <==> BitAnd(0x80, fifoStatus) != 0
    ensures PacketLength(fifoStatus) == ToU8(BitAnd(0x7F, fifoStatus) - 2)
    ensures (quality >= 128) <==> BitAnd(0x80, quality) != 0
    ensures quality % 128 == BitAnd(0x7F, quality)
  {
    ByteMasks(fifoStatus);
    ByteMasks(quality);
  }

  /** `& 0x80` keeps bit 7 of a byte and `& 0x7F` the seven bits below it. */
  lemma ByteMasks(x: byte)
    ensures BitAnd(0x80, x) == (if x >= 128 then 0x80 else 0)
    ensures BitAnd(0x7F, x) == x % 128
  {
    assert Pow2(1) == 2 && Pow2(7) == 128 by { Pow2Small(1); Pow2Small(8); }
    AndFieldMask(x, 1, 7);
    AndLowMask(x, 7);
    var q := x / 128;
    assert q == 0 || q == 1;
  }

  /**
   * `readPacket` with the caller's buffer: the burst copies the payload byte by byte into
   * `buffer[0..n)` and leaves the rest of the buffer as it was.
   */
  method ReadPacket(fifoStatus: byte, fifo: seq<byte>, buffer: array<byte>) returns (status: PacketStatus)
    requires |fifo| >= MAX_COPY + 2 && buffer.Length >= RX_BUFFER_SIZE
    modifies buffer
    ensures status == DecodePacket(fifoStatus, fifo).status
    ensures var p := DecodePacket(fifoStatus, fifo).payload;
      buffer[..|p|] == p && buffer[|p|..] == old(buffer[|p|..])
  {
    var r := DecodePacket(fifoStatus, fifo);
    status := r.status;
    if FifoOverflowed(fifoStatus) {
      return;
    }
    var n := CopyLength(PacketLength(fifoStatus));
    var i := 0;
    while i < n
      invariant 0 <= i <= n
      invariant buffer[..i] == fifo[..i]
      invariant buffer[i..] == old(buffer[i..])
    {
      buffer[i] := fifo[i];
      i := i + 1;
      assert buffer[..i] == buffer[..i - 1] + [fifo[i - 1]];
    }
  }

  // ---------------------------------------------------------------------------
  // printPacket
  // ---------------------------------------------------------------------------

  /** The bytes `printPacket` prints: none after an overflow, else the first min(len, 64) of the buffer. */
  function PrintedPayload(buffer: seq<byte>, status: PacketStatus): (r: seq<byte>)
    requires |buffer| >= RX_BUFFER_SIZE
    ensures status.Overflowed? ==> r == []
    ensures status.Received? ==> r == buffer[..Min(status.len, RX_BUFFER_SIZE)]
  {
    if status.Overflowed? then [] else buffer[..Min(status.len, RX_BUFFER_SIZE)]
  }

  /**
   * What `readPacket` copied is what `printPacket` prints, except that a length above 62 (with a
   * 64-byte FIFO only the wrapped 254 and 255) also prints buffer bytes from index 62 on, which
   * the read did not write.
   */
  lemma PrintedAfterRead(fifoStatus: byte, fifo: seq<byte>, buffer: seq<byte>)
    requires |fifo| >= MAX_COPY + 2 && |buffer| >= RX_BUFFER_SIZE
    requires var p := DecodePacket(fifoStatus, fifo).payload; buffer[..|p|] == p
    ensures var r := DecodePacket(fifoStatus, fifo);
      var printed := PrintedPayload(buffer, r.status);
      (r.status.Received? && r.status.len <= MAX_COPY ==> printed == r.payload)
      && (r.status.Received? && r.status.len > MAX_COPY ==> printed == r.payload + buffer[MAX_COPY..Min(r.status.len, RX_BUFFER_SIZE)])
      && (r.status.Overflowed? ==> printed == [])
  {
    var r := DecodePacket(fifoStatus, fifo);
    if r.status.Received? && r.status.len > MAX_COPY {
      var k := Min(r.status.len, RX_BUFFER_SIZE);
      assert buffer[..k] == buffer[..MAX_COPY] + buffer[MAX_COPY..k];
    }
  }

  /** The FIFO counts that wrap the length: 0 and 1 (with the overflow bit clear). */
  lemma WrappedLengths(fifoStatus: byte)
    requires !FifoOverflowed(fifoStatus)
    ensures PacketLength(fifoStatus) > MAX_COPY <==> fifoStatus < 2 || fifoStatus > 64
  {
  }

  /** The wall-clock fields of the `printPacket` timestamp. */
  datatype Timestamp = Timestamp(hours: u32, minutes: nat, seconds: nat, millis: nat)

  const US_PER_HOUR: nat := 3_600_000_000
  const US_PER_MINUTE: nat := 60_000_000
  const US_PER_SECOND: nat := 1_000_000
  const US_PER_MILLI: nat := 1000

  /**
   * `printPacket`'s timestamp: hours, then minutes, seconds and milliseconds of the remainder.
   * The hour count goes through `int32_t` into `uint32_t`, i.e. modulo 2^32.
   */
  function SplitTimestamp(timeUs: nat): (t: Timestamp)
    ensures t.minutes < 60 && t.seconds < 60 && t.millis < 1000
  {
    var hours := timeUs / US_PER_HOUR;
    var rem1 := timeUs % US_PER_HOUR;
    var minutes := rem1 / US_PER_MINUTE;
    var rem2 := rem1 % US_PER_MINUTE;
    var seconds := rem2 / US_PER_SECOND;
    var rem3 := rem2 % US_PER_SECOND;
    DivMonotonic(rem1, US_PER_HOUR - 1, US_PER_MINUTE);
    DivMonotonic(rem2, US_PER_MINUTE - 1, US_PER_SECOND);
    DivMonotonic(rem3, US_PER_SECOND - 1, US_PER_MILLI);
    Timestamp(ToU32(hours), minutes, seconds, rem3 / US_PER_MILLI)
  }

  /**
   * The fields add back up to the time, less its sub-millisecond part, as long as the hour count
   * fits 31 bits (about 245000 years of uptime).
   */
  lemma TimestampSplitsTime(timeUs: nat)
    requires timeUs / US_PER_HOUR < 0x8000_0000
    ensures var t := SplitTimestamp(timeUs);
      t.hours * US_PER_HOUR + t.minutes * US_PER_MINUTE + t.seconds * US_PER_SECOND
      + t.millis * US_PER_MILLI + timeUs % US_PER_MILLI == timeUs
  {
    var rem1 := timeUs % US_PER_HOUR;
    var rem2 := rem1 % US_PER_MINUTE;
    var rem3 := rem2 % US_PER_SECOND;
    DivMod(timeUs, US_PER_HOUR);
    DivMod(rem1, US_PER_MINUTE);
    DivMod(rem2, US_PER_SECOND);
    DivMod(rem3, US_PER_MILLI);
    assert timeUs % US_PER_MILLI == rem3 % US_PER_MILLI by {
      var k := timeUs / US_PER_HOUR * 3_600_000 + rem1 / US_PER_MINUTE * 60_000 + rem2 / US_PER_SECOND * 1000
               + rem3 / US_PER_MILLI;
      ModUnique(timeUs, US_PER_MILLI, k, rem3 % US_PER_MILLI);
    }
  }

  // ---------------------------------------------------------------------------
  // GDO0 interrupt and the event queue
  // ---------------------------------------------------------------------------

  /** `event_t`. */
  datatype Event = NoEvt | RxAssert | RxDeassert

  /** The event `receiver_isr` queues: only an exact single-edge report from GDO0 counts. */
  function IsrEvent(gpio: u32, events: u32): (r: Option<Event>)
    ensures r == Some(RxAssert) <==> gpio == RX_GDO0_PIN && events == GPIO_IRQ_EDGE_RISE
    ensures r == Some(RxDeassert) <==> gpio == RX_GDO0_PIN && events == GPIO_IRQ_EDGE_FALL
    ensures r.None? <==> gpio != RX_GDO0_PIN || (events != GPIO_IRQ_EDGE_RISE && events != GPIO_IRQ_EDGE_FALL)
  {
    if gpio != RX_GDO0_PIN then None
    else if events == GPIO_IRQ_EDGE_RISE then Some(RxAssert)
    else if events == GPIO_IRQ_EDGE_FALL then Some(RxDeassert)
    else None
  }

  /**
   * `event_queue`: the pico queue of `EVENT_QUEUE_LENGTH` events between the interrupt and the
   * main loop. Only the interrupt adds, so it never holds `NoEvt`.
   */
  class EventQueue {
    var items: seq<Event>

    ghost predicate Valid()
      reads this
    {
      |items| <= EVENT_QUEUE_LENGTH && forall i :: 0 <= i < |items| ==> items[i] != NoEvt
    }

    /** `queue_init` followed by the draining loop of `setupReceiver`. */
    constructor()
      ensures Valid() && items == []
    {
      items := [];
    }

    /** `receiver_isr`: queue the edge's event with `queue_try_add` (dropped when full). */
    method Isr(gpio: u32, events: u32)
      requires Valid()
      modifies this
      ensures Valid()
      ensures var e := IsrEvent(gpio, events);
        items == if e.Some? then Offer(old(items), e.value, EVENT_QUEUE_LENGTH) else old(items)
    {
      var e := IsrEvent(gpio, events);
      if e.Some? {
        items := Offer(items, e.value, EVENT_QUEUE_LENGTH);
      }
    }

    /** `get_event`: the oldest event, or `NoEvt` exactly when the queue is empty. */
    method GetEvent() returns (e: Event)
      requires Valid()
      modifies this
      ensures Valid()
      ensures e == NoEvt <==> old(items) == []
      ensures old(items) == [] ==> items == []
      ensures old(items) != [] ==> e == old(items)[0] && items == old(items)[1..]
    {
      if items == [] {
        e := NoEvt;
      } else {
        e := items[0];
        items := items[1..];
      }
    }
  }

  /** Reporting both edges at once (`events` = 0xC) queues nothing. */
  lemma SimultaneousEdgesIgnored()
    ensures IsrEvent(RX_GDO0_PIN, 0xC).None?
  {
  }

  // ---------------------------------------------------------------------------
  // Register setters
  // ---------------------------------------------------------------------------

  /**
   * `set_datarate_rx`: strobe idle, read MDMCFG4, write MDMCFG4 (upper nibble kept, DRATE_E below)
   * and MDMCFG3 = DRATE_M in one burst. Reports the rate of the computed fields.
   * A request below F_XOSC / 2^20 (about 25 Bd) makes the exponent negative, which the C
   * conversion to `uint8_t` does not define.
   */
  function SetDatarateRx(r: u32, mdmcfg4: byte): (s: Setup)
    requires r * TWO_20 >= F_XOSC
    ensures |s.ops| == 3 && s.ops[0] == Strobe(SIDLE) && s.ops[1] == ReadRegister(MDMCFG4)
    ensures s.ops[2].WriteRegisters? && Addresses(s.ops[2].settings) == [MDMCFG4, MDMCFG3]
    ensures var v4, m := s.ops[2].settings[0].value, s.ops[2].settings[1].value;
      v4 / 16 == mdmcfg4 / 16
      && (16 * r < F_XOSC ==> DataRateOf(v4 % 16, m) <= r && r * TWO_28 < (256 + m + 1) * Pow2(v4 % 16) * F_XOSC)
    ensures s.reported <= r
  {
    var e := DataRateExponent(r);
    var m := DataRateMantissa(r, e);
    DataRateRegisters(r, mdmcfg4);
    Setup([Strobe(SIDLE), ReadRegister(MDMCFG4),
           WriteRegisters([RfSetting(MDMCFG4, DataRateField(mdmcfg4, e)), RfSetting(MDMCFG3, m)])],
          DataRateOf(e, m))
  }

  /** The two register values `set_datarate_rx` writes, read back as DRATE_E and DRATE_M. */
  lemma DataRateRegisters(r: u32, mdmcfg4: byte)
    requires r * TWO_20 >= F_XOSC
    ensures var e := DataRateExponent(r);
      var m := DataRateMantissa(r, e);
      var v4 := DataRateField(mdmcfg4, e);
      0 <= m <= 255 && DataRateOf(e, m) <= r && v4 / 16 == mdmcfg4 / 16
      && (16 * r < F_XOSC ==> DataRateOf(v4 % 16, m) <= r && r * TWO_28 < (256 + m + 1) * Pow2(v4 % 16) * F_XOSC)
  {
    var e := DataRateExponent(r);
    var m := DataRateMantissa(r, e);
    var v4 := DataRateField(mdmcfg4, e);
    DataRateQuantisation(r);
    DataRateFieldFits(r, mdmcfg4);
    if 16 * r < F_XOSC {
      SameExponent(e, v4 % 16, m, r);
    }
  }

  lemma SameExponent(e: nat, e': nat, m: int, r: int)
    requires e == e' && DataRateOf(e, m) <= r && r * TWO_28 < (256 + m + 1) * Pow2(e) * F_XOSC
    ensures DataRateOf(e', m) <= r && r * TWO_28 < (256 + m + 1) * Pow2(e') * F_XOSC
  {
  }

  /** Below F_XOSC / 16 the exponent fits the 4-bit DRATE_E field, so MDMCFG4 reads it back. */
  lemma DataRateFieldFits(r: u32, mdmcfg4: byte)
    requires r * TWO_20 >= F_XOSC
    ensures 16 * r < F_XOSC ==> DataRateField(mdmcfg4, DataRateExponent(r)) % 16 == DataRateExponent(r)
  {
    if 16 * r < F_XOSC {
      var e := DataRateExponent(r);
      DataRateExponentFits(r);
      assert e % 16 == e;
    }
  }

  lemma DataRateExponentFits(r: u32)
    requires r * TWO_20 >= F_XOSC && 16 * r < F_XOSC
    ensures DataRateExponent(r) < 16
  {
    var e := DataRateExponent(r);
    Pow2Values();
    if e >= 16 {
      Pow2Monotonic(16, e);
      MulMono(TWO_16, Pow2(e), F_XOSC);
    }
  }

  /**
   * `set_filter_bandwidth_rx`: strobe idle, read MDMCFG4, write it back with CHANBW_E and CHANBW_M
   * in bits 7-4 over the kept lower nibble. A bandwidth of 0 or above F_XOSC / 32 leaves the
   * exponent undefined in the C code.
   */
  function SetFilterBandwidthRx(bw: u32, mdmcfg4: byte): (s: Setup)
    requires 0 < bw && 32 * bw <= F_XOSC
    ensures |s.ops| == 3 && s.ops[0] == Strobe(SIDLE) && s.ops[1] == ReadRegister(MDMCFG4)
    ensures s.ops[2].WriteRegisters? && Addresses(s.ops[2].settings) == [MDMCFG4]
    ensures var v := s.ops[2].settings[0].value;
      var e, m := v / 64, (v / 16) % 4;
      v % 16 == mdmcfg4 % 16
      && (F_XOSC < 512 * bw ==> BandwidthOf(e, m) >= bw && F_XOSC < bw * (8 * (4 + m + 1) * Pow2(e)))
    ensures s.reported >= bw
  {
    var e := BandwidthExponent(bw);
    var m := BandwidthMantissa(bw, e);
    BandwidthRegisters(bw, mdmcfg4);
    Setup([Strobe(SIDLE), ReadRegister(MDMCFG4), WriteRegisters([RfSetting(MDMCFG4, BandwidthField(mdmcfg4, e, m))])],
          BandwidthOf(e, m))
  }

  /** The MDMCFG4 value `set_filter_bandwidth_rx` writes, read back as CHANBW_E and CHANBW_M. */
  lemma BandwidthRegisters(bw: u32, mdmcfg4: byte)
    requires 0 < bw && 32 * bw <= F_XOSC
    ensures var e := BandwidthExponent(bw);
      var m := BandwidthMantissa(bw, e);
      0 <= m <= 3 && BandwidthOf(e, m) >= bw
      && var v := BandwidthField(mdmcfg4, e, m);
      v % 16 == mdmcfg4 % 16
      && (F_XOSC < 512 * bw ==> BandwidthOf(v / 64, (v / 16) % 4) >= bw
                                && F_XOSC < bw * (8 * (4 + (v / 16) % 4 + 1) * Pow2(v / 64)))
  {
    var e := BandwidthExponent(bw);
    var m := BandwidthMantissa(bw, e);
    BandwidthQuantisation(bw);
    if F_XOSC < 512 * bw {
      BandwidthFieldFits(bw);
      var v := BandwidthField(mdmcfg4, e, m);
      assert v / 64 == e && (v / 16) % 4 == m;
      SameBandwidth(e, v / 64, m, (v / 16) % 4, bw);
    }
  }

  lemma SameBandwidth(e: nat, e': nat, m: nat, m': nat, bw: int)
    requires e == e' && m == m' && BandwidthOf(e, m) >= bw && F_XOSC < bw * (8 * (4 + m + 1) * Pow2(e))
    ensures BandwidthOf(e', m') >= bw && F_XOSC < bw * (8 * (4 + m' + 1) * Pow2(e'))
  {
  }

  /** Above F_XOSC / 512 the exponent fits the 2-bit CHANBW_E field. */
  lemma BandwidthFieldFits(bw: u32)
    requires 0 < bw && 32 * bw <= F_XOSC
    ensures F_XOSC < 512 * bw ==> BandwidthExponent(bw) < 4
  {
    var e := BandwidthExponent(bw);
    Pow2Values();
    if F_XOSC < 512 * bw && e >= 4 {
      Pow2Monotonic(4, e);
      MulMono(16, Pow2(e), 32 * bw);
    }
  }

  /**
   * `set_frequency_deviation_rx`: strobe idle, then write DEVIATN = `((e & 7) << 4) + (m & 7)`.
   * Reports the deviation the register selects. A deviation below F_XOSC / 2^14 (about 1587 Hz)
   * makes the exponent negative, which the C code does not define.
   */
  function SetFrequencyDeviationRx(f: u32): (s: Setup)
    requires f * TWO_14 >= F_XOSC
    ensures |s.ops| == 2 && s.ops[0] == Strobe(SIDLE)
    ensures s.ops[1].WriteRegisters? && Addresses(s.ops[1].settings) == [DEVIATN]
    ensures var v := s.ops[1].settings[0].value;
      var e, m := v / 16, v % 16;
      m < 8 && (64 * f < F_XOSC ==> DeviationOf(e, m) <= f && f * TWO_17 < F_XOSC * (8 + m + 1) * Pow2(e))
    ensures s.reported <= f
  {
    var e := DeviationExponent(f);
    var m := DeviationMantissa(f, e);
    DeviationRegisters(f);
    Setup([Strobe(SIDLE), WriteRegisters([RfSetting(DEVIATN, DeviationField(e, m))])], DeviationOf(e, m))
  }

  /** The DEVIATN value `set_frequency_deviation_rx` writes, read back as DEVIATION_E and DEVIATION_M. */
  lemma DeviationRegisters(f: u32)
    requires f * TWO_14 >= F_XOSC
    ensures var e := DeviationExponent(f);
      var m := DeviationMantissa(f, e);
      0 <= m <= 7 && DeviationOf(e, m) <= f
      && var v := DeviationField(e, m);
      v % 16 < 8
      && (64 * f < F_XOSC ==> DeviationOf(v / 16, v % 16) <= f && f * TWO_17 < F_XOSC * (8 + v % 16 + 1) * Pow2(v / 16))
  {
    var e := DeviationExponent(f);
    var m := DeviationMantissa(f, e);
    DeviationQuantisation(f);
    if 64 * f < F_XOSC {
      DeviationFieldFits(f);
      var v := DeviationField(e, m);
      assert v / 16 == e && v % 16 == m;
      SameDeviation(e, v / 16, m, v % 16, f);
    }
  }

  lemma SameDeviation(e: nat, e': nat, m: int, m': int, f: int)
    requires e == e' && m == m' && DeviationOf(e, m) <= f && f * TWO_17 < F_XOSC * (8 + m + 1) * Pow2(e)
    ensures DeviationOf(e', m') <= f && f * TWO_17 < F_XOSC * (8 + m' + 1) * Pow2(e')
  {
  }

  /** Below F_XOSC / 64 the exponent fits the 3-bit DEVIATION_E field. */
  lemma DeviationFieldFits(f: u32)
    requires f * TWO_14 >= F_XOSC
    ensures 64 * f < F_XOSC ==> DeviationExponent(f) < 8
  {
    var e := DeviationExponent(f);
    Pow2Values();
    if 64 * f < F_XOSC && e >= 8 {
      Pow2Monotonic(8, e);
      MulMono(256, Pow2(e), F_XOSC);
    }
  }
}
