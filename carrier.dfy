/**
 * The carrier CC2500 (carrier_CC2500.c): its output-power table and the PATABLE burst write of
 * `setTXpower`. Its frequency setter `set_frecuency_tx` is the receiver's code and is
 * `Cc2500.SetFrequency`.
 */
module Carrier {
  import opened Common
  import opened Bits
  import opened Cc2500

  /** `RF_power`: an output power in dBm and the PATABLE value that selects it. */
  datatype RfPower = RfPower(dbm: int, registerValue: byte)

  /** `TX_power`: the datasheet's PATABLE settings at 2.4 GHz, from weakest to strongest. */
  const TX_POWER: seq<RfPower> := [
    RfPower(-55, 0x00), RfPower(-30, 0x50), RfPower(-28, 0x44), RfPower(-26, 0xC0),
    RfPower(-24, 0x84), RfPower(-22, 0x81), RfPower(-20, 0x46), RfPower(-18, 0x93),
    RfPower(-16, 0x55), RfPower(-14, 0x8D), RfPower(-12, 0xC6), RfPower(-10, 0x97),
    RfPower(-8, 0x6E), RfPower(-6, 0x7F), RfPower(-4, 0xA9), RfPower(-2, 0xBB),
    RfPower(0, 0xFE), RfPower(1, 0xFF)]

  /** The index `setupCarrier` uses. */
  const MAX_POWER_INDEX: nat := 17

  /** The PATABLE register address and the header bits of an SPI access. */
  const PATABLE: byte := 0x3E
  const BURST_BIT: nat := 0x40
  const READ_BIT: nat := 0x80

  /** The table has 18 settings, in strictly increasing power from -55 dBm to +1 dBm. */
  lemma PowerTableOrdered()
    ensures |TX_POWER| == 18
    ensures forall i, j :: 0 <= i < j < |TX_POWER| ==> TX_POWER[i].dbm < TX_POWER[j].dbm
    ensures TX_POWER[0].dbm == -55 && TX_POWER[|TX_POWER| - 1].dbm == 1
  {
    var t := TX_POWER;
    forall i | 0 <= i < |t| - 1
      ensures t[i].dbm < t[i + 1].dbm
    {
    }
    IncreasingByNeighbours(t);
  }

  /** Strict increase between neighbours gives strict increase between any two entries. */
  lemma {:induction false} IncreasingByNeighbours(t: seq<RfPower>)
    requires forall i | 0 <= i < |t| - 1 :: t[i].dbm < t[i + 1].dbm
    ensures forall i, j :: 0 <= i < j < |t| ==> t[i].dbm < t[j].dbm
  {
    if |t| > 1 {
      var u := t[1..];
      IncreasingByNeighbours(u);
      forall i, j | 0 <= i < j < |t|
        ensures t[i].dbm < t[j].dbm
      {
        assert t[j] == u[j - 1];
        if i > 0 {
          assert t[i] == u[i - 1];
        } else if j > 1 {
          assert t[1] == u[0];
        }
      }
    }
  }

  /** `setupCarrier` selects the strongest setting, +1 dBm with PATABLE value 0xFF. */
  lemma SetupUsesMaximumPower()
    ensures MAX_POWER_INDEX < |TX_POWER|
    ensures TX_POWER[MAX_POWER_INDEX] == RfPower(1, 0xFF)
    ensures forall i :: 0 <= i < |TX_POWER| ==> TX_POWER[i].dbm <= TX_POWER[MAX_POWER_INDEX].dbm
  {
    PowerTableOrdered();
  }

  /**
   * `setTXpower`: one SPI transfer of three bytes: a burst-write header for PATABLE, then the
   * setting's value twice (PATABLE entries 0 and 1).
   */
  function SetTxPower(p: RfPower): (op: SpiOp)
    ensures op.WriteBytes? && |op.bytes| == 3
    ensures op.bytes[0] % 64 == PATABLE && op.bytes[0] / 64 == 1
    ensures op.bytes[1] == op.bytes[2] == p.registerValue
  {
    WriteBytes([BurstWriteHeader(PATABLE), p.registerValue, p.registerValue])
  }

  /** The header byte `(1 << 6) | 0x3E`: address in bits 5-0, burst bit set, read bit clear. */
  function BurstWriteHeader(address: byte): (h: byte)
    requires address < 64
    ensures h % 64 == address && h / 64 == 1
    ensures h < READ_BIT && h >= BURST_BIT
  {
    BURST_BIT + address
  }

  /** The header is the C expression `(1 << 6) | 0x3E` = 0x7E. */
  lemma BurstHeaderIsCExpression()
    ensures BurstWriteHeader(PATABLE) == BitOr(Shl(1, 6), 0x3E) == 0x7E
  {
    Pow2Values();
    assert Shl(1, 6) == 64;
    OrAdd(64, 0x3E, 6);
  }
}
