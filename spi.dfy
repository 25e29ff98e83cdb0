/** The SPI exchange with the chip: one 16-bit word out, one 16-bit word
    back, high byte first. */
module Spi {
  import opened Codec

  /** How one two-byte exchange ended: the chip's two answer bytes (byte 0 is
      the high byte), or a failed transfer. */
  datatype Transfer = Done(rx0: Byte, rx1: Byte) | Failed

  /** The chip answering with word w. */
  function Answer(w: Word): Transfer
  {
    Done(w >> 8, w & 0xFF)
  }

  /** The two bytes put on the bus for an unsigned int: tx[0] = mosi >> 8 and
      tx[1] = mosi, each truncated to an unsigned char. */
  function TxBytes(mosi: bv32): (Byte, Byte)
  {
    (((mosi >> 8) & 0xFF) as Word, (mosi & 0xFF) as Word)
  }

  /** raspicomm_spi0_send as written: 0 when the transfer fails, otherwise
      the word rebuilt from the transmitted bytes tx, not from rx. */
  function Spi0SendAsWritten(mosi: bv32, t: Transfer): (r: bv32)
    ensures t.Failed? ==> r == 0
    ensures t.Done? ==> r == mosi & 0xFFFF
  {
    if t.Failed? then 0
    else
      var (tx0, tx1) := TxBytes(mosi);
      ((tx0 as bv32) << 8) | (tx1 as bv32)
  }

  /** As written, the result never depends on what the chip answered. */
  lemma AsWrittenIgnoresChip(mosi: bv32, a: Transfer, b: Transfer)
    requires a.Done? && b.Done?
    ensures Spi0SendAsWritten(mosi, a) == Spi0SendAsWritten(mosi, b)
  {
  }

  /** As written, the interrupt handler's status probe (READ_DATA) reads
      neither "receive ready" (bit 15) nor "transmit empty" (bit 14), whatever
      the chip holds: the handler never receives and never transmits. */
  lemma IrqProbeAsWrittenIsSilent(t: Transfer)
    ensures Spi0SendAsWritten(READ_DATA as bv32, t) & (UART_R as bv32) == 0
    ensures Spi0SendAsWritten(READ_DATA as bv32, t) & (UART_T as bv32) == 0
  {
  }

  /** As written, the read-back of apply_config yields 0x4000 or 0, whose low
      12 bits never equal those of a configuration word (RM is always set): every
      configuration is reported as rejected. */
  lemma ApplyConfigAsWrittenRejects(speed: nat, d: Databits, s: Stopbits, p: Parity, t: Transfer)
    ensures Spi0SendAsWritten(READ_CONFIG as bv32, t) & 0xFFF
         != (UartConfig(speed, d, s, p) as bv32) & 0xFFF
  {
    var w := UartConfig(speed, d, s, p);
    assert w & UART_RM == UART_RM;
    assert (w as bv32) & 0x400 == 0x400;
  }

  /** As written, arming the transmit interrupt always reads back "transmit
      empty" when the transfer succeeds, because the configuration word sent has
      bit 14 set. */
  lemma StartTransferAsWrittenSeesEmpty(config: Word, t: Transfer)
    requires t.Done?
    ensures Spi0SendAsWritten((config | WRITE_CONFIG | UART_TM) as bv32, t) & (UART_T as bv32) != 0
  {
    var w := config | WRITE_CONFIG | UART_TM;
    assert w & UART_T == UART_T;
    assert (w as bv32) & 0x4000 == 0x4000;
  }

  /** The exchange as the model uses it: the chip's answer, high byte first, or
      0 (an empty status) when the transfer fails. */
  function Spi0Send(mosi: Word, t: Transfer): (r: Word)
    ensures t.Failed? ==> r == 0
    ensures t.Done? ==> r >> 8 == t.rx0 && r & 0xFF == t.rx1
  {
    if t.Failed? then 0 else (t.rx0 << 8) | t.rx1
  }

  /** The corrected exchange returns exactly the word the chip answered. */
  lemma Spi0SendReturnsAnswer(mosi: Word, w: Word)
    ensures Spi0Send(mosi, Answer(w)) == w
  {
  }

  /** A successful exchange as written gives what the corrected exchange
      gives against a chip that echoes the word sent: every property the
      model proves for all chip answers holds for the code as written too. */
  lemma AsWrittenIsEcho(mosi: Word, t: Transfer)
    ensures Spi0SendAsWritten(mosi as bv32, t) == Spi0Send(mosi, if t.Done? then Answer(mosi) else Failed) as bv32
  {
    if t.Done? {
      Spi0SendReturnsAnswer(mosi, mosi);
    }
  }

  /** A concrete case: the chip holds received byte 0x41 ('A') with bit 15 set.
      The probe as written sees 0; the corrected exchange sees 0x8041. */
  lemma ReceivedByteLostAsWritten()
    ensures Spi0SendAsWritten(READ_DATA as bv32, Answer(0x8041)) == 0
    ensures Spi0Send(READ_DATA, Answer(0x8041)) == 0x8041
  {
    Spi0SendReturnsAnswer(READ_DATA, 0x8041);
  }
}
