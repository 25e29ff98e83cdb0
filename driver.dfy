/** The driver object: the module's globals as fields, each routine as a
    method that updates them in place and records its SPI exchanges, delays
    and tty deliveries in a ghost trace. Every method is specified by the step
    function of the same routine in Orchestrator. */
module Raspicomm {
  import opened Wrappers
  import opened Codec
  import opened Spi
  import opened TxQueue
  import opened Orchestrator

  class Driver {
    var spiConfig: Word
    var swBacksleep: int
    var parityIsEven: bool
    var parityEnabled: bool
    var openCount: int
    var openTty: Option<Tty>
    var txQueue: Queue
    /** Everything the driver did on the bus and to the tty, in order. */
    ghost var trace: seq<Event>

    /** The fields as one state value. */
    function Snapshot(): State
      reads this
    {
      State(spiConfig, swBacksleep, parityIsEven, parityEnabled, openCount, openTty, txQueue)
    }

    ghost predicate Valid()
      reads this
    {
      Inv(Snapshot())
    }

    /** The state after module load, with a transmit queue of the given
        capacity. */
    constructor (capacity: nat)
      ensures Valid() && Snapshot() == Initial(capacity) && trace == []
    {
      spiConfig := 0;
      swBacksleep := 0;
      parityIsEven := true;
      parityEnabled := false;
      openCount := 0;
      openTty := None;
      txQueue := Empty(capacity);
      trace := [];
    }

    /** One SPI exchange whose answer the routine reads. */
    method Exchange(mosi: Word, t: Transfer) returns (rx: Word)
      modifies this`trace
      ensures trace == old(trace) + [Sent(mosi)]
      ensures rx == Spi0Send(mosi, t)
    {
      trace := trace + [Sent(mosi)];
      rx := Spi0Send(mosi, t);
    }

    /** One SPI exchange whose answer the routine ignores. */
    method Send(mosi: Word)
      modifies this`trace
      ensures trace == old(trace) + [Sent(mosi)]
    {
      trace := trace + [Sent(mosi)];
    }

    /** udelay: a busy wait of us microseconds. */
    method Udelay(us: int)
      modifies this`trace
      ensures trace == old(trace) + [Delayed(us)]
    {
      trace := trace + [Delayed(us)];
    }

    /** raspicomm_rs485_received: push c to the tty when there is one with a
        port. */
    method Rs485Received(tty: Option<Tty>, c: Byte)
      modifies this`trace
      ensures trace == old(trace) + Received485(tty, c)
    {
      if tty.Some? && tty.value.hasPort {
        trace := trace + [Delivered(tty.value, c)];
      }
    }

    /** The step start_transfer and the interrupt handler share: take the
        oldest queued byte, if any, and write its data word with the parity
        bit. Returns whether a byte was taken. */
    method SendNext() returns (sent: bool)
      modifies this`txQueue, this`trace
      ensures (Snapshot(), sent) == (Orchestrator.SendNext(old(Snapshot())).0.state, Orchestrator.SendNext(old(Snapshot())).1)
      ensures trace == old(trace) + Orchestrator.SendNext(old(Snapshot())).0.events
    {
      var (q, b) := Dequeue(txQueue);
      txQueue := q;
      sent := b.Some?;
      if sent {
        var p := GetParityFlag(b.value, parityIsEven, parityEnabled);
        Send(DataWord(b.value, p));
      }
    }

    /** raspicomm_max3140_configure. */
    method Configure(speed: nat, databits: Databits, stopbits: Stopbits, parity: Parity)
      requires Valid() && speed > 0
      modifies this`spiConfig, this`swBacksleep
      ensures Valid()
      ensures Snapshot() == Orchestrator.Configure(old(Snapshot()), speed, databits, stopbits, parity)
      ensures !IsSet(spiConfig, UART_TM)
      ensures trace == old(trace)
    {
      var backsleep := SwBacksleep(speed);
      var config := UartConfig(speed, databits, stopbits, parity);
      spiConfig := config;
      swBacksleep := backsleep;
    }

    /** raspicomm_max3140_apply_config: true when the chip echoed the low 12
        bits of the configuration. */
    method ApplyConfig(readBack: Transfer) returns (ok: bool)
      modifies this`trace
      ensures ok == Orchestrator.ApplyConfig(spiConfig, readBack).ok
      ensures ok <==> Echoes(Spi0Send(READ_CONFIG, readBack), spiConfig)
      ensures trace == old(trace) + Orchestrator.ApplyConfig(spiConfig, readBack).events
    {
      Send(spiConfig);
      var rxconfig := Exchange(READ_CONFIG, readBack);
      if !Echoes(rxconfig, spiConfig) {
        return false;
      }
      Send(RECEIVE_ENABLE);
      return true;
    }

    /** raspicomm_start_transfer, with rx the chip's answer to the
        configuration write. */
    method StartTransfer(rx: Transfer)
      requires Valid()
      modifies this`spiConfig, this`txQueue, this`trace
      ensures Valid()
      ensures Snapshot() == Orchestrator.StartTransfer(old(Snapshot()), rx).state
      ensures trace == old(trace) + Orchestrator.StartTransfer(old(Snapshot()), rx).events
      ensures IsSet(spiConfig, UART_TM)
    {
      ghost var s := Snapshot();
      ghost var armed := s.(spiConfig := WithTm(s.spiConfig));
      var rxdata: Word;
      if IsSet(spiConfig, UART_TM) {
        rxdata := 0;
      } else {
        spiConfig := WithTm(spiConfig);
        rxdata := Exchange(spiConfig, rx);
        assert Snapshot() == armed;
        assert trace == old(trace) + [Sent(armed.spiConfig)];
      }
      if IsSet(rxdata, UART_T) {
        var _ := SendNext();
        AppendAssoc(old(trace), [Sent(armed.spiConfig)], Orchestrator.SendNext(armed).0.events);
      }
      StartTransferKeepsInv(s, rx);
    }

    /** raspicomm_irq_handler, with probe the chip's answer to READ_DATA. */
    method IrqHandler(probe: Transfer)
      requires Valid()
      modifies this`spiConfig, this`txQueue, this`trace
      ensures Valid()
      ensures Snapshot() == Orchestrator.Irq(old(Snapshot()), probe).state
      ensures trace == old(trace) + Orchestrator.Irq(old(Snapshot()), probe).events
    {
      var rxdata := Exchange(READ_DATA, probe);
      if IsSet(rxdata, UART_R) {
        Rs485Received(openTty, LowByte(rxdata));
      } else if IsSet(rxdata, UART_T) {
        var sent := SendNext();
        if !sent {
          spiConfig := WithoutTm(spiConfig);
          Send(spiConfig);
          Udelay(swBacksleep);
          Send(RECEIVE_ENABLE);
        }
      }
      IrqKeepsInv(old(Snapshot()), probe);
    }

    /** raspicommDriver_open. */
    method Open(tty: Tty) returns (status: OpenStatus)
      requires Valid()
      modifies this`openCount, this`openTty
      ensures Valid()
      ensures Opened(Snapshot(), status) == Orchestrator.Open(old(Snapshot()), tty)
      ensures status == Success <==> old(openCount) == 0
    {
      var was := openCount;
      openCount := openCount + 1;
      if was != 0 {
        return NoDevice;
      }
      openTty := Some(tty);
      return Success;
    }

    /** raspicommDriver_close. */
    method Close()
      requires Valid()
      modifies this`openCount, this`openTty
      ensures Valid()
      ensures Snapshot() == Orchestrator.Close(old(Snapshot()))
    {
      openCount := openCount - 1;
      if openCount == 0 {
        openTty := None;
      }
    }

    /** raspicommDriver_write for a buffer the queue has room for, with kick
        the chip's answer to the closing start_transfer. Returns the number of
        bytes queued. */
    method Write(buf: seq<Byte>, kick: Transfer) returns (written: int)
      requires Valid()
      requires |txQueue.items| + |buf| <= txQueue.capacity
      modifies this`spiConfig, this`txQueue, this`trace
      ensures Valid()
      ensures written == |buf|
      ensures Snapshot() == Orchestrator.Write(old(Snapshot()), buf, kick).state
      ensures trace == old(trace) + Orchestrator.Write(old(Snapshot()), buf, kick).events
    {
      written := 0;
      while written < |buf|
        invariant 0 <= written <= |buf|
        invariant txQueue == old(txQueue).(items := old(txQueue.items) + buf[..written])
        invariant spiConfig == old(spiConfig) && trace == old(trace)
      {
        var (q, ok) := Enqueue(txQueue, buf[written]);
        txQueue := q;
        if ok {
          assert buf[..written + 1] == buf[..written] + [buf[written]];
          written := written + 1;
        } else {
          // The room the precondition gives makes this retry branch dead;
          // in the source it spins on start_transfer until the interrupt
          // drains the queue.
          assert false;
        }
      }
      assert buf[..written] == buf;
      StartTransfer(kick);
    }

    /** raspicommDriver_set_termios, corrected to keep an armed transmit
        interrupt, with baud the tty's baud rate and readBack the chip's
        answer to READ_CONFIG. */
    method SetTermios(baud: nat, cflag: bv32, readBack: Transfer)
      requires Valid() && baud > 0
      modifies this`spiConfig, this`swBacksleep, this`parityIsEven, this`parityEnabled, this`trace
      ensures Valid()
      ensures Snapshot() == Orchestrator.SetTermios(old(Snapshot()), baud, cflag, readBack).state
      ensures trace == old(trace) + Orchestrator.SetTermios(old(Snapshot()), baud, cflag, readBack).events
    {
      var armed := IsSet(spiConfig, UART_TM);
      var databits := if cflag & CSIZE == CS7 then Databits7 else Databits8;
      var stopbits := if cflag & CSTOPB != 0 then StopbitsTwo else StopbitsOne;
      var parity: Parity;
      if cflag & PARENB != 0 {
        parityIsEven := cflag & PARODD == 0;
        parity := ParityOn;
        parityEnabled := true;
      } else {
        parity := ParityOff;
        parityEnabled := false;
      }
      Configure(baud, databits, stopbits, parity);
      // Keep a transmit interrupt start_transfer had armed (see Findings).
      if armed {
        spiConfig := WithTm(spiConfig);
      }
      // set_termios does not look at whether the chip accepted the settings.
      var accepted := ApplyConfig(readBack);
    }
  }

  /** Regrouping a trace that grew in two steps. */
  lemma AppendAssoc<T>(a: seq<T>, b: seq<T>, c: seq<T>)
    ensures (a + b) + c == a + (b + c)
  {
  }
}
