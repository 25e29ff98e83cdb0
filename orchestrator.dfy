/** The transfer state machine of the driver as functions: the shared state
    (configuration word with the software-tracked transmit-interrupt bit TM,
    back-sleep, parity flags, open counter and tty, transmit queue), and one
    step function per routine, each giving the new state and what the
    routine did on the bus, in order. */
module Orchestrator {
  import opened Wrappers
  import opened Codec
  import opened Spi
  import opened TxQueue

  /** A tty the kernel opened; hasPort says whether its tty_port is set. */
  datatype Tty = Tty(id: nat, hasPort: bool)

  /** What a routine does to the outside world: one SPI exchange sending
      word, a busy wait of us microseconds, or one byte pushed to a tty. */
  datatype Event = Sent(word: Word) | Delayed(us: int) | Delivered(tty: Tty, c: Byte)

  /** The driver's global state (module.c:204-221). */
  datatype State = State(
    spiConfig: Word,
    swBacksleep: int,
    parityIsEven: bool,
    parityEnabled: bool,
    openCount: int,
    openTty: Option<Tty>,
    txQueue: Queue)

  datatype Step = Step(state: State, events: seq<Event>)

  /** The queue keeps its bound, and no tty is recorded while no session is
      open. */
  predicate Inv(s: State)
  {
    Valid(s.txQueue) && (s.openCount <= 0 ==> s.openTty.None?)
  }

  /** Bytes waiting in the queue imply that the transmit interrupt is armed,
      so that the chip will ask for them. */
  predicate Armed(s: State)
  {
    s.txQueue.items != [] ==> IsSet(s.spiConfig, UART_TM)
  }

  /** The state after module load: SpiConfig 0, even parity selected but
      disabled, nothing open, an empty queue. */
  function Initial(capacity: nat): (s: State)
    ensures Inv(s) && Armed(s) && !IsSet(s.spiConfig, UART_TM)
    ensures s.txQueue.items == [] && s.txQueue.capacity == capacity
    ensures s.spiConfig == 0 && s.openCount == 0 && s.openTty.None?
  {
    State(0, 0, true, false, 0, None, Empty(capacity))
  }

  /** The byte one event puts on the line, if any. */
  function EmittedBy(e: Event): seq<Byte>
  {
    if e.Sent? && TransmittedByte(e.word).Some? then [TransmittedByte(e.word).value] else []
  }

  /** The bytes the events put on the line, in order. */
  function Transmitted(evs: seq<Event>): seq<Byte>
  {
    if evs == [] then [] else EmittedBy(evs[0]) + Transmitted(evs[1..])
  }

  lemma {:induction false} TransmittedConcat(a: seq<Event>, b: seq<Event>)
    ensures Transmitted(a + b) == Transmitted(a) + Transmitted(b)
  {
    if a == [] {
      assert a + b == b;
    } else {
      assert (a + b)[0] == a[0];
      assert (a + b)[1..] == a[1..] + b;
      TransmittedConcat(a[1..], b);
    }
  }

  /** What one event puts on the line. */
  lemma TransmittedOne(e: Event)
    ensures Transmitted([e]) == EmittedBy(e)
  {
    assert [e][1..] == [];
  }

  /** Neither a configuration word (T set), nor the two read commands, nor
      the receive-enable word (TE set) transmits a byte. */
  lemma ControlWordsTransmitNothing(config: Word)
    requires IsSet(config, UART_T)
    ensures TransmittedByte(config).None?
    ensures TransmittedByte(READ_DATA).None? && TransmittedByte(READ_CONFIG).None?
    ensures TransmittedByte(RECEIVE_ENABLE).None?
  {
  }

  /** The data word that sends byte b under the state's parity flags. */
  function DataWordFor(s: State, b: Byte): Word
  {
    DataWord(b, ParityFlag(b, s.parityIsEven, s.parityEnabled))
  }

  /** Every word of evs that transmits a byte is that byte's data word with
      the parity bit the state's flags ask for. */
  ghost predicate ParityCorrect(s: State, evs: seq<Event>)
  {
    forall i :: 0 <= i < |evs| && evs[i].Sent? && TransmittedByte(evs[i].word).Some? ==>
      evs[i].word == DataWordFor(s, TransmittedByte(evs[i].word).value)
  }

  /** raspicomm_max3140_configure: the new configuration word and back-sleep;
      the back-sleep is computed from the requested speed, even when the baud
      index fell back to 9600's. */
  function Configure(s: State, speed: nat, databits: Databits, stopbits: Stopbits, parity: Parity): (r: State)
    requires speed > 0
    ensures DecodeConfig(r.spiConfig) == ConfigFields(BaudrateIndex(speed), stopbits, parity, databits)
    ensures r.spiConfig & WRITE_CONFIG == WRITE_CONFIG && r.spiConfig & UART_RM != 0
    ensures !IsSet(r.spiConfig, UART_TM) && r.spiConfig & UNUSED_MODES == 0
    ensures r.swBacksleep * speed <= 10000000 < (r.swBacksleep + 1) * speed
    ensures r.(spiConfig := s.spiConfig, swBacksleep := s.swBacksleep) == s
  {
    s.(spiConfig := UartConfig(speed, databits, stopbits, parity), swBacksleep := SwBacksleep(speed))
  }

  /** An unsupported speed is configured with 9600's index but with its own
      back-sleep: 300 baud gives index 0xB and 33333 microseconds. */
  lemma ConfigureFallbackKeepsSpeed(s: State)
    ensures Configure(s, 300, Databits8, StopbitsOne, ParityOff).spiConfig
         == Configure(s, 9600, Databits8, StopbitsOne, ParityOff).spiConfig
    ensures Configure(s, 300, Databits8, StopbitsOne, ParityOff).swBacksleep == 33333
    ensures Configure(s, 9600, Databits8, StopbitsOne, ParityOff).swBacksleep == 1041
  {
    assert 300 !in BaudTable;
  }

  /** Result of apply_config: whether the chip echoed the configuration,
      and the exchanges it made. */
  datatype Checked = Checked(ok: bool, events: seq<Event>)

  /** raspicomm_max3140_apply_config: write the configuration, read it back,
      and only when the low 12 bits agree write the receive-enable word. */
  function ApplyConfig(config: Word, readBack: Transfer): (r: Checked)
    ensures r.ok <==> Echoes(Spi0Send(READ_CONFIG, readBack), config)
    ensures r.events == [Sent(config), Sent(READ_CONFIG)] + (if r.ok then [Sent(RECEIVE_ENABLE)] else [])
  {
    var rxconfig := Spi0Send(READ_CONFIG, readBack);
    var sent := [Sent(config), Sent(READ_CONFIG)];
    if !Echoes(rxconfig, config) then Checked(false, sent)
    else Checked(true, sent + [Sent(RECEIVE_ENABLE)])
  }

  /** A chip that echoes the configuration word is accepted; one that echoes
      the word of different line settings is rejected. */
  lemma ApplyConfigChecksEcho(speed: nat, d: Databits, t: Stopbits, p: Parity,
                              speed': nat, d': Databits, t': Stopbits, p': Parity)
    ensures ApplyConfig(UartConfig(speed, d, t, p), Answer(UartConfig(speed, d, t, p))).ok
    ensures ApplyConfig(UartConfig(speed, d, t, p), Answer(UartConfig(speed', d', t', p'))).ok
        <==> (BaudrateIndex(speed) == BaudrateIndex(speed') && d == d' && t == t' && p == p')
  {
    var w, w' := UartConfig(speed, d, t, p), UartConfig(speed', d', t', p');
    Spi0SendReturnsAnswer(READ_CONFIG, w);
    Spi0SendReturnsAnswer(READ_CONFIG, w');
    ConfigLowBitsMatch(speed', d', t', p', speed, d, t, p);
  }

  /** raspicomm_rs485_received: the byte reaches the tty only when one is open
      and has a port; otherwise it is dropped. */
  function Received485(tty: Option<Tty>, c: Byte): (r: seq<Event>)
    ensures r != [] <==> tty.Some? && tty.value.hasPort
    ensures r != [] ==> r == [Delivered(tty.value, c)]
  {
    if tty.Some? && tty.value.hasPort then [Delivered(tty.value, c)] else []
  }

  /** The step start_transfer and the interrupt handler share: take the
      oldest queued byte, if any, and write its data word with the parity bit
      the flags ask for; the flag says whether a byte was taken. */
  function SendNext(s: State): (r: (Step, bool))
    ensures r.1 <==> s.txQueue.items != []
    ensures r.1 ==> r.0 == Step(s.(txQueue := s.txQueue.(items := s.txQueue.items[1..])),
                                [Sent(DataWordFor(s, s.txQueue.items[0]))])
    ensures !r.1 ==> r.0 == Step(s, [])
  {
    var (q, b) := Dequeue(s.txQueue);
    if b.Some? then (Step(s.(txQueue := q), [Sent(DataWordFor(s, b.value))]), true)
    else (Step(s, []), false)
  }

  /** raspicomm_start_transfer: when TM is already set nothing happens;
      otherwise TM is set and the configuration written, and when the chip
      answers "transmit empty" the oldest queued byte, if any, is sent. */
  function StartTransfer(s: State, rx: Transfer): (r: Step)
    ensures IsSet(r.state.spiConfig, UART_TM)
    ensures IsSet(s.spiConfig, UART_TM) ==> r == Step(s, [])
  {
    if IsSet(s.spiConfig, UART_TM) then Step(s, [])
    else
      var armed := s.(spiConfig := WithTm(s.spiConfig));
      TmBits(s.spiConfig);
      if IsSet(Spi0Send(armed.spiConfig, rx), UART_T) then
        var n := SendNext(armed).0;
        Step(n.state, [Sent(armed.spiConfig)] + n.events)
      else Step(armed, [Sent(armed.spiConfig)])
  }

  /** When TM is clear: the armed configuration word goes out first, and one
      data word follows exactly when the chip reports "transmit empty" and a
      byte is queued; that byte is the oldest and only it leaves the queue. */
  lemma StartTransferSends(s: State, rx: Transfer)
    requires !IsSet(s.spiConfig, UART_TM)
    ensures var r := StartTransfer(s, rx);
      var config := WithTm(s.spiConfig);
      && r.state.spiConfig == config
      && (IsSet(Spi0Send(config, rx), UART_T) && s.txQueue.items != [] ==>
            r.events == [Sent(config), Sent(DataWordFor(s, s.txQueue.items[0]))]
            && r.state.txQueue.items == s.txQueue.items[1..])
      && (!IsSet(Spi0Send(config, rx), UART_T) || s.txQueue.items == [] ==>
            r.events == [Sent(config)] && r.state.txQueue == s.txQueue)
      && r.state.(spiConfig := s.spiConfig, txQueue := s.txQueue) == s
      && r.state.txQueue.capacity == s.txQueue.capacity
  {
    var armed := s.(spiConfig := WithTm(s.spiConfig));
    if s.txQueue.items != [] {
      assert DataWordFor(armed, s.txQueue.items[0]) == DataWordFor(s, s.txQueue.items[0]);
    }
  }

  /** start_transfer puts on the line exactly the byte it takes from the front
      of the queue, framed with the parity the flags ask for. */
  lemma StartTransferIsFifo(s: State, rx: Transfer)
    ensures var r := StartTransfer(s, rx);
      Transmitted(r.events) + r.state.txQueue.items == s.txQueue.items
      && ParityCorrect(s, r.events)
  {
    var config := WithTm(s.spiConfig);
    if IsSet(s.spiConfig, UART_TM) {
      NoDataEvents(s, []);
    } else if IsSet(Spi0Send(config, rx), UART_T) && s.txQueue.items != [] {
      StartTransferSendsOldest(s, rx);
    } else {
      StartTransferSendsNothing(s, rx);
    }
  }

  /** The branch of start_transfer that only arms: the configuration word
      goes out and the queue is left as it was. */
  lemma StartTransferSendsNothing(s: State, rx: Transfer)
    requires !IsSet(s.spiConfig, UART_TM)
    requires !IsSet(Spi0Send(WithTm(s.spiConfig), rx), UART_T) || s.txQueue.items == []
    ensures var r := StartTransfer(s, rx);
      Transmitted(r.events) + r.state.txQueue.items == s.txQueue.items
      && ParityCorrect(s, r.events)
  {
    var config := WithTm(s.spiConfig);
    StartTransferSends(s, rx);
    ControlWordsTransmitNothing(config);
    NoDataEvents(s, [Sent(config)]);
  }

  /** The branch of start_transfer that sends: the byte on the line is the
      one that left the front of the queue. */
  lemma StartTransferSendsOldest(s: State, rx: Transfer)
    requires !IsSet(s.spiConfig, UART_TM) && s.txQueue.items != []
    requires IsSet(Spi0Send(WithTm(s.spiConfig), rx), UART_T)
    ensures var r := StartTransfer(s, rx);
      Transmitted(r.events) + r.state.txQueue.items == s.txQueue.items
      && ParityCorrect(s, r.events)
  {
    var config := WithTm(s.spiConfig);
    var b := s.txQueue.items[0];
    StartTransferSends(s, rx);
    ControlWordsTransmitNothing(config);
    ControlThenData(s, config, b);
    assert s.txQueue.items == [b] + s.txQueue.items[1..];
  }

  /** Kicking twice changes nothing the second time: no exchange, no dequeue. */
  lemma StartTransferIdempotent(s: State, rx1: Transfer, rx2: Transfer)
    ensures var s1 := StartTransfer(s, rx1).state;
      StartTransfer(s1, rx2) == Step(s1, [])
  {
  }

  /** raspicomm_irq_handler: probe with READ_DATA, then exactly one of: pass
      the received byte on; send the next queued byte; or, with nothing left
      to send, clear TM, write the configuration, wait the back-sleep and
      release RTS. */
  function Irq(s: State, probe: Transfer): (r: Step)
    ensures |r.events| >= 1 && r.events[0] == Sent(READ_DATA)
  {
    var rxdata := Spi0Send(READ_DATA, probe);
    if IsSet(rxdata, UART_R) then
      Step(s, [Sent(READ_DATA)] + Received485(s.openTty, LowByte(rxdata)))
    else if IsSet(rxdata, UART_T) then
      var (n, sent) := SendNext(s);
      if sent then
        Step(n.state, [Sent(READ_DATA)] + n.events)
      else
        var config := WithoutTm(s.spiConfig);
        Step(s.(spiConfig := config), [Sent(READ_DATA), Sent(config), Delayed(s.swBacksleep), Sent(RECEIVE_ENABLE)])
    else
      Step(s, [Sent(READ_DATA)])
  }

  /** The four outcomes of the handler, by the probe's answer: receive
      (bit 15) leaves the state alone; transmit-empty (bit 14) with a byte
      queued sends the oldest; transmit-empty with an empty queue disarms TM
      and only then releases the line; anything else sends nothing more. */
  lemma IrqBranches(s: State, probe: Transfer)
    ensures var r := Irq(s, probe);
      var rx := Spi0Send(READ_DATA, probe);
      var disarmed := WithoutTm(s.spiConfig);
      && (IsSet(rx, UART_R) ==>
            r.state == s && r.events == [Sent(READ_DATA)] + Received485(s.openTty, LowByte(rx)))
      && (!IsSet(rx, UART_R) && IsSet(rx, UART_T) && s.txQueue.items != [] ==>
            r.state == s.(txQueue := s.txQueue.(items := s.txQueue.items[1..]))
            && r.events == [Sent(READ_DATA), Sent(DataWordFor(s, s.txQueue.items[0]))])
      && (!IsSet(rx, UART_R) && IsSet(rx, UART_T) && s.txQueue.items == [] ==>
            r.state == s.(spiConfig := disarmed) && !IsSet(disarmed, UART_TM)
            && r.events == [Sent(READ_DATA), Sent(disarmed), Delayed(s.swBacksleep), Sent(RECEIVE_ENABLE)])
      && (!IsSet(rx, UART_R) && !IsSet(rx, UART_T) ==> r == Step(s, [Sent(READ_DATA)]))
  {
  }

  /** Events none of which transmits put nothing on the line. */
  lemma {:induction false} NoDataEvents(s: State, evs: seq<Event>)
    requires forall i :: 0 <= i < |evs| ==> EmittedBy(evs[i]) == []
    ensures Transmitted(evs) == [] && ParityCorrect(s, evs)
  {
    if evs != [] {
      assert forall i :: 0 <= i < |evs| - 1 ==> evs[1..][i] == evs[i + 1];
      NoDataEvents(s, evs[1..]);
    }
  }

  /** A control word followed by a data word puts exactly that data word's
      byte on the line, with the parity the flags ask for. */
  lemma ControlThenData(s: State, control: Word, b: Byte)
    requires TransmittedByte(control).None?
    ensures Transmitted([Sent(control), Sent(DataWordFor(s, b))]) == [b]
    ensures ParityCorrect(s, [Sent(control), Sent(DataWordFor(s, b))])
  {
    var evs := [Sent(control), Sent(DataWordFor(s, b))];
    DataWordLayout(b, s.parityIsEven, s.parityEnabled);
    assert evs[1..] == [Sent(DataWordFor(s, b))];
    TransmittedOne(Sent(DataWordFor(s, b)));
  }

  /** The handler puts on the line at most the oldest queued byte, which
      leaves the queue, framed with the parity the flags ask for. */
  lemma IrqIsFifo(s: State, probe: Transfer)
    ensures var r := Irq(s, probe);
      Transmitted(r.events) + r.state.txQueue.items == s.txQueue.items
      && ParityCorrect(s, r.events)
      && r.state.txQueue.capacity == s.txQueue.capacity
  {
    var rx := Spi0Send(READ_DATA, probe);
    if !IsSet(rx, UART_R) && IsSet(rx, UART_T) && s.txQueue.items != [] {
      IrqSendsOldest(s, probe);
    } else {
      IrqSendsNothing(s, probe);
    }
  }

  /** The branch of the handler that transmits: the byte on the line is the
      one that left the front of the queue. */
  lemma IrqSendsOldest(s: State, probe: Transfer)
    requires !IsSet(Spi0Send(READ_DATA, probe), UART_R) && IsSet(Spi0Send(READ_DATA, probe), UART_T)
    requires s.txQueue.items != []
    ensures var r := Irq(s, probe);
      Transmitted(r.events) + r.state.txQueue.items == s.txQueue.items
      && ParityCorrect(s, r.events)
      && r.state.txQueue.capacity == s.txQueue.capacity
  {
    IrqBranches(s, probe);
    ControlThenData(s, READ_DATA, s.txQueue.items[0]);
    assert s.txQueue.items == [s.txQueue.items[0]] + s.txQueue.items[1..];
  }

  /** The other branches of the handler put nothing on the line and leave
      the queue alone. */
  lemma IrqSendsNothing(s: State, probe: Transfer)
    requires IsSet(Spi0Send(READ_DATA, probe), UART_R) || !IsSet(Spi0Send(READ_DATA, probe), UART_T)
      || s.txQueue.items == []
    ensures var r := Irq(s, probe);
      Transmitted(r.events) == [] && ParityCorrect(s, r.events) && r.state.txQueue == s.txQueue
  {
    IrqBranches(s, probe);
    TmBits(s.spiConfig);
    ControlWordsTransmitNothing(WithoutTm(s.spiConfig));
    NoDataEvents(s, Irq(s, probe).events);
  }

  /** Receiving never touches the queue, and an open tty with a port gets
      exactly the byte the chip reported. */
  lemma IrqReceiveDelivers(s: State, c: Byte, tty: Tty)
    requires s.openTty == Some(tty) && tty.hasPort
    ensures Irq(s, Answer(0x8000 | c)) == Step(s, [Sent(READ_DATA), Delivered(tty, c)])
  {
    var w: Word := 0x8000 | c;
    Spi0SendReturnsAnswer(READ_DATA, w);
    assert LowByte(w) == c;
  }

  /** The line is released only after the back-sleep: whenever the receive-
      enable word follows the probe, the wait comes right before it. */
  lemma IrqWaitsBeforeRelease(s: State, probe: Transfer)
    ensures var evs := Irq(s, probe).events;
      forall i :: 0 < i < |evs| && evs[i] == Sent(RECEIVE_ENABLE) ==> evs[i - 1] == Delayed(s.swBacksleep)
  {
    var b := DataWordFor(s, if s.txQueue.items == [] then 0 else s.txQueue.items[0]);
    if s.txQueue.items != [] {
      DataWordLayout(s.txQueue.items[0], s.parityIsEven, s.parityEnabled);
      assert b != RECEIVE_ENABLE;
    }
  }

  /** The kick keeps the queue bound and the session invariant. */
  lemma StartTransferKeepsInv(s: State, rx: Transfer)
    requires Inv(s)
    ensures Inv(StartTransfer(s, rx).state)
  {
    if !IsSet(s.spiConfig, UART_TM) { StartTransferSends(s, rx); }
  }

  /** The handler keeps the queue bound and the session invariant. */
  lemma IrqKeepsInv(s: State, probe: Transfer)
    requires Inv(s)
    ensures Inv(Irq(s, probe).state)
  {
    IrqBranches(s, probe);
  }

  /** The kick always leaves TM set; the handler clears it only once the
      queue is empty: neither leaves bytes waiting with the interrupt off. */
  lemma StepsKeepArmed(s: State, rx: Transfer)
    requires Armed(s)
    ensures Armed(StartTransfer(s, rx).state) && Armed(Irq(s, rx).state)
  {
    IrqBranches(s, rx);
  }

  /** raspicommDriver_write, for a buffer the queue has room for: all bytes
      are enqueued in order and the transfer is kicked once. */
  function Write(s: State, buf: seq<Byte>, kick: Transfer): (r: Step)
    requires |s.txQueue.items| + |buf| <= s.txQueue.capacity
    ensures IsSet(r.state.spiConfig, UART_TM)
  {
    StartTransfer(s.(txQueue := s.txQueue.(items := s.txQueue.items + buf)), kick)
  }

  /** A whole transmit cycle from module load: write "AB" while the chip
      reports "transmit empty" to every probe. The kick arms TM and sends 'A';
      the first interrupt sends 'B'; the second finds the queue empty, disarms
      TM, waits the back-sleep and releases the line. */
  lemma TwoByteWriteCycle()
    ensures var w := Write(Initial(16), [0x41, 0x42], Answer(UART_T));
      var i1 := Irq(w.state, Answer(UART_T));
      var i2 := Irq(i1.state, Answer(UART_T));
      && w.events == [Sent(0xC800), Sent(0x8041)]
      && i1.events == [Sent(READ_DATA), Sent(0x8042)]
      && i2.events == [Sent(READ_DATA), Sent(0xC000), Delayed(0), Sent(RECEIVE_ENABLE)]
      && i2.state == Initial(16).(spiConfig := 0xC000)
  {
    var s := Initial(16).(txQueue := Queue([0x41, 0x42], 16));
    Spi0SendReturnsAnswer(WithTm(0), UART_T);
    Spi0SendReturnsAnswer(READ_DATA, UART_T);
    StartTransferSends(s, Answer(UART_T));
    var w := StartTransfer(s, Answer(UART_T));
    assert DataWordFor(s, 0x41) == 0x8041;
    IrqBranches(w.state, Answer(UART_T));
    assert DataWordFor(w.state, 0x42) == 0x8042;
    var i1 := Irq(w.state, Answer(UART_T));
    IrqBranches(i1.state, Answer(UART_T));
  }

  /** After write, the bytes on the line and those still queued are the old
      queue followed by the buffer; the interrupt is armed; the bound and the
      session invariant hold. */
  lemma WriteIsFifo(s: State, buf: seq<Byte>, kick: Transfer)
    requires |s.txQueue.items| + |buf| <= s.txQueue.capacity
    ensures var r := Write(s, buf, kick);
      Transmitted(r.events) + r.state.txQueue.items == s.txQueue.items + buf
      && ParityCorrect(s, r.events) && Armed(r.state)
      && (Inv(s) ==> Inv(r.state))
  {
    var queued := s.(txQueue := s.txQueue.(items := s.txQueue.items + buf));
    StartTransferIsFifo(queued, kick);
    if Inv(s) {
      StartTransferKeepsInv(queued, kick);
    }
    assert forall b :: DataWordFor(queued, b) == DataWordFor(s, b);
  }

  datatype OpenStatus = Success | NoDevice
  datatype Opened = Opened(state: State, status: OpenStatus)

  /** raspicommDriver_open: the counter always goes up; only the open that
      finds it at 0 succeeds and records the tty. */
  function Open(s: State, tty: Tty): (r: Opened)
    ensures r.state.openCount == s.openCount + 1
    ensures r.status == Success <==> s.openCount == 0
    ensures r.state.openTty == if r.status == Success then Some(tty) else s.openTty
    ensures r.state.(openCount := s.openCount, openTty := s.openTty) == s
  {
    if s.openCount != 0 then Opened(s.(openCount := s.openCount + 1), NoDevice)
    else Opened(s.(openCount := 1, openTty := Some(tty)), Success)
  }

  /** raspicommDriver_close: the counter goes down and the tty is forgotten
      exactly when it reaches 0. */
  function Close(s: State): (r: State)
    ensures r.openCount == s.openCount - 1
    ensures r.openTty == if r.openCount == 0 then None else s.openTty
    ensures r.(openCount := s.openCount, openTty := s.openTty) == s
  {
    var n := s.openCount - 1;
    if n != 0 then s.(openCount := n) else s.(openCount := 0, openTty := None)
  }

  /** A close undoes the open before it, whether that open succeeded or not. */
  lemma OpenCloseRestores(s: State, tty: Tty)
    requires Inv(s)
    ensures Close(Open(s, tty).state) == s
  {
  }

  /** One session at a time: while one is open, a second open fails. */
  lemma SecondOpenFails(s: State, t1: Tty, t2: Tty)
    requires s.openCount >= 0
    ensures Open(Open(s, t1).state, t2).status == NoDevice
  {
  }

  /** raspicommDriver_set_termios as written, for a nonzero baud rate: record
      the parity flags (the polarity only when parity is on), configure,
      apply; the result of apply_config is not looked at. Configure builds the
      word afresh, so a transmit interrupt start_transfer had armed is lost. */
  function SetTermiosAsWritten(s: State, baud: nat, cflag: bv32, readBack: Transfer): (r: Step)
    requires baud > 0
    ensures r.state.parityEnabled <==> cflag & PARENB != 0
    ensures r.state.parityIsEven == if cflag & PARENB != 0 then cflag & PARODD == 0 else s.parityIsEven
    ensures DecodeConfig(r.state.spiConfig) == ConfigFields(BaudrateIndex(baud),
      DecodeCflag(cflag).stopbits, DecodeCflag(cflag).parity, DecodeCflag(cflag).databits)
    ensures r.state.spiConfig & WRITE_CONFIG == WRITE_CONFIG && IsSet(r.state.spiConfig, UART_RM)
    ensures !IsSet(r.state.spiConfig, UART_TM) && r.state.spiConfig & UNUSED_MODES == 0
    ensures r.state.swBacksleep == SwBacksleep(baud)
    ensures r.state.txQueue == s.txQueue && r.state.openCount == s.openCount && r.state.openTty == s.openTty
    ensures r.events == ApplyConfig(r.state.spiConfig, readBack).events
  {
    var ls := DecodeCflag(cflag);
    var flagged :=
      if ls.parity == ParityOn then s.(parityIsEven := ls.parityIsEven, parityEnabled := true)
      else s.(parityEnabled := false);
    var configured := Configure(flagged, baud, ls.databits, ls.stopbits, ls.parity);
    Step(configured, ApplyConfig(configured.spiConfig, readBack).events)
  }

  /** As written, changing the line settings while bytes wait disarms the
      transmit interrupt: the chip never asks for those bytes, and they stay
      queued until the next write kicks the transfer again. */
  lemma SetTermiosDisarms(s: State, baud: nat, cflag: bv32, readBack: Transfer)
    requires baud > 0 && s.txQueue.items != []
    ensures !Armed(SetTermiosAsWritten(s, baud, cflag, readBack).state)
  {
  }

  /** raspicommDriver_set_termios as the model uses it: as written, except
      that a transmit interrupt armed before the call stays armed in the new
      configuration word. */
  function SetTermios(s: State, baud: nat, cflag: bv32, readBack: Transfer): (r: Step)
    requires baud > 0
    ensures r.state.parityEnabled <==> cflag & PARENB != 0
    ensures r.state.parityIsEven == if cflag & PARENB != 0 then cflag & PARODD == 0 else s.parityIsEven
    ensures DecodeConfig(r.state.spiConfig) == ConfigFields(BaudrateIndex(baud),
      DecodeCflag(cflag).stopbits, DecodeCflag(cflag).parity, DecodeCflag(cflag).databits)
    ensures r.state.spiConfig & WRITE_CONFIG == WRITE_CONFIG && IsSet(r.state.spiConfig, UART_RM)
    ensures IsSet(r.state.spiConfig, UART_TM) <==> IsSet(s.spiConfig, UART_TM)
    ensures r.state.spiConfig & UNUSED_MODES == 0
    ensures r.state.swBacksleep == SwBacksleep(baud)
    ensures r.state.txQueue == s.txQueue && r.state.openCount == s.openCount && r.state.openTty == s.openTty
    ensures r.events == ApplyConfig(r.state.spiConfig, readBack).events
  {
    var w := SetTermiosAsWritten(s, baud, cflag, readBack).state;
    var kept := if IsSet(s.spiConfig, UART_TM) then w.(spiConfig := WithTm(w.spiConfig)) else w;
    TmBits(w.spiConfig);
    WithTmKeepsFields(w.spiConfig);
    Step(kept, ApplyConfig(kept.spiConfig, readBack).events)
  }

  /** The corrected set_termios differs from the code as written only in the
      TM bit of the configuration word, and it keeps the transmit interrupt
      armed while bytes wait. */
  lemma SetTermiosKeepsArmed(s: State, baud: nat, cflag: bv32, readBack: Transfer)
    requires baud > 0
    ensures var r := SetTermios(s, baud, cflag, readBack).state;
      var w := SetTermiosAsWritten(s, baud, cflag, readBack).state;
      && r.spiConfig == (if IsSet(s.spiConfig, UART_TM) then WithTm(w.spiConfig) else w.spiConfig)
      && r.(spiConfig := w.spiConfig) == w
      && (Armed(s) ==> Armed(r))
  {
  }

  /** A change of line settings transmits no byte: it writes the new
      configuration, reads it back and at most releases the line. */
  lemma SetTermiosSendsNoData(s: State, baud: nat, cflag: bv32, readBack: Transfer)
    requires baud > 0
    ensures Transmitted(SetTermios(s, baud, cflag, readBack).events) == []
    ensures Transmitted(SetTermiosAsWritten(s, baud, cflag, readBack).events) == []
  {
    ApplyConfigSendsNoData(SetTermios(s, baud, cflag, readBack).state.spiConfig, readBack);
    ApplyConfigSendsNoData(SetTermiosAsWritten(s, baud, cflag, readBack).state.spiConfig, readBack);
  }

  /** apply_config on a configuration word puts no byte on the line. */
  lemma ApplyConfigSendsNoData(config: Word, readBack: Transfer)
    requires config & WRITE_CONFIG == WRITE_CONFIG
    ensures Transmitted(ApplyConfig(config, readBack).events) == []
  {
    ControlWordsTransmitNothing(config);
    TransmittedOne(Sent(config));
    TransmittedOne(Sent(READ_CONFIG));
    TransmittedOne(Sent(RECEIVE_ENABLE));
    TransmittedConcat([Sent(config)], [Sent(READ_CONFIG)]);
    assert [Sent(config)] + [Sent(READ_CONFIG)] == [Sent(config), Sent(READ_CONFIG)];
    TransmittedConcat([Sent(config), Sent(READ_CONFIG)], [Sent(RECEIVE_ENABLE)]);
    TransmittedConcat([Sent(config), Sent(READ_CONFIG)], []);
  }

  /** One call into the driver, with the chip's answer to the exchange the
      routine inspects. */
  datatype Op =
    | WriteOp(buf: seq<Byte>, kick: Transfer)
    | KickOp(rx: Transfer)
    | IrqOp(probe: Transfer)
    | TermiosOp(baud: nat, cflag: bv32, readBack: Transfer)
    | TermiosAsWrittenOp(baud: nat, cflag: bv32, readBack: Transfer)
    | OpenOp(tty: Tty)
    | CloseOp

  /** One operation; None for a write the queue has no room for, or a zero
      baud rate, neither of which the model covers. TermiosOp is the
      corrected set_termios, TermiosAsWrittenOp the code as written. */
  function Apply(s: State, op: Op): Option<Step>
  {
    match op
    case WriteOp(buf, kick) =>
      if |s.txQueue.items| + |buf| <= s.txQueue.capacity then Some(Write(s, buf, kick)) else None
    case KickOp(rx) => Some(StartTransfer(s, rx))
    case IrqOp(probe) => Some(Irq(s, probe))
    case TermiosOp(baud, cflag, readBack) =>
      if baud > 0 then Some(SetTermios(s, baud, cflag, readBack)) else None
    case TermiosAsWrittenOp(baud, cflag, readBack) =>
      if baud > 0 then Some(SetTermiosAsWritten(s, baud, cflag, readBack)) else None
    case OpenOp(tty) => Some(Step(Open(s, tty).state, []))
    case CloseOp => Some(Step(Close(s), []))
  }

  /** The bytes one operation hands to write. */
  function WrittenBy(op: Op): seq<Byte>
  {
    if op.WriteOp? then op.buf else []
  }

  /** The bytes the host handed to write, in order. */
  function Written(ops: seq<Op>): seq<Byte>
  {
    if ops == [] then [] else WrittenBy(ops[0]) + Written(ops[1..])
  }

  /** Every single operation is first in, first out. */
  lemma ApplyIsFifo(s: State, op: Op)
    requires Apply(s, op).Some?
    ensures Transmitted(Apply(s, op).value.events) + Apply(s, op).value.state.txQueue.items
         == s.txQueue.items + WrittenBy(op)
  {
    match op
    case WriteOp(buf, kick) => WriteIsFifo(s, buf, kick);
    case KickOp(rx) => StartTransferIsFifo(s, rx);
    case IrqOp(probe) => IrqIsFifo(s, probe);
    case TermiosOp(baud, cflag, readBack) => SetTermiosSendsNoData(s, baud, cflag, readBack);
    case TermiosAsWrittenOp(baud, cflag, readBack) => SetTermiosSendsNoData(s, baud, cflag, readBack);
    case OpenOp(tty) =>
    case CloseOp =>
  }

  /** Every single operation keeps the invariants; all but set_termios as
      written keep the interrupt armed while bytes wait. */
  lemma ApplyKeepsInvariants(s: State, op: Op)
    requires Apply(s, op).Some? && Inv(s)
    ensures Inv(Apply(s, op).value.state)
    ensures Armed(s) && !op.TermiosAsWrittenOp? ==> Armed(Apply(s, op).value.state)
  {
    match op
    case WriteOp(buf, kick) => WriteIsFifo(s, buf, kick);
    case KickOp(rx) => StartTransferKeepsInv(s, rx); if Armed(s) { StepsKeepArmed(s, rx); }
    case IrqOp(probe) => IrqKeepsInv(s, probe); if Armed(s) { StepsKeepArmed(s, probe); }
    case TermiosOp(baud, cflag, readBack) => SessionOpKeepsInvariants(s, op);
      SetTermiosKeepsArmed(s, baud, cflag, readBack);
    case TermiosAsWrittenOp(baud, cflag, readBack) => SessionOpKeepsInvariants(s, op);
    case OpenOp(tty) => SessionOpKeepsInvariants(s, op);
    case CloseOp => SessionOpKeepsInvariants(s, op);
  }

  /** Changing the line settings, opening and closing keep the invariants;
      opening and closing leave the queue and TM alone. */
  lemma SessionOpKeepsInvariants(s: State, op: Op)
    requires op.TermiosOp? || op.TermiosAsWrittenOp? || op.OpenOp? || op.CloseOp?
    requires Apply(s, op).Some? && Inv(s)
    ensures Inv(Apply(s, op).value.state)
    ensures Armed(s) && (op.OpenOp? || op.CloseOp?) ==> Armed(Apply(s, op).value.state)
  {
  }

  /** A sequence of operations, each on the state the previous one left. */
  function Run(s: State, ops: seq<Op>): Option<Step>
    decreases |ops|
  {
    if ops == [] then Some(Step(s, []))
    else
      match Apply(s, ops[0])
      case None => None
      case Some(first) =>
        match Run(first.state, ops[1..])
        case None => None
        case Some(rest) => Some(Step(rest.state, first.events + rest.events))
  }

  /** Two first-in-first-out steps make one. */
  lemma Chain<T>(sent1: seq<T>, sent2: seq<T>, q0: seq<T>, q1: seq<T>, q2: seq<T>, in1: seq<T>, in2: seq<T>)
    requires sent1 + q1 == q0 + in1
    requires sent2 + q2 == q1 + in2
    ensures (sent1 + sent2) + q2 == q0 + (in1 + in2)
  {
    calc {
      (sent1 + sent2) + q2;
      sent1 + (sent2 + q2);
      sent1 + (q1 + in2);
      (sent1 + q1) + in2;
      (q0 + in1) + in2;
    }
  }

  /** Over any run, the bytes put on the line followed by the bytes still
      queued are the bytes that were queued followed by the bytes written:
      nothing is sent that was not written, nothing is lost or reordered. */
  lemma {:induction false} RunIsFifo(s: State, ops: seq<Op>)
    requires Run(s, ops).Some?
    ensures Transmitted(Run(s, ops).value.events) + Run(s, ops).value.state.txQueue.items
         == s.txQueue.items + Written(ops)
    decreases |ops|
  {
    if ops != [] {
      var first := Apply(s, ops[0]).value;
      var rest := Run(first.state, ops[1..]).value;
      assert Run(s, ops).value == Step(rest.state, first.events + rest.events);
      assert Written(ops) == WrittenBy(ops[0]) + Written(ops[1..]);
      RunIsFifo(first.state, ops[1..]);
      ApplyIsFifo(s, ops[0]);
      TransmittedConcat(first.events, rest.events);
      Chain(Transmitted(first.events), Transmitted(rest.events), s.txQueue.items,
            first.state.txQueue.items, rest.state.txQueue.items, WrittenBy(ops[0]), Written(ops[1..]));
    }
  }

  /** Any run keeps the queue bound and the session invariant. */
  lemma {:induction false} RunKeepsInv(s: State, ops: seq<Op>)
    requires Run(s, ops).Some? && Inv(s)
    ensures Inv(Run(s, ops).value.state)
    decreases |ops|
  {
    if ops != [] {
      ApplyKeepsInvariants(s, ops[0]);
      RunKeepsInv(Apply(s, ops[0]).value.state, ops[1..]);
    }
  }

  /** A run whose changes of line settings are the corrected ones never
      leaves bytes waiting with the transmit interrupt off. */
  lemma {:induction false} RunKeepsArmed(s: State, ops: seq<Op>)
    requires Run(s, ops).Some? && Inv(s) && Armed(s)
    requires forall i :: 0 <= i < |ops| ==> !ops[i].TermiosAsWrittenOp?
    ensures Armed(Run(s, ops).value.state)
    decreases |ops|
  {
    if ops != [] {
      ApplyKeepsInvariants(s, ops[0]);
      assert forall i :: 0 <= i < |ops| - 1 ==> ops[1..][i] == ops[i + 1];
      RunKeepsArmed(Apply(s, ops[0]).value.state, ops[1..]);
    }
  }
}
