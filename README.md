# raspicomm MAX3140 driver: a Dafny model

This project models the core of the raspicomm RS-485 kernel module
(`module.c`). The module drives a MAX3140 UART that sits behind an SPI bus.
Every register access is one 16-bit SPI exchange, high byte first. The module
keeps a small set of globals. Each one becomes a state field here:

- `SpiConfig`, the configuration word, whose bit 11 (TM) is the driver's own
  record of whether the transmit interrupt is armed;
- `SwBacksleep`;
- the parity flags;
- the open counter and the open tty;
- the transmit queue.

The model has two layers:

- **Pure step functions** (module `Orchestrator`). Each routine becomes a
  function from the old state to the new state plus the events it caused.
  An event is an SPI word sent, a busy wait, or a byte pushed to the tty.
  The properties are proved as lemmas over these functions: FIFO order,
  parity framing, the TM invariant, the session invariant, and the order of
  the exchanges. set_termios is given both as written and corrected (see
  Findings).
- **A `class Driver`** (module `Raspicomm`). Its fields are the module's
  globals, and each routine is a method that updates them in place. A ghost
  `trace` records every exchange, delay and delivery. Each method's `ensures`
  ties its new fields and trace to the step function of the same routine.

The other modules:

- `Codec`: the baud-index table, the configuration word, the back-sleep, the
  parity bit (both the counting loop and a function specifying it), the data
  word and the decoding of the termios `cflag`.
- `Spi`: the exchange, both as written and corrected (see Findings). The
  step theorems hold for every chip answer. A successful exchange as written
  gives what the corrected one gives against a chip that echoes the word
  sent (`Spi.AsWrittenIsEcho`), so they cover the code as written too.
- `TxQueue`: the bounded FIFO the driver uses.

Inputs from the outside world are parameters:

- What the chip answers to an exchange is a `Transfer` value: two bytes, or a
  failure.
- `tty_get_baud_rate` is the `baud` argument of set_termios.
- The tty the kernel opens is a `Tty` value.

For 9600 baud, 8 data bits, one stop bit and no parity, the code ORs
together R|T (0xC000), RM (0x400) and index 0xB, which gives the
configuration word 0xC40B (`Codec.UartConfigDefault`).

## Model

| member | source | states |
|---|---|---|
| Codec.BaudrateIndex | module.c:391-407 | the index is at most 0xF; each of the ten supported speeds gets its table entry; any other speed gets 9600's entry |
| Codec.BaudIndexIdentifiesSpeed | module.c:393-405 | two different supported speeds never share an index |
| Codec.UartConfig | module.c:410-427 | the word is a configuration write (R and T set) with RM set, TM clear and FEN, SHDNo, PM, RAM and IR clear, and it decodes back to the requested baud index, stop bits, parity and data bits |
| Codec.UartConfigDefault | module.c:410-427 | 9600 baud, 8 data bits, one stop bit and no parity give 0xC40B |
| Codec.ConfigLowBitsMatch | module.c:456 | two configuration words agree in their low 12 bits exactly when they have the same baud index and the same line settings |
| Codec.SwBacksleep | module.c:429-432 | the back-sleep is 10,000,000 / speed rounded down: r·speed ≤ 10^7 < (r+1)·speed |
| Codec.ParityFlag | module.c:468-494 | the flag is 0 or bit 8; it is 0 when parity is off; when parity is on, the byte's ones plus the flag are even exactly when even parity is selected |
| Codec.GetParityFlag | module.c:468-494 | the bit-counting loop returns the parity flag its specification defines |
| Codec.TmBits | module.c:506 | the arming word sets TM and T; the disarming word (module.c:658) clears TM, keeps T, and ignores an earlier arming |
| Codec.DataWordLayout | module.c:512 | a data word is a write (R set, T clear) with bits 13-9 clear, so RTS stays asserted while it goes out, and it puts exactly its byte on the line; bit 8 is the parity flag; when parity is on, the nine bits of the frame have the selected parity |
| Codec.WithoutTmKeepsFields | module.c:658 | disarming the transmit interrupt leaves the baud index, the line settings, RM and the unused modes as they were, and keeps the word a configuration write |
| Codec.ArmDisarmRestores | module.c:506-658 | arming a configuration word and then disarming it gives back the word configure built |
| Codec.WithTmKeepsFields | module.c:506 | arming the transmit interrupt leaves the baud index, the line settings, RM and the unused modes (FEN, SHDNo, PM, RAM, IR) as they were, and keeps the word a configuration write |
| Codec.DecodeCflag | module.c:981-1008 | CS7 gives seven data bits and every other size gives eight; CSTOPB gives two stop bits; PARENB turns parity on; parity is even exactly when PARODD is clear |
| Codec.DecodeCflagOf | module.c:981-1008 | decoding a cflag gives back the settings it was built from |
| Spi.Spi0SendAsWritten | module.c:520-534 | as written, the result is 0 when the transfer fails and otherwise the transmitted word (mosi & 0xFFFF) |
| Spi.AsWrittenIgnoresChip | module.c:520-534 | as written, the result is the same whatever the chip answers |
| Spi.IrqProbeAsWrittenIsSilent | module.c:637-646 | as written, the interrupt probe never shows "receive ready" or "transmit empty", so the handler does nothing |
| Spi.ApplyConfigAsWrittenRejects | module.c:455-458 | as written, the read-back never matches a configuration word, so every configuration is rejected |
| Spi.StartTransferAsWrittenSeesEmpty | module.c:505-507 | as written, arming TM always reads "transmit empty" when the transfer succeeds |
| Spi.Spi0Send | module.c:520-534 | corrected exchange: 0 when the transfer fails; otherwise its high byte is the chip's byte 0 and its low byte is byte 1 |
| Spi.Spi0SendReturnsAnswer | module.c:520-534 | the corrected exchange returns exactly the word the chip answered |
| Spi.AsWrittenIsEcho | module.c:520-534 | the exchange as written equals the corrected exchange against a chip that echoes the word sent, and both give 0 when the transfer fails |
| Spi.ReceivedByteLostAsWritten | module.c:637-643 | for a chip holding 'A' with bit 15 set, the probe sees 0 as written and 0x8041 when corrected |
| TxQueue.Empty | module.c:215 | the new queue is empty, has the given capacity, and is within its bound |
| TxQueue.Enqueue | module.c:932 | the byte is appended exactly when there is room; the result says whether it was; the capacity and the bound are kept |
| TxQueue.Dequeue | module.c:649 | it fails exactly on an empty queue, which it leaves unchanged; otherwise it returns the oldest byte and removes only that byte |
| TxQueue.StepQueueConserves | module.c:932 | one put or take keeps "taken followed by left equals initial followed by accepted" |
| TxQueue.RunQueueFifo | module.c:932 | over any run of puts and takes, the bytes taken followed by those left are the initial bytes followed by those accepted, and the bound holds |
| Orchestrator.Initial | module.c:204-221 | the state after load: no configuration (0), nothing open, an empty queue; every invariant holds and TM is clear |
| Orchestrator.Configure | module.c:434-443 | the new word is a configuration write that decodes to the requested settings, with RM set, TM clear and the unused modes clear; the back-sleep follows the requested speed; no other field changes |
| Orchestrator.ConfigureFallbackKeepsSpeed | module.c:391-443 | 300 baud is configured with 9600's word but its own back-sleep (33333 µs, against 1041 µs for 9600) |
| Orchestrator.ApplyConfig | module.c:446-464 | it succeeds exactly when the low 12 bits read back equal those of the configuration; it writes the configuration and reads it back, and writes the receive-enable word only on success |
| Orchestrator.ApplyConfigChecksEcho | module.c:446-464 | a chip echoing the word is accepted; one echoing the word of other settings is accepted exactly when those settings have the same index and line flags |
| Orchestrator.Received485 | module.c:846-870 | the byte reaches the tty exactly when a tty is open and has a port; otherwise it is dropped |
| Orchestrator.SendNext | module.c:510-514 | a byte is taken exactly when the queue is not empty; the byte is the oldest, and its data word is the only exchange |
| Orchestrator.StartTransfer | module.c:496-518 | TM is always set afterwards, and when it was already set nothing happens |
| Orchestrator.StartTransferSends | module.c:496-518 | with TM clear, the arming word goes out first, and one data word follows exactly when the chip reports "transmit empty" and a byte is queued; only that oldest byte leaves the queue |
| Orchestrator.StartTransferIsFifo | module.c:496-518 | the bytes sent followed by those still queued are the old queue, and every byte sent carries the selected parity |
| Orchestrator.StartTransferSendsOldest | module.c:509-514 | in the sending branch, the byte on the line is the one taken from the front |
| Orchestrator.StartTransferSendsNothing | module.c:503-509 | in the arming-only branch, nothing reaches the line and the queue is unchanged |
| Orchestrator.StartTransferIdempotent | module.c:501-503 | a second kick does nothing: no exchange and no dequeue |
| Orchestrator.Irq | module.c:626-672 | every interrupt starts with the READ_DATA probe |
| Orchestrator.IrqBranches | module.c:637-667 | by the probe's answer, exactly one branch runs: receive (state unchanged, byte delivered); send the oldest byte; disarm TM, wait, release the line; or nothing |
| Orchestrator.IrqIsFifo | module.c:637-667 | the handler sends at most the oldest byte, which leaves the queue, with the selected parity |
| Orchestrator.IrqSendsOldest | module.c:646-654 | in the sending branch, the byte on the line is the one taken from the front |
| Orchestrator.IrqSendsNothing | module.c:637-667 | in the other branches, nothing reaches the line and the queue is unchanged |
| Orchestrator.IrqReceiveDelivers | module.c:640-645 | a received byte reaches the open tty that has a port, and the state is unchanged |
| Orchestrator.IrqWaitsBeforeRelease | module.c:655-664 | the receive-enable word always comes right after the back-sleep wait |
| Orchestrator.StartTransferKeepsInv | module.c:496-518 | the kick keeps the queue bound and the session invariant |
| Orchestrator.IrqKeepsInv | module.c:626-672 | the handler keeps the queue bound and the session invariant |
| Orchestrator.StepsKeepArmed | module.c:496-672 | neither the kick nor the handler leaves bytes queued with TM clear |
| Orchestrator.Write | module.c:922-946 | after a write, TM is set |
| Orchestrator.WriteIsFifo | module.c:922-946 | after a write, the bytes sent followed by those queued are the old queue followed by the buffer; parity is correct; TM is armed; the invariants hold |
| Orchestrator.TwoByteWriteCycle | module.c:922-946 | from load, writing "AB" against a chip that always reports "transmit empty" produces: arm and send 'A'; probe and send 'B'; probe, disarm, wait, release; the queue ends empty and the state is the load state except for the disarmed configuration word 0xC000 |
| Orchestrator.Open | module.c:881-904 | the counter always goes up; the open succeeds exactly when the counter was 0, and only then records the tty |
| Orchestrator.Close | module.c:907-920 | the counter goes down, and the tty is forgotten exactly when the counter reaches 0 |
| Orchestrator.OpenCloseRestores | module.c:881-920 | a close undoes the open before it |
| Orchestrator.SecondOpenFails | module.c:885-890 | while a session is open, another open fails |
| Orchestrator.SetTermiosAsWritten | module.c:966-1019 | as written: the parity flags follow PARENB and PARODD (the polarity is left alone when parity is off); the word is a configuration write with RM set, TM clear and FEN, SHDNo, PM, RAM and IR clear that decodes to the cflag's settings; the back-sleep follows the baud rate; the queue and the session are unchanged; the exchanges are exactly those of apply_config on the new word |
| Orchestrator.SetTermiosDisarms | module.c:1016-1018 | as written, changing settings while bytes wait leaves TM clear, so no transmit interrupt asks for those bytes |
| Orchestrator.SetTermios | module.c:966-1019 | corrected: the same parity flags, settings, RM, cleared unused modes, back-sleep, queue, session and apply_config exchanges as written, but TM is set afterwards exactly when it was set before |
| Orchestrator.SetTermiosKeepsArmed | module.c:1016-1018 | the corrected step differs from the code as written only in the TM bit, and it never leaves bytes queued with TM clear |
| Orchestrator.SetTermiosSendsNoData | module.c:966-1019 | a change of settings, as written or corrected, puts no byte on the line |
| Orchestrator.ApplyConfigSendsNoData | module.c:446-464 | apply_config on a configuration word puts no byte on the line |
| Orchestrator.ApplyIsFifo | module.c:496-1019 | every single operation, with set_termios as written or corrected, is first in, first out |
| Orchestrator.ApplyKeepsInvariants | module.c:496-1019 | every operation keeps the invariants, set_termios both as written and corrected; every operation except set_termios as written keeps TM armed while bytes wait |
| Orchestrator.SessionOpKeepsInvariants | module.c:881-1019 | set_termios (as written or corrected), open and close keep the invariants; open and close also keep TM armed while bytes wait |
| Orchestrator.RunIsFifo | module.c:496-1019 | over any run, with set_termios as written or corrected, the bytes on the line followed by those queued are the bytes queued at the start followed by every byte written |
| Orchestrator.RunKeepsInv | module.c:496-1019 | any run, with set_termios as written or corrected, keeps the queue bound and the session invariant |
| Orchestrator.RunKeepsArmed | module.c:496-1019 | a run that changes line settings only through the corrected set_termios never leaves bytes queued with TM clear |
| Raspicomm.Driver.constructor | module.c:204-221 | the fields start as the load state, with an empty trace |
| Raspicomm.Driver.Exchange | module.c:520-534 | one exchange is logged and returns the chip's answer |
| Raspicomm.Driver.Rs485Received | module.c:846-870 | the trace grows by the delivery, or by nothing when the byte is dropped |
| Raspicomm.Driver.SendNext | module.c:510-514 | the queue and trace change as their specification says |
| Raspicomm.Driver.Configure | module.c:434-443 | the fields become those of the configure step, TM is clear, and nothing is sent |
| Raspicomm.Driver.ApplyConfig | module.c:446-464 | the result and the exchanges are those of the apply step: it succeeds exactly when the low 12 bits read back match |
| Raspicomm.Driver.StartTransfer | module.c:496-518 | the fields and the trace follow the kick step; TM is set afterwards |
| Raspicomm.Driver.IrqHandler | module.c:626-672 | the fields and the trace follow the handler step |
| Raspicomm.Driver.Open | module.c:881-904 | the fields and status follow the open step; it succeeds exactly when the counter was 0 |
| Raspicomm.Driver.Close | module.c:907-920 | the fields follow the close step |
| Raspicomm.Driver.Write | module.c:922-946 | every byte is queued in order, the count returned is the buffer length, and the kick follows |
| Raspicomm.Driver.SetTermios | module.c:966-1019 | the fields and the trace follow the corrected set_termios step: decode the cflag, configure, keep an armed TM, apply |

## Left out

- Module init and exit (`raspicomm_init`, `raspicomm_exit`), SPI and GPIO setup, and IRQ registration are not modelled. They are platform set-up with no logic to prove.
- Code inside `#if 0` blocks is not modelled, including the old memory-mapped `spi0_send`. It is not compiled.
- The spinlock around start_transfer and the interrupt handler is left out. Each routine is one atomic step, and concurrency is not modelled.
- `udelay` is a `Delayed(us)` event, not time.
- Log output is not modelled.
- The trivial tty callbacks (write_room returning INT_MAX, flush_buffer, chars_in_buffer returning 0) and stubs such as ioctl and the throttle callbacks are not modelled. They hold no state and no logic.
- The kernel-version branches are not modelled. Only the 3.10-and-later path is modelled, so rs485_received also checks `tty->port`.
- `queue.h` is not part of this model. `TxQueue` gives the bounded FIFO contract the driver relies on, for any capacity.
- Raspicomm.Driver.Write, Orchestrator.Write, Orchestrator.WriteIsFifo, the `None` case of Orchestrator.Apply for a write, and through it Orchestrator.ApplyIsFifo, Orchestrator.ApplyKeepsInvariants, Orchestrator.SessionOpKeepsInvariants, Orchestrator.RunIsFifo, Orchestrator.RunKeepsInv and Orchestrator.RunKeepsArmed: require that the queue has room for the whole buffer. When the queue is full, the source spins on start_transfer until the interrupt handler, running concurrently, drains it. A sequential model cannot express that, so the retry branch is a dead branch here.
- Orchestrator.SetTermios, Orchestrator.SetTermiosAsWritten, Orchestrator.Configure, Codec.SwBacksleep, Raspicomm.Driver.Configure, Raspicomm.Driver.SetTermios and the `None` case of Orchestrator.Apply for set_termios, and through it Orchestrator.ApplyIsFifo, Orchestrator.ApplyKeepsInvariants, Orchestrator.SessionOpKeepsInvariants, Orchestrator.RunIsFifo, Orchestrator.RunKeepsInv and Orchestrator.RunKeepsArmed: require a nonzero baud rate. A B0 setting makes `tty_get_baud_rate` return 0, and the source then divides by zero in the back-sleep (module.c:431), a fault in kernel context. Which behaviour the authors meant for B0 (hang up, or fall back to 9600 as the baud index does) is not evident, so the model states none.
- Orchestrator.Open: the open counter is an unbounded integer, so overflow of the C `int` is not modelled.
- Codec.BaudrateIndex: the speed is a natural number. The full range of `speed_t` is not modelled.
- The failed-transfer path of `spi_transceive` is modelled as the answer `Failed`. Which kernel errors the call can return is not modelled.

## Findings

| source | as written | input that shows it | evidently intended | confidence | as-written member | corrected member |
|---|---|---|---|---|---|---|
| module.c:520-534 | `raspicomm_spi0_send` fills `rx` from the chip but returns `(tx[0] << 8) \| tx[1]`, i.e. the word it sent | the probe `READ_DATA` (0) while the chip holds received byte 0x41 with bit 15 set (answer 0x8041): the function returns 0, so the interrupt handler neither receives nor transmits; apply_config's read-back of `READ_CONFIG` returns 0x4000, whose low 12 bits never equal a configuration word's (RM is always set), so every configuration is rejected | return `(rx[0] << 8) \| rx[1]`, the chip's answer | high (not executed) | Spi.Spi0SendAsWritten, with Spi.IrqProbeAsWrittenIsSilent, Spi.ApplyConfigAsWrittenRejects, Spi.StartTransferAsWrittenSeesEmpty and Spi.ReceivedByteLostAsWritten | Spi.Spi0Send, with Spi.Spi0SendReturnsAnswer; the rest of the model uses it |
| module.c:1016-1018 | set_termios calls configure, which rebuilds the configuration word with TM clear, and apply_config writes that word to the chip, even while bytes wait in the transmit queue | a write whose kick finds the transmitter busy leaves a byte queued with TM set; a set_termios call (say 9600 baud, 8N1) then writes 0xC40B, which turns the transmit interrupt off; no interrupt asks for the byte, and it stays queued until the next write | keep the transmit interrupt armed across a change of line settings, so that the queued bytes still go out | medium (not executed) | Orchestrator.SetTermiosAsWritten, with Orchestrator.SetTermiosDisarms | Orchestrator.SetTermios, with Orchestrator.SetTermiosKeepsArmed, Orchestrator.ApplyKeepsInvariants and Orchestrator.RunKeepsArmed; Raspicomm.Driver.SetTermios follows it |
