/** Frame codec of the MAX3140 UART-over-SPI bridge: the baud-rate table, the
    16-bit configuration word, the software back-sleep, the per-byte parity
    bit, the 16-bit data word and the decoding of a termios cflag. */
module Codec {
  import opened Wrappers

  /** One 16-bit command or status word exchanged with the chip. */
  type Word = bv16
  /** A byte, kept in a word's low eight bits so that no width conversion is needed. */
  type Byte = b: Word | b <= 0xFF

  // Bits of the write-configuration word (module.c:60-80).
  const UART_R: Word := 0x8000
  const UART_T: Word := 0x4000
  const UART_FEN: Word := 0x2000
  const UART_SHDNO: Word := 0x1000
  const UART_TM: Word := 0x0800
  const UART_RM: Word := 0x0400
  const UART_PM: Word := 0x0200
  const UART_RAM: Word := 0x0100
  const UART_IR: Word := 0x0080
  const UART_ST: Word := 0x0040
  const UART_PE: Word := 0x0020
  const UART_L: Word := 0x0010
  /** The modes the driver never turns on: FIFO disable, software shutdown,
      parity-bit interrupt, receiver-activity interrupt and IrDA. */
  const UNUSED_MODES: Word := UART_FEN | UART_SHDNO | UART_PM | UART_RAM | UART_IR

  /** Parity bit of a data word (MAX3140_wd_Pt). */
  const PARITY_BIT: Word := 0x0100

  // Command words (module.c:54-58, 82-85).
  const WRITE_CONFIG: Word := 0xC000
  const READ_CONFIG: Word := 0x4000
  const READ_DATA: Word := 0x0000
  const WRITE_DATA: Word := 0x8000
  const WRITE_DATA_TE: Word := 0x0400
  const WRITE_DATA_RTS: Word := 0x0200
  /** Write-data word that sends nothing (TE set) and releases RTS so that the
      line can receive: R | TE | RTS. */
  const RECEIVE_ENABLE: Word := 0x8600

  // The enumerations passed to the configuration builder (module.c:39-52).
  datatype Stopbits = StopbitsOne | StopbitsTwo
  datatype Databits = Databits7 | Databits8
  datatype Parity = ParityOff | ParityOn

  function StopbitsValue(s: Stopbits): Word { if s == StopbitsTwo then 1 else 0 }
  function DatabitsValue(d: Databits): Word { if d == Databits7 then 1 else 0 }
  function ParityValue(p: Parity): Word { if p == ParityOn then 1 else 0 }

  /** The supported speeds and their 4-bit baud indices, as a table. */
  const BaudTable: map<nat, Byte> :=
    map[600 := 0xF, 1200 := 0xE, 2400 := 0xD, 4800 := 0xC, 9600 := 0xB,
        19200 := 0xA, 38400 := 0x9, 57600 := 0x2, 115200 := 0x1, 230400 := 0x0]

  /** The chip's baud index for a speed; any other speed is looked up again
      as 9600. The measure shows that the fallback recurses at most once. */
  function BaudrateIndex(speed: nat): (r: Byte)
    decreases if speed == 9600 then 0 else 1
    ensures r <= 0xF
    ensures speed in BaudTable ==> r == BaudTable[speed]
    ensures speed !in BaudTable ==> r == BaudTable[9600]
  {
    match speed
    case 600 => 0xF
    case 1200 => 0xE
    case 2400 => 0xD
    case 4800 => 0xC
    case 9600 => 0xB
    case 19200 => 0xA
    case 38400 => 0x9
    case 57600 => 0x2
    case 115200 => 0x1
    case 230400 => 0x0
    case _ => BaudrateIndex(9600)
  }

  /** Distinct supported speeds have distinct indices, so the index written to
      the chip identifies the speed. */
  lemma BaudIndexIdentifiesSpeed(a: nat, b: nat)
    requires a in BaudTable && b in BaudTable && a != b
    ensures BaudrateIndex(a) != BaudrateIndex(b)
  {
  }

  /** The fields a configuration word carries in its low 12 bits. */
  datatype ConfigFields = ConfigFields(baudIndex: Byte, stopbits: Stopbits, parity: Parity, databits: Databits)

  /** Reads the fields back out of a configuration word. */
  function DecodeConfig(w: Word): ConfigFields
  {
    ConfigFields(
      w & 0xF,
      if w & UART_ST != 0 then StopbitsTwo else StopbitsOne,
      if w & UART_PE != 0 then ParityOn else ParityOff,
      if w & UART_L != 0 then Databits7 else Databits8)
  }

  /** The configuration word: write-config marker, receive interrupt enabled,
      transmit interrupt disabled, and the line settings. */
  function UartConfig(speed: nat, databits: Databits, stopbits: Stopbits, parity: Parity): (r: Word)
    ensures r & WRITE_CONFIG == WRITE_CONFIG
    ensures r & UART_RM == UART_RM
    ensures r & UART_TM == 0
    ensures r & UNUSED_MODES == 0
    ensures DecodeConfig(r) == ConfigFields(BaudrateIndex(speed), stopbits, parity, databits)
  {
    WRITE_CONFIG | UART_RM | BaudrateIndex(speed)
      | (StopbitsValue(stopbits) << 6) | (ParityValue(parity) << 5) | (DatabitsValue(databits) << 4)
  }

  /** The word for 9600 baud, 8 data bits, one stop bit, no parity. */
  lemma UartConfigDefault()
    ensures UartConfig(9600, Databits8, StopbitsOne, ParityOff) == 0xC40B
  {
  }

  /** Comparing the low 12 bits of two configuration words, as the read-back
      check does, compares exactly the baud index and the three line flags. */
  lemma ConfigLowBitsMatch(s1: nat, d1: Databits, t1: Stopbits, p1: Parity,
                           s2: nat, d2: Databits, t2: Stopbits, p2: Parity)
    ensures (UartConfig(s1, d1, t1, p1) & 0xFFF == UartConfig(s2, d2, t2, p2) & 0xFFF)
        <==> (BaudrateIndex(s1) == BaudrateIndex(s2) && d1 == d2 && t1 == t2 && p1 == p2)
  {
    var w1, w2 := UartConfig(s1, d1, t1, p1), UartConfig(s2, d2, t2, p2);
    if w1 & 0xFFF == w2 & 0xFFF {
      DecodeReadsLowBits(w1, w2);
    }
    if BaudrateIndex(s1) == BaudrateIndex(s2) && d1 == d2 && t1 == t2 && p1 == p2 {
      UartConfigOfFields(s1, s2, d1, t1, p1);
    }
  }

  /** Speeds that share a baud index give the same configuration word. */
  lemma UartConfigOfFields(s1: nat, s2: nat, d: Databits, t: Stopbits, p: Parity)
    requires BaudrateIndex(s1) == BaudrateIndex(s2)
    ensures UartConfig(s1, d, t, p) == UartConfig(s2, d, t, p)
  {
  }

  /** The decoded fields depend only on the low 12 bits of the word. */
  lemma DecodeReadsLowBits(w1: Word, w2: Word)
    requires w1 & 0xFFF == w2 & 0xFFF
    ensures DecodeConfig(w1) == DecodeConfig(w2)
  {
    assert w1 & 0xF == (w1 & 0xFFF) & 0xF;
    assert w2 & 0xF == (w2 & 0xFFF) & 0xF;
  }

  /** Microseconds the chip needs to shift out one frame: 10,000,000 / speed,
      rounded down (module.c:429-432). */
  function SwBacksleep(speed: nat): (r: nat)
    requires speed > 0
    ensures r * speed <= 10000000 < (r + 1) * speed
  {
    10000000 / speed
  }

  /** Number of set bits among bits 0 .. n-1 of w. */
  function Ones(w: Word, n: nat): (k: nat)
    requires n <= 16
    ensures k <= n
  {
    if n == 0 then 0 else Ones(w, n - 1) + (if w & (1 << (n - 1)) != 0 then 1 else 0)
  }

  /** Number of set bits of a byte. */
  function PopCount(c: Byte): nat
  {
    Ones(c, 8)
  }

  /** The parity bit for byte c under the parity flags: none when parity is
      disabled; otherwise the bit that makes the number of ones of the byte and
      the bit together even (even parity) or odd (odd parity). */
  function ParityFlag(c: Byte, parityIsEven: bool, parityEnabled: bool): (r: Word)
    ensures r == 0 || r == PARITY_BIT
    ensures !parityEnabled ==> r == 0
    ensures parityEnabled ==>
      ((PopCount(c) + (if r == PARITY_BIT then 1 else 0)) % 2 == 0 <==> parityIsEven)
  {
    if !parityEnabled then 0
    else if parityIsEven then (if PopCount(c) % 2 == 1 then PARITY_BIT else 0)
    else (if PopCount(c) % 2 == 1 then 0 else PARITY_BIT)
  }

  /** The bit-counting loop of the source computing the parity bit. */
  method GetParityFlag(c: Byte, parityIsEven: bool, parityEnabled: bool) returns (ret: Word)
    ensures ret == ParityFlag(c, parityIsEven, parityEnabled)
  {
    if !parityEnabled {
      return 0;
    }
    var count := 0;
    for i := 0 to 8
      invariant count == Ones(c, i)
    {
      if c & (1 << i) != 0 {
        count := count + 1;
      }
    }
    if parityIsEven {
      ret := if count % 2 == 1 then PARITY_BIT else 0;
    } else {
      ret := if count % 2 == 1 then 0 else PARITY_BIT;
    }
  }

  /** The data word that transmits byte c with parity bit p. */
  function DataWord(c: Byte, p: Word): Word
  {
    WRITE_DATA | c | p
  }

  /** Whether any bit of mask is set in w. */
  predicate IsSet(w: Word, mask: Word)
  {
    w & mask != 0
  }

  /** The low 12 bits agree: the chip's read-back echoes the configuration. */
  predicate Echoes(rx: Word, config: Word)
  {
    rx & 0xFFF == config & 0xFFF
  }

  /** Bits 0-7 of a word. */
  function LowByte(w: Word): Byte
  {
    w & 0xFF
  }

  /** The configuration written to arm the transmit interrupt. */
  function WithTm(config: Word): Word
  {
    config | WRITE_CONFIG | UART_TM
  }

  /** The configuration written to disarm the transmit interrupt. */
  function WithoutTm(config: Word): Word
  {
    (config | WRITE_CONFIG) & !UART_TM
  }

  /** Both words are configuration writes (bit 14 set); the first arms TM,
      the second clears it, and disarming an armed word is the same as
      disarming the word before it was armed. */
  lemma TmBits(config: Word)
    ensures IsSet(WithTm(config), UART_TM) && IsSet(WithTm(config), UART_T)
    ensures !IsSet(WithoutTm(config), UART_TM) && IsSet(WithoutTm(config), UART_T)
    ensures WithoutTm(WithTm(config)) == WithoutTm(config)
  {
  }

  /** Arming touches neither the line settings nor the other modes: the
      armed word decodes to the same fields and keeps RM and the unused
      modes as they were. */
  lemma WithTmKeepsFields(config: Word)
    ensures DecodeConfig(WithTm(config)) == DecodeConfig(config)
    ensures IsSet(WithTm(config), UART_RM) <==> IsSet(config, UART_RM)
    ensures WithTm(config) & WRITE_CONFIG == WRITE_CONFIG
    ensures WithTm(config) & UNUSED_MODES == config & UNUSED_MODES
  {
  }

  /** Disarming touches nothing else either: the disarmed word is a
      configuration write that decodes to the same fields and keeps RM and the
      unused modes as they were. */
  lemma WithoutTmKeepsFields(config: Word)
    ensures DecodeConfig(WithoutTm(config)) == DecodeConfig(config)
    ensures IsSet(WithoutTm(config), UART_RM) <==> IsSet(config, UART_RM)
    ensures WithoutTm(config) & WRITE_CONFIG == WRITE_CONFIG
    ensures WithoutTm(config) & UNUSED_MODES == config & UNUSED_MODES
  {
  }

  /** Arming and then disarming a configuration word gives the word back. */
  lemma ArmDisarmRestores(speed: nat, d: Databits, t: Stopbits, p: Parity)
    ensures WithoutTm(WithTm(UartConfig(speed, d, t, p))) == UartConfig(speed, d, t, p)
  {
  }

  /** The byte a write-data word puts on the line: the word must be a write
      (R set, T clear) with transmission enabled (TE clear). */
  function TransmittedByte(w: Word): (r: Option<Byte>)
    ensures r.Some? <==> w & 0xC400 == 0x8000
    ensures r.Some? ==> r.value == w & 0xFF
  {
    if w & 0xC400 == 0x8000 then Some(w & 0xFF) else None
  }

  /** Words that agree on the low byte count the same ones in it. */
  lemma {:induction false} OnesAgree(a: Word, b: Word, n: nat)
    requires n <= 8
    requires a & 0xFF == b & 0xFF
    ensures Ones(a, n) == Ones(b, n)
  {
    if n > 0 {
      OnesAgree(a, b, n - 1);
      var m: Word := 1 << (n - 1);
      assert m & 0xFF == m;
      assert a & m == (a & 0xFF) & m;
      assert b & m == (b & 0xFF) & m;
    }
  }

  /** A data word holds the byte in bits 0-7 and the parity flag in bit 8;
      it is a write with transmission enabled, so the line sees the byte, and
      the nine bits of the frame have the parity the line settings ask for. */
  lemma DataWordLayout(c: Byte, parityIsEven: bool, parityEnabled: bool)
    ensures var w := DataWord(c, ParityFlag(c, parityIsEven, parityEnabled));
      && w & UART_R != 0 && w & UART_T == 0
      && w & 0xFE00 == WRITE_DATA && !IsSet(w, WRITE_DATA_RTS)
      && TransmittedByte(w) == Some(c)
      && (w & PARITY_BIT != 0 <==> ParityFlag(c, parityIsEven, parityEnabled) == PARITY_BIT)
      && (parityEnabled ==> (Ones(w, 9) % 2 == 0 <==> parityIsEven))
  {
    var p := ParityFlag(c, parityIsEven, parityEnabled);
    DataWordBits(c, p);
    DataWordOnes(c, p);
  }

  /** The nine bits of a data word hold the byte's ones plus the parity bit. */
  lemma DataWordOnes(c: Byte, p: Word)
    requires p == 0 || p == PARITY_BIT
    ensures Ones(DataWord(c, p), 9) == PopCount(c) + (if p == PARITY_BIT then 1 else 0)
  {
    var w := DataWord(c, p);
    DataWordBits(c, p);
    OnesAgree(w, c, 8);
    assert Ones(w, 9) == Ones(w, 8) + (if w & PARITY_BIT != 0 then 1 else 0);
  }

  /** The fixed bits of a data word, its low byte and its parity bit. */
  lemma DataWordBits(c: Byte, p: Word)
    requires p == 0 || p == PARITY_BIT
    ensures var w := DataWord(c, p);
      && w & UART_R != 0 && w & UART_T == 0 && w & 0xC400 == 0x8000
      && w & 0xFE00 == WRITE_DATA
      && w & 0xFF == c
      && (w & PARITY_BIT != 0 <==> p == PARITY_BIT)
  {
  }

  // termios cflag bits (Linux asm-generic termbits).
  const CSIZE: bv32 := 0x30
  const CS7: bv32 := 0x20
  const CSTOPB: bv32 := 0x40
  const PARENB: bv32 := 0x100
  const PARODD: bv32 := 0x200

  /** What set_termios reads out of a cflag. */
  datatype LineSettings = LineSettings(databits: Databits, stopbits: Stopbits, parity: Parity, parityIsEven: bool)

  /** Decodes a cflag: CS7 gives seven data bits and every other size eight;
      CSTOPB two stop bits; PARENB parity, even unless PARODD. */
  function DecodeCflag(cflag: bv32): (r: LineSettings)
    ensures r.databits == Databits7 <==> cflag & CSIZE == CS7
    ensures r.stopbits == StopbitsTwo <==> cflag & CSTOPB != 0
    ensures r.parity == ParityOn <==> cflag & PARENB != 0
    ensures r.parityIsEven <==> cflag & PARODD == 0
  {
    LineSettings(
      if cflag & CSIZE == CS7 then Databits7 else Databits8,
      if cflag & CSTOPB != 0 then StopbitsTwo else StopbitsOne,
      if cflag & PARENB != 0 then ParityOn else ParityOff,
      cflag & PARODD == 0)
  }

  /** A cflag carrying the given settings (eight data bits as CS8). */
  function CflagOf(ls: LineSettings): bv32
  {
    (if ls.databits == Databits7 then CS7 else CSIZE)
      | (if ls.stopbits == StopbitsTwo then CSTOPB else 0)
      | (if ls.parity == ParityOn then PARENB else 0)
      | (if ls.parityIsEven then 0 else PARODD)
  }

  /** Decoding gives back the settings a cflag was built from. */
  lemma DecodeCflagOf(ls: LineSettings)
    ensures DecodeCflag(CflagOf(ls)) == ls
  {
  }
}
