/** Decoding of the 64-bit HRZR header: packet type and sequence number. */
module HeaderParser {
  import opened Words

  /** The 64-bit header word: its least significant byte, the byte above it, and the upper 48 bits. */
  datatype Hrzr = Hrzr(b0: Byte, b1: Byte, rest: Word48)

  /** The 64-bit load of a header from a packet buffer. */
  function LoadHrzr(bytes: seq<Byte>, at: nat): Hrzr
    requires at + 8 <= |bytes|
  {
    Hrzr(bytes[at], bytes[at + 1], LoadU16(bytes, at + 2) + 0x1_0000 * LoadU32(bytes, at + 4))
  }

  datatype PacketType =
    | Data
    | DataEndOfBurst
    | FlowControl
    | Command
    | CommandResponse
    | CommandResponseError
    | Metadata

  /** The parser either finds a packet type or throws. */
  datatype Parsed = Known(packetType: PacketType) | InvalidHrzrHeader

  function GetControlFromHeader(hrzr: Hrzr): Parsed {
    var control := ControlBits(hrzr.b0);
    if control == 0x0 then Known(Data)
    else if control == 0x1 then Known(DataEndOfBurst)
    else if control == 0x4 then Known(FlowControl)
    else if control == 0x8 then Known(Command)
    else if control == 0xC then Known(CommandResponse)
    else if control == 0xD then Known(CommandResponseError)
    else if control == 0x5 then Known(Metadata)
    else InvalidHrzrHeader
  }

  /** The low nibble of the first byte above the second byte; ReadInNetworkOrder ties it to the byte swap. */
  function GetSequenceNumberFromHeader(hrzr: Hrzr): Word16 {
    Join(hrzr.b1, LowNibble(hrzr.b0))
  }

  /** The masked first word of the header, read in network byte order. */
  lemma ReadInNetworkOrder(hrzr: Hrzr)
    ensures GetSequenceNumberFromHeader(hrzr) == SwapBytes(Join(LowNibble(hrzr.b0), hrzr.b1))
  {
    Div100(Join(LowNibble(hrzr.b0), hrzr.b1), hrzr.b1, LowNibble(hrzr.b0));
  }

  /** The four control bits the protocol assigns to a packet type, with bit 2 clear. */
  function ControlCode(t: PacketType): int {
    match t
    case Data => 0x0
    case DataEndOfBurst => 0x1
    case FlowControl => 0x4
    case Command => 0x8
    case CommandResponse => 0xC
    case CommandResponseError => 0xD
    case Metadata => 0x5
  }

  /** A header as the protocol lays it out: four control bits, twelve bits of sequence number in network byte
      order, then the 48 remaining bits. */
  function NetworkHeader(control: int, seqNb: int, rest: Word48): Hrzr
    requires 0 <= control < 0x10 && 0 <= seqNb < 4096
  {
    Hrzr(0x10 * control + seqNb / 0x100, seqNb % 0x100, rest)
  }

  /** The header whose first word is the bare sequence number in host byte order, control bits zero. */
  function HostHeader(seqNb: int, rest: Word48): Hrzr
    requires 0 <= seqNb < 4096
  {
    Hrzr(seqNb % 0x100, seqNb / 0x100, rest)
  }

  lemma FieldsOf(control: int, hi: int, b1: Byte, rest: Word48)
    requires 0 <= control < 0x10 && 0 <= hi < 0x10
    ensures var hrzr := Hrzr(0x10 * control + hi, b1, rest);
      && GetSequenceNumberFromHeader(hrzr) == 0x100 * hi + b1
      && (forall t :: GetControlFromHeader(hrzr) == Known(t) <==> control in {ControlCode(t), ControlCode(t) + 2})
      && (GetControlFromHeader(hrzr) == InvalidHrzrHeader <==> control in {0x9, 0xB})
  {
    NibbleDivisions(control, hi);
    Div100(0x100 * b1 + hi, b1, hi);
  }

  lemma NibbleDivisions(c: int, hi: int)
    requires 0 <= c < 0x10 && 0 <= hi < 0x10
    ensures (0x10 * c + hi) % 0x10 == hi && (0x10 * c + hi) / 0x10 == c && (0x10 * c + hi) / 0x40 == c / 4
  {
    assert 0x10 * c + hi == 0x40 * (c / 4) + (0x10 * (c % 4) + hi);
  }

  /** The first four bits of the header decide its type; all sixteen cases. */
  lemma ControlTable(hrzr: Hrzr)
    ensures GetControlFromHeader(hrzr) ==
      match hrzr.b0 / 0x10
      case 0x0 => Known(Data)
      case 0x1 => Known(DataEndOfBurst)
      case 0x2 => Known(Data)
      case 0x3 => Known(DataEndOfBurst)
      case 0x4 => Known(FlowControl)
      case 0x5 => Known(Metadata)
      case 0x6 => Known(FlowControl)
      case 0x7 => Known(Metadata)
      case 0x8 => Known(Command)
      case 0x9 => InvalidHrzrHeader
      case 0xA => Known(Command)
      case 0xB => InvalidHrzrHeader
      case 0xC => Known(CommandResponse)
      case 0xD => Known(CommandResponseError)
      case 0xE => Known(CommandResponse)
      case _ => Known(CommandResponseError)
  {
    assert 0 <= hrzr.b0 / 0x10 < 0x10;
  }

  /** The 48 upper bits are the six bytes after the first two, least significant first. */
  lemma LoadedRest(bytes: seq<Byte>, at: nat)
    requires at + 8 <= |bytes|
    ensures var h := LoadHrzr(bytes, at);
      && h.b0 == bytes[at] && h.b1 == bytes[at + 1]
      && h.rest == bytes[at + 2] as int + 0x100 * bytes[at + 3] as int + 0x1_0000 * bytes[at + 4] as int
                   + 0x100_0000 * bytes[at + 5] as int + 0x1_0000_0000 * bytes[at + 6] as int
                   + 0x100_0000_0000 * bytes[at + 7] as int
  {
  }

  /** Encoding then decoding gives back the type and the number, whatever bit 2 and the other 48 bits are. */
  lemma NetworkHeaderRecovered(t: PacketType, bit2: bool, seqNb: int, rest: Word48)
    requires 0 <= seqNb < 4096
    ensures var hrzr := NetworkHeader(ControlCode(t) + (if bit2 then 2 else 0), seqNb, rest);
      GetControlFromHeader(hrzr) == Known(t) && GetSequenceNumberFromHeader(hrzr) == seqNb
  {
    FieldsOf(ControlCode(t) + (if bit2 then 2 else 0), seqNb / 0x100, seqNb % 0x100, rest);
  }

  /** Decoding then encoding gives back the header; exactly the words with control bits 0x9 and 0xB have no type. */
  lemma HeaderIsNetworkHeader(hrzr: Hrzr)
    ensures GetSequenceNumberFromHeader(hrzr) < 4096
    ensures hrzr == NetworkHeader(hrzr.b0 / 0x10, GetSequenceNumberFromHeader(hrzr), hrzr.rest)
    ensures match GetControlFromHeader(hrzr)
      case Known(t) => hrzr.b0 / 0x10 in {ControlCode(t), ControlCode(t) + 2}
      case InvalidHrzrHeader => hrzr.b0 / 0x10 in {0x9, 0xB}
  {
    FieldsOf(hrzr.b0 / 0x10, hrzr.b0 % 0x10, hrzr.b1, hrzr.rest);
    Div100(GetSequenceNumberFromHeader(hrzr), hrzr.b0 % 0x10, hrzr.b1);
  }

  /** What the parser makes of the sequence number with nibbles `hi`, `mid`, `lo` stored in host byte order. */
  lemma HostHeaderDecoded(hi: int, mid: int, lo: int, rest: Word48)
    requires 0 <= hi < 0x10 && 0 <= mid < 0x10 && 0 <= lo < 0x10
    ensures var hrzr := HostHeader(0x100 * hi + 0x10 * mid + lo, rest);
      && GetSequenceNumberFromHeader(hrzr) == 0x100 * lo + hi
      && (forall t :: GetControlFromHeader(hrzr) == Known(t) <==> mid in {ControlCode(t), ControlCode(t) + 2})
      && (GetControlFromHeader(hrzr) == InvalidHrzrHeader <==> mid in {0x9, 0xB})
  {
    Div100(0x100 * hi + 0x10 * mid + lo, hi, 0x10 * mid + lo);
    FieldsOf(mid, lo, hi, rest);
  }

  /** The parser recovers a host-order header as a data packet with its own number exactly for 257 * k, k < 16. */
  lemma HostHeaderRecoveredIff(seqNb: int, rest: Word48)
    requires 0 <= seqNb < 4096
    ensures (GetControlFromHeader(HostHeader(seqNb, rest)) == Known(Data)
             && GetSequenceNumberFromHeader(HostHeader(seqNb, rest)) == seqNb)
            <==> seqNb == 257 * (seqNb / 0x100)
  {
    hide GetControlFromHeader, GetSequenceNumberFromHeader, HostHeader;
    var hi, mid, lo := seqNb / 0x100, seqNb % 0x100 / 0x10, seqNb % 0x10;
    Nibbles(seqNb);
    HostHeaderDecoded(hi, mid, lo, rest);
  }

  lemma Nibbles(n: int)
    ensures n == 0x100 * (n / 0x100) + 0x10 * (n % 0x100 / 0x10) + n % 0x10
  {
    var q, r := n / 0x100, n % 0x100;
    assert n == 0x10 * (0x10 * q + r / 0x10) + r % 0x10;
  }
}
