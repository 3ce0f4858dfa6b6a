/** The 24-byte message header and its codec. */
module Messages {
  import opened Bytes
  import opened SocketModel
  import opened Wrappers
  import Sequences

  datatype Command = SYNC | CNXN | OPEN | OKAY | CLSE | WRTE | AUTH | STLS

  function Code(c: Command): u32 {
    match c
    case SYNC => 0x434e5953
    case CNXN => 0x4e584e43
    case OPEN => 0x4e45504f
    case OKAY => 0x59414b4f
    case CLSE => 0x45534c43
    case WRTE => 0x45545257
    case AUTH => 0x48545541
    case STLS => 0x534C5453
  }

  function FromCode(x: u32): Result<Command> {
    if x == 0x434e5953 then Ok(SYNC)
    else if x == 0x4e584e43 then Ok(CNXN)
    else if x == 0x4e45504f then Ok(OPEN)
    else if x == 0x59414b4f then Ok(OKAY)
    else if x == 0x45534c43 then Ok(CLSE)
    else if x == 0x45545257 then Ok(WRTE)
    else if x == 0x48545541 then Ok(AUTH)
    else if x == 0x534C5453 then Ok(STLS)
    else Err("unknown command")
  }

  datatype Header = Header(command: Command, arg0: u32, arg1: u32, dataLength: u32, crc32: u32, magic: u32)

  datatype Message = Message(header: Header, payload: Data)

  const HEADER_LENGTH: nat := 24

  /** `AdbMessage::new`; the xor with 0xffffffff complements every bit. */
  function NewMessage(command: Command, arg0: u32, arg1: u32, payload: Data): Message {
    Message(Header(command, arg0, arg1, |payload| % 0x1_0000_0000, 0, 0xffff_ffff - Code(command)), payload)
  }

  function Encode(h: Header): (r: Data)
    ensures |r| == HEADER_LENGTH
  {
    Le32(Code(h.command)) + Le32(h.arg0) + Le32(h.arg1) + Le32(h.dataLength) + Le32(h.crc32) + Le32(h.magic)
  }

  /** The header at the front of `b`; the rest of `b` is ignored. */
  function Decode(b: Data): Result<Header> {
    if |b| < HEADER_LENGTH then
      Err("header too short")
    else
      match FromCode(FromLe32(b[0..4]))
      case Err(e) => Err(e)
      case Ok(c) =>
        Ok(Header(c, FromLe32(b[4..8]), FromLe32(b[8..12]), FromLe32(b[12..16]), FromLe32(b[16..20]),
                  FromLe32(b[20..24])))
  }

  lemma CodesMatch(c: Command, x: u32)
    ensures FromCode(Code(c)) == Ok(c)
    ensures FromCode(x) == Ok(c) ==> x == Code(c)
  {
  }

  /** Decoding undoes encoding, whatever follows the header. */
  lemma DecodeEncode(h: Header, rest: Data)
    ensures Decode(Encode(h) + rest) == Ok(h)
  {
    var b := Encode(h) + rest;
    assert b[0..4] == Le32(Code(h.command)) && b[4..8] == Le32(h.arg0) && b[8..12] == Le32(h.arg1);
    assert b[12..16] == Le32(h.dataLength) && b[16..20] == Le32(h.crc32) && b[20..24] == Le32(h.magic);
    Le32RoundTrip(Code(h.command));
    Le32RoundTrip(h.arg0);
    Le32RoundTrip(h.arg1);
    Le32RoundTrip(h.dataLength);
    Le32RoundTrip(h.crc32);
    Le32RoundTrip(h.magic);
    CodesMatch(h.command, 0);
  }

  /** Encoding undoes decoding: only one header has these bytes. */
  lemma EncodeDecode(b: Data)
    requires Decode(b).Ok?
    ensures Encode(Decode(b).value) == b[..24]
  {
    var h := Decode(b).value;
    FromLe32RoundTrip(b[0..4]);
    FromLe32RoundTrip(b[4..8]);
    FromLe32RoundTrip(b[8..12]);
    FromLe32RoundTrip(b[12..16]);
    FromLe32RoundTrip(b[16..20]);
    FromLe32RoundTrip(b[20..24]);
    CodesMatch(h.command, FromLe32(b[0..4]));
    assert b[..24] == b[0..4] + b[4..8] + b[8..12] + b[12..16] + b[16..20] + b[20..24];
  }

  /** The four letters of a command. */
  function Name(c: Command): string {
    match c
    case SYNC => "SYNC"
    case CNXN => "CNXN"
    case OPEN => "OPEN"
    case OKAY => "OKAY"
    case CLSE => "CLSE"
    case WRTE => "WRTE"
    case AUTH => "AUTH"
    case STLS => "STLS"
  }

  lemma CodeSpellsName(c: Command)
    ensures Spells(Le32(Code(c)), Name(c))
  {
    var b := Letters(c);
    assert FromLe32(b) == Code(c);
    FromLe32RoundTrip(b);
  }

  function Letters(c: Command): (b: Data)
    ensures Spells(b, Name(c))
  {
    match c
    case SYNC => [0x53, 0x59, 0x4e, 0x43]
    case CNXN => [0x43, 0x4e, 0x58, 0x4e]
    case OPEN => [0x4f, 0x50, 0x45, 0x4e]
    case OKAY => [0x4f, 0x4b, 0x41, 0x59]
    case CLSE => [0x43, 0x4c, 0x53, 0x45]
    case WRTE => [0x57, 0x52, 0x54, 0x45]
    case AUTH => [0x41, 0x55, 0x54, 0x48]
    case STLS => [0x53, 0x54, 0x4c, 0x53]
  }

  lemma Complement(x: u32)
    ensures forall i :: 0 <= i < 4 ==> Le32(0xffff_ffff - x)[i] == 255 - Le32(x)[i]
  {
    var b := Le32(x);
    var y := 0xffff_ffff - x;
    Le32RoundTrip(x);
    var y2: int := (255 - b[2] as int) + 256 * (255 - b[3] as int);
    var y1: int := (255 - b[1] as int) + 256 * y2;
    LowByte(y, 255 - b[0], y1);
    LowByte(y1, 255 - b[1], y2);
    LowByte(y2, 255 - b[2], 255 - b[3]);
    assert y / 65536 == y / 256 / 256 && y / 16777216 == y / 65536 / 256;
  }

  /** What a device checks in the bytes of a new message's header: the name of the command, its complement at the
      end, and no checksum; and what it reads in them. */
  lemma HeaderBytes(c: Command, arg0: u32, arg1: u32, payload: Data)
    ensures var m := NewMessage(c, arg0, arg1, payload);
            var b := Encode(m.header);
            && Spells(b[0..4], Name(c))
            && (forall i :: 0 <= i < 4 ==> b[20 + i] == 255 - b[i])
            && b[16..20] == [0, 0, 0, 0]
            && FromLe32(b[4..8]) == arg0 && FromLe32(b[8..12]) == arg1
            && FromLe32(b[12..16]) == |payload| % 0x1_0000_0000 && m.payload == payload
  {
    var m := NewMessage(c, arg0, arg1, payload);
    var b := Encode(m.header);
    Words(m.header);
    CodeSpellsName(c);
    Complement(Code(c));
    assert forall i :: 0 <= i < 4 ==> b[20 + i] == b[20..24][i] && b[i] == b[0..4][i];
    Le32RoundTrip(arg0);
    Le32RoundTrip(arg1);
    Le32RoundTrip(m.header.dataLength);
  }

  lemma Words(h: Header)
    ensures var b := Encode(h);
            && b[0..4] == Le32(Code(h.command)) && b[4..8] == Le32(h.arg0) && b[8..12] == Le32(h.arg1)
            && b[12..16] == Le32(h.dataLength) && b[16..20] == Le32(h.crc32) && b[20..24] == Le32(h.magic)
  {
  }

  /** `AdbMessageHeader::write` into an empty vector: one word after the other. */
  method ToVec(h: Header) returns (buf: Data)
    ensures buf == Encode(h)
  {
    buf := [];
    var words := [Code(h.command), h.arg0, h.arg1, h.dataLength, h.crc32, h.magic];
    buf := buf + Le32(words[0]);
    buf := buf + Le32(words[1]);
    buf := buf + Le32(words[2]);
    buf := buf + Le32(words[3]);
    buf := buf + Le32(words[4]);
    buf := buf + Le32(words[5]);
  }

  /** A buffer that is read from the front. */
  class Cursor {
    const data: Data
    var pos: nat

    ghost predicate Valid() reads this { pos <= |data| }

    constructor (data: Data)
      ensures Valid() && this.data == data && pos == 0
    {
      this.data := data;
      pos := 0;
    }

    method GetU32Le() returns (x: u32)
      requires Valid() && pos + 4 <= |data|
      modifies this
      ensures Valid() && pos == old(pos) + 4 && x == FromLe32(data[old(pos)..old(pos) + 4])
    {
      x := FromLe32(data[pos..pos + 4]);
      pos := pos + 4;
    }
  }

  /** `AdbMessageHeader::read` from a fresh cursor. */
  method ReadHeader(data: Data) returns (r: Result<Header>)
    ensures r == Decode(data)
  {
    var buf := new Cursor(data);
    if |buf.data| - buf.pos < HEADER_LENGTH {
      return Err("header too short");
    }
    var code := buf.GetU32Le();
    match FromCode(code) {
      case Err(e) => return Err(e);
      case Ok(command) =>
        var arg0 := buf.GetU32Le();
        var arg1 := buf.GetU32Le();
        var dataLength := buf.GetU32Le();
        var crc32 := buf.GetU32Le();
        var magic := buf.GetU32Le();
        return Ok(Header(command, arg0, arg1, dataLength, crc32, magic));
    }
  }

  // ---- Socket frames as messages ----------------------------------------------------------------

  /** The message that carries a frame: OPEN ends its service with a zero byte, OKAY carries its credit as
      four bytes. */
  function ToMessage(f: Frame): Message {
    match f
    case Open(src, window, service) => NewMessage(OPEN, src, window, service + [0])
    case Okay(src, dst, avail) => NewMessage(OKAY, src, dst, Le32(avail))
    case Wrte(src, dst, data) => NewMessage(WRTE, src, dst, data)
    case Clse(src, dst) => NewMessage(CLSE, src, dst, [])
  }

  function ToMessages(fs: seq<Frame>): seq<Message> {
    if fs == [] then [] else [ToMessage(fs[0])] + ToMessages(fs[1..])
  }

  /** How the receiver reads a message; other commands are not frames. */
  function ToFrame(m: Message): Result<Frame> {
    match m.header.command
    case OPEN =>
      var n := |m.payload|;
      Ok(Open(m.header.arg0, m.header.arg1,
              if n > 0 && m.payload[n - 1] == 0 then m.payload[..n - 1] else m.payload))
    case OKAY =>
      if |m.payload| == 4 then Ok(Okay(m.header.arg0, m.header.arg1, FromLe32(m.payload)))
      else Err("no avail in OKAY")
    case WRTE => Ok(Wrte(m.header.arg0, m.header.arg1, m.payload))
    case CLSE => Ok(Clse(m.header.arg0, m.header.arg1))
    case _ => Err("not a socket message")
  }

  /** How any message is read, also one that no socket of this program sends: an OPEN loses one zero byte at its end,
      if there is one; an OKAY must have four bytes. */
  lemma ToFrameIsExact(m: Message, service: Data)
    ensures m.header.command == OPEN && (m.payload == service + [0]
              || (m.payload == service && (service == [] || service[|service| - 1] != 0))) ==>
              ToFrame(m) == Ok(Open(m.header.arg0, m.header.arg1, service))
    ensures m.header.command == OKAY ==>
              if |m.payload| == 4 then ToFrame(m) == Ok(Okay(m.header.arg0, m.header.arg1, FromLe32(m.payload)))
              else ToFrame(m).Err?
    ensures m.header.command !in {OPEN, OKAY, WRTE, CLSE} ==> ToFrame(m).Err?
  {
    Sequences.Parts(service, [0]);
  }

  /** The bytes of a frame's message: its command, its ids or window, and its payload. */
  ghost predicate OnTheWire(f: Frame, name: string, arg0: u32, arg1: u32, payload: Data) {
    var m := ToMessage(f);
    var b := Encode(m.header);
    Spells(b[0..4], name) && FromLe32(b[4..8]) == arg0 && FromLe32(b[8..12]) == arg1 && m.payload == payload
  }

  /** OPEN carries its window where the others carry the id they are for. */
  lemma FrameBytes(f: Frame)
    ensures match f
            case Open(src, window, service) => OnTheWire(f, "OPEN", src, window, service + [0])
            case Okay(src, dst, avail) =>
              |ToMessage(f).payload| == 4 && FromLe32(ToMessage(f).payload) == avail
              && OnTheWire(f, "OKAY", src, dst, ToMessage(f).payload)
            case Wrte(src, dst, data) => OnTheWire(f, "WRTE", src, dst, data)
            case Clse(src, dst) => OnTheWire(f, "CLSE", src, dst, [])
  {
    var m := ToMessage(f);
    HeaderBytes(m.header.command, m.header.arg0, m.header.arg1, m.payload);
    if f.Okay? {
      Le32RoundTrip(f.avail);
    }
  }

  /** Every frame arrives as it was sent. */
  lemma FrameRoundTrip(f: Frame)
    ensures ToFrame(ToMessage(f)) == Ok(f)
  {
    match f
    case Open(_, _, service) => assert (service + [0])[..|service|] == service;
    case Okay(_, _, avail) => Le32RoundTrip(avail);
    case _ =>
  }
}
