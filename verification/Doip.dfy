/** DoIP frames: the generic header, the C and C++ encoders and decoders, and the server's stream loop. */
module Doip {
  import opened Words

  const VERSION: uint8 := 0x02
  const INVERSE_VERSION: uint8 := 0xFD
  const HEADER_SIZE := 8

  const ROUTING_ACTIVATION_REQ: uint16 := 0x0005
  const ROUTING_ACTIVATION_RES: uint16 := 0x0006
  const DIAGNOSTIC_MESSAGE: uint16 := 0x8001

  /** Payloads longer than this make the 32-bit sum of header and payload length wrap. */
  const LENGTH_LIMIT := W32 - HEADER_SIZE

  datatype Message = Message(payloadType: uint16, payload: seq<uint8>)

  // ---------------------------------------------------------------------------------------------
  // Byte order
  // ---------------------------------------------------------------------------------------------

  function FromBe16(a: uint8, b: uint8): uint16 { a as int * 0x100 + b as int }

  function FromBe32(a: uint8, b: uint8, c: uint8, d: uint8): uint32 {
    a as int * 0x100_0000 + b as int * 0x1_0000 + c as int * 0x100 + d as int
  }

  /** The byte swaps of the C macros and of htons and htonl on a little-endian host. */
  function Swap16(v: uint16): uint16 { FromBe16(v % 0x100, v / 0x100) }

  function Swap32(v: uint32): uint32 {
    FromBe32(v % 0x100, v / 0x100 % 0x100, v / 0x1_0000 % 0x100, v / 0x100_0000)
  }

  /** What memcpy of an integer puts into little-endian memory, and takes out of it. */
  function Store16(v: uint16): seq<uint8> { [v % 0x100, v / 0x100] }

  function Store32(v: uint32): seq<uint8> {
    [v % 0x100, v / 0x100 % 0x100, v / 0x1_0000 % 0x100, v / 0x100_0000]
  }

  function Load16(a: uint8, b: uint8): uint16 { FromBe16(b, a) }

  function Load32(a: uint8, b: uint8, c: uint8, d: uint8): uint32 { FromBe32(d, c, b, a) }

  lemma Digits16(a: uint8, b: uint8)
    ensures FromBe16(a, b) / 0x100 == a && FromBe16(a, b) % 0x100 == b
  {
  }

  lemma Digits32(a: uint8, b: uint8, c: uint8, d: uint8)
    ensures var v := FromBe32(a, b, c, d);
            v / 0x100_0000 == a && v / 0x1_0000 % 0x100 == b && v / 0x100 % 0x100 == c && v % 0x100 == d
  {
    var v := FromBe32(a, b, c, d);
    assert v / 0x100 == a as int * 0x1_0000 + b as int * 0x100 + c as int;
    assert v / 0x1_0000 == a as int * 0x100 + b as int;
  }

  lemma Compose32(v: uint32)
    ensures FromBe32(v / 0x100_0000, v / 0x1_0000 % 0x100, v / 0x100 % 0x100, v % 0x100) == v
  {
    assert v / 0x1_0000 == v / 0x100_0000 * 0x100 + v / 0x1_0000 % 0x100;
    assert v / 0x100 == v / 0x1_0000 * 0x100 + v / 0x100 % 0x100;
  }

  /** Swapping and storing on a little-endian machine is network byte order. */
  lemma NetworkOrder16(v: uint16)
    ensures Store16(Swap16(v)) == Be16(v)
  {
    Digits16(v % 0x100, v / 0x100);
  }

  lemma NetworkOrder32(v: uint32)
    ensures Store32(Swap32(v)) == Be32(v)
  {
    Digits32(v % 0x100, v / 0x100 % 0x100, v / 0x1_0000 % 0x100, v / 0x100_0000);
  }

  /** Loading and swapping on a little-endian machine reads network byte order. */
  lemma LoadSwapped16(a: uint8, b: uint8)
    ensures Swap16(Load16(a, b)) == FromBe16(a, b)
  {
    Digits16(b, a);
  }

  lemma LoadSwapped32(a: uint8, b: uint8, c: uint8, d: uint8)
    ensures Swap32(Load32(a, b, c, d)) == FromBe32(a, b, c, d)
  {
    Digits32(d, c, b, a);
  }

  // ---------------------------------------------------------------------------------------------
  // Frames
  // ---------------------------------------------------------------------------------------------

  function Header(v: uint8, inverse: uint8, payloadType: uint16, length: uint32): (h: seq<uint8>)
    ensures |h| == HEADER_SIZE
  {
    [v, inverse] + Be16(payloadType) + Be32(length)
  }

  function Frame(m: Message): seq<uint8>
    requires |m.payload| < LENGTH_LIMIT
  {
    Header(VERSION, INVERSE_VERSION, m.payloadType, |m.payload|) + m.payload
  }

  function TypeField(s: seq<uint8>): uint16
    requires |s| >= HEADER_SIZE
  {
    FromBe16(s[2], s[3])
  }

  function LengthField(s: seq<uint8>): uint32
    requires |s| >= HEADER_SIZE
  {
    FromBe32(s[4], s[5], s[6], s[7])
  }

  predicate VersionOk(s: seq<uint8>)
    requires |s| >= HEADER_SIZE
  {
    s[0] == VERSION && s[1] == INVERSE_VERSION
  }

  /** The header's fields are read back, whatever follows. */
  lemma HeaderFields(v: uint8, inverse: uint8, payloadType: uint16, length: uint32, rest: seq<uint8>)
    ensures var s := Header(v, inverse, payloadType, length) + rest;
            s[0] == v && s[1] == inverse && TypeField(s) == payloadType && LengthField(s) == length
  {
    Compose32(length);
  }

  /** Every eight bytes are the header of their fields. */
  lemma HeaderOfFields(s: seq<uint8>)
    requires |s| >= HEADER_SIZE
    ensures s[..HEADER_SIZE] == Header(s[0], s[1], TypeField(s), LengthField(s))
  {
    Digits16(s[2], s[3]);
    Digits32(s[4], s[5], s[6], s[7]);
  }

  /** 32-bit sum of header and payload length, as all the decoders compute it. */
  function FrameSize(length: uint32): uint32 { (HEADER_SIZE + length) % W32 }

  lemma FrameSizeExact(length: uint32)
    ensures FrameSize(length) == if length < LENGTH_LIMIT then HEADER_SIZE + length else HEADER_SIZE + length - W32
  {
  }

  // ---------------------------------------------------------------------------------------------
  // The C parser
  // ---------------------------------------------------------------------------------------------

  datatype Parsed = TooShort | BadVersion | Ok(payloadType: uint16, length: uint32)

  function Parse(buf: seq<uint8>): Parsed {
    if |buf| < HEADER_SIZE then TooShort
    else if !VersionOk(buf) then BadVersion
    else if |buf| < FrameSize(LengthField(buf)) then TooShort
    else Ok(TypeField(buf), LengthField(buf))
  }

  /** memcpy out of the buffer, then the swap macro. */
  method ReadShort(buf: array<uint8>, at: nat) returns (v: uint16)
    requires at + 2 <= buf.Length
    ensures v == FromBe16(buf[at], buf[at + 1])
  {
    LoadSwapped16(buf[at], buf[at + 1]);
    v := Load16(buf[at], buf[at + 1]);
    v := Swap16(v);
  }

  method ReadLong(buf: array<uint8>, at: nat) returns (v: uint32)
    requires at + 4 <= buf.Length
    ensures v == FromBe32(buf[at], buf[at + 1], buf[at + 2], buf[at + 3])
  {
    LoadSwapped32(buf[at], buf[at + 1], buf[at + 2], buf[at + 3]);
    v := Load32(buf[at], buf[at + 1], buf[at + 2], buf[at + 3]);
    v := Swap32(v);
  }

  /** `payload` is where the payload pointer points; it is null for an empty payload. */
  method ParseMessage(buf: array<uint8>, len: nat)
    returns (rc: int, payloadType: uint16, length: uint32, payload: Option<nat>)
    requires len <= buf.Length
    ensures match Parse(buf[..len])
            case TooShort => rc == -1
            case BadVersion => rc == -2
            case Ok(t, n) =>
              rc == 0 && payloadType == t && length == n && payload == if n > 0 then Some(HEADER_SIZE) else None
  {
    if len < HEADER_SIZE { return -1, 0, 0, None; }
    payloadType := ReadShort(buf, 2);
    length := ReadLong(buf, 4);
    ghost var s := buf[..len];
    assert TypeField(s) == payloadType && LengthField(s) == length;
    if buf[0] != VERSION || buf[1] != INVERSE_VERSION { return -2, payloadType, length, None; }
    if len < FrameSize(length) { return -1, payloadType, length, None; }
    return 0, payloadType, length, if length > 0 then Some(HEADER_SIZE) else None;
  }

  /** The parser inverts framing, with anything behind the frame. */
  lemma ParseInvertsFrame(m: Message, rest: seq<uint8>)
    requires |m.payload| < LENGTH_LIMIT
    ensures var s := Frame(m) + rest;
            Parse(s) == Ok(m.payloadType, |m.payload|) && s[HEADER_SIZE..HEADER_SIZE + |m.payload|] == m.payload
  {
    HeaderFields(VERSION, INVERSE_VERSION, m.payloadType, |m.payload|, m.payload + rest);
    assert Frame(m) + rest == Header(VERSION, INVERSE_VERSION, m.payloadType, |m.payload|) + (m.payload + rest);
  }

  /** The three outcomes: the version decides once eight bytes are there, and then the 32-bit length sum. */
  lemma ParseOutcomeExactlyWhen(buf: seq<uint8>)
    ensures Parse(buf) == BadVersion <==> |buf| >= 8 && (buf[0] != 0x02 || buf[1] != 0xFD)
    ensures Parse(buf).Ok? <==>
              && |buf| >= 8 && buf[0] == 0x02 && buf[1] == 0xFD
              && |buf| >= (8 + LengthField(buf)) % 0x1_0000_0000
    ensures Parse(buf) == TooShort <==> Parse(buf) != BadVersion && !Parse(buf).Ok?
  {
  }

  /** And only frames parse: what is accepted, below the limit, is the frame of what is reported. */
  lemma ParsedIsFrame(buf: seq<uint8>)
    requires Parse(buf).Ok? && Parse(buf).length < LENGTH_LIMIT
    ensures var n := HEADER_SIZE + Parse(buf).length;
            n <= |buf| && buf[..n] == Frame(Message(Parse(buf).payloadType, buf[HEADER_SIZE..n]))
  {
    HeaderOfFields(buf);
    FrameSizeExact(LengthField(buf));
    var n := HEADER_SIZE + Parse(buf).length;
    assert buf[..n] == buf[..HEADER_SIZE] + buf[HEADER_SIZE..n];
  }

  lemma ParseByFields(buf: seq<uint8>)
    requires |buf| >= HEADER_SIZE && VersionOk(buf) && LengthField(buf) >= LENGTH_LIMIT
    ensures Parse(buf) == Ok(TypeField(buf), LengthField(buf))
  {
    FrameSizeExact(LengthField(buf));
  }

  /** A bare header announcing 2^32 - 8 bytes or more is accepted. */
  lemma BareHeaderAccepted(length: uint32) returns (buf: seq<uint8>)
    requires length >= LENGTH_LIMIT
    ensures |buf| == HEADER_SIZE && Parse(buf) == Ok(0, length)
  {
    buf := Header(VERSION, INVERSE_VERSION, 0, length) + [];
    HeaderFields(VERSION, INVERSE_VERSION, 0, length, []);
    ParseByFields(buf);
  }

  predicate AcceptedIsComplete(buf: seq<uint8>, length: uint32) {
    Parse(buf).Ok? && Parse(buf).length == length ==> |buf| >= HEADER_SIZE + length
  }

  /** Acceptance promises a complete payload exactly for lengths whose sum with the header does not wrap. */
  lemma AcceptanceMeansCompleteExactlyWhen(length: uint32)
    ensures (forall buf :: AcceptedIsComplete(buf, length)) <==> length < LENGTH_LIMIT
  {
    if length >= LENGTH_LIMIT {
      var buf := BareHeaderAccepted(length);
      assert !AcceptedIsComplete(buf, length);
    }
  }
}
