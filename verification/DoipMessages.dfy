/** The frame builders in their buffers, the diagnostic and routing messages, and how C and C++ read each other's. */
module DoipMessages {
  import opened Words
  import opened Doip

  // ---------------------------------------------------------------------------------------------
  // The C builders
  // ---------------------------------------------------------------------------------------------

  method WriteShort(v: uint16, out: array<uint8>, at: nat)
    requires at + 2 <= out.Length
    modifies out
    ensures out[at..at + 2] == Be16(v)
    ensures out[..at] == old(out[..at]) && out[at + 2..] == old(out[at + 2..])
  {
    NetworkOrder16(v);
    var bytes := Store16(Swap16(v));
    out[at], out[at + 1] := bytes[0], bytes[1];
  }

  method WriteLong(v: uint32, out: array<uint8>, at: nat)
    requires at + 4 <= out.Length
    modifies out
    ensures out[at..at + 4] == Be32(v)
    ensures out[..at] == old(out[..at]) && out[at + 4..] == old(out[at + 4..])
  {
    NetworkOrder32(v);
    var bytes := Store32(Swap32(v));
    out[at], out[at + 1], out[at + 2], out[at + 3] := bytes[0], bytes[1], bytes[2], bytes[3];
  }

  method WriteHeader(payloadType: uint16, length: uint32, out: array<uint8>)
    requires HEADER_SIZE <= out.Length
    modifies out
    ensures out[..HEADER_SIZE] == Header(VERSION, INVERSE_VERSION, payloadType, length)
    ensures out[HEADER_SIZE..] == old(out[HEADER_SIZE..])
  {
    out[0], out[1] := VERSION, INVERSE_VERSION;
    WriteShort(payloadType, out, 2);
    ghost var early := out[..4];
    assert early[2..] == Be16(payloadType);
    WriteLong(length, out, 4);
    assert out[..8] == out[..4] + out[4..8];
    assert out[..4] == early == [VERSION, INVERSE_VERSION] + Be16(payloadType);
  }

  lemma SliceOfSlice(s: seq<uint8>, a: nat, lo: nat, hi: nat)
    requires a <= lo <= hi <= |s|
    ensures s[a..][lo - a..hi - a] == s[lo..hi]
  {
  }

  /**
   * Builds a frame from the `length` bytes at `src[from..]`. The source may be the output buffer itself, when its
   * payload already stands where it belongs or clear of it, as memcpy demands. The capacity check is done on a 32-bit
   * sum; where that wraps, the call is modelled if the check refuses it: otherwise memcpy leaves the buffer.
   */
  method BuildMessage(payloadType: uint16, src: array<uint8>, from: nat, length: uint32, out: array<uint8>)
    returns (n: nat)
    requires from + length <= src.Length
    requires length < LENGTH_LIMIT || out.Length < FrameSize(length)
    requires src == out ==> from == HEADER_SIZE || from >= HEADER_SIZE + length
    modifies out
    ensures n == if out.Length < FrameSize(length) then 0 else HEADER_SIZE + length
    ensures n == 0 ==> out[..] == old(out[..])
    ensures n > 0 ==>
              && length < LENGTH_LIMIT
              && out[..n] == Frame(Message(payloadType, old(src[from..from + length])))
              && out[n..] == old(out[n..])
  {
    FrameSizeExact(length);
    if out.Length < FrameSize(length) { return 0; }
    ghost var payload := src[from..from + length];
    ghost var tail := out[HEADER_SIZE + length..];
    ghost var body := out[HEADER_SIZE..];
    if src == out {
      SliceOfSlice(out[..], HEADER_SIZE, from, from + length);
    }
    WriteHeader(payloadType, length, out);
    if src == out {
      SliceOfSlice(out[..], HEADER_SIZE, from, from + length);
    }
    assert src[from..from + length] == payload;
    assert tail == out[HEADER_SIZE + length..] by { assert tail == body[length..]; }
    CopyBytes(src, from, length, out, HEADER_SIZE);
    n := HEADER_SIZE + length;
    assert out[..n] == out[..HEADER_SIZE] + out[HEADER_SIZE..n];
  }

  /** memcpy within its contract: the ranges coincide or do not overlap. */
  method CopyBytes(src: array<uint8>, from: nat, length: nat, out: array<uint8>, at: nat)
    requires from + length <= src.Length && at + length <= out.Length
    requires src == out ==> from == at || from >= at + length || from + length <= at
    modifies out
    ensures out[..at] == old(out[..at])
    ensures out[at..at + length] == old(src[from..from + length])
    ensures out[at + length..] == old(out[at + length..])
  {
    ghost var payload := src[from..from + length];
    for i := 0 to length
      invariant out[..at] == old(out[..at])
      invariant out[at..at + i] == payload[..i]
      invariant forall k :: i <= k < length ==> src[from + k] == payload[k]
      invariant out[at + length..] == old(out[at + length..])
    {
      out[at + i] := src[from + i];
    }
  }

  function DiagnosticPayload(source: uint16, target: uint16, uds: seq<uint8>): seq<uint8> {
    Be16(source) + Be16(target) + uds
  }

  function DiagnosticMessage(source: uint16, target: uint16, uds: seq<uint8>): Message {
    Message(DIAGNOSTIC_MESSAGE, DiagnosticPayload(source, target, uds))
  }

  method WriteAddresses(source: uint16, target: uint16, out: array<uint8>)
    requires HEADER_SIZE + 4 <= out.Length
    modifies out
    ensures out[HEADER_SIZE..HEADER_SIZE + 4] == Be16(source) + Be16(target)
    ensures forall i :: 0 <= i < HEADER_SIZE || HEADER_SIZE + 4 <= i < out.Length ==> out[i] == old(out[i])
  {
    NetworkOrder16(source);
    NetworkOrder16(target);
    var s, t := Store16(Swap16(source)), Store16(Swap16(target));
    out[HEADER_SIZE], out[HEADER_SIZE + 1] := s[0], s[1];
    out[HEADER_SIZE + 2], out[HEADER_SIZE + 3] := t[0], t[1];
  }

  /** Puts addresses and UDS data where the payload belongs; the data may stand in the buffer, clear of both. */
  method LayOutPayload(
      source: uint16, target: uint16, uds: array<uint8>, from: nat, length: nat, out: array<uint8>)
    requires from + length <= uds.Length && HEADER_SIZE + 4 + length <= out.Length
    requires uds == out ==>
               from == HEADER_SIZE + 4 || from >= HEADER_SIZE + 4 + length || from + length <= HEADER_SIZE
    modifies out
    ensures out[HEADER_SIZE..HEADER_SIZE + 4 + length]
         == DiagnosticPayload(source, target, old(uds[from..from + length]))
    ensures out[HEADER_SIZE + 4 + length..] == old(out[HEADER_SIZE + 4 + length..])
  {
    ghost var data := uds[from..from + length];
    WriteAddresses(source, target, out);
    assert uds[from..from + length] == data;
    ghost var tail, early := out[HEADER_SIZE + 4 + length..], out[..HEADER_SIZE + 4];
    CopyBytes(uds, from, length, out, HEADER_SIZE + 4);
    ghost var done := out[..HEADER_SIZE + 4 + length];
    assert done == early + data;
    assert done[HEADER_SIZE..] == early[HEADER_SIZE..] + data;
  }

  /** Lays the payload out inside the output buffer and then frames it in place. */
  method BuildDiagnosticMessage(
      source: uint16, target: uint16, uds: array<uint8>, from: nat, length: nat, out: array<uint8>) returns (n: nat)
    requires from + length <= uds.Length && 4 + length < LENGTH_LIMIT
    requires uds == out ==>
               from == HEADER_SIZE + 4 || from >= HEADER_SIZE + 4 + length || from + length <= HEADER_SIZE
    modifies out
    ensures n == if out.Length < HEADER_SIZE + 4 + length then 0 else HEADER_SIZE + 4 + length
    ensures n == 0 ==> out[..] == old(out[..])
    ensures n > 0 ==>
              && out[..n] == Frame(DiagnosticMessage(source, target, old(uds[from..from + length])))
              && out[n..] == old(out[n..])
  {
    if out.Length < HEADER_SIZE + 4 + length { return 0; }
    LayOutPayload(source, target, uds, from, length, out);
    FrameSizeExact(4 + length);
    n := BuildMessage(DIAGNOSTIC_MESSAGE, out, HEADER_SIZE, 4 + length, out);
  }

  method BuildRoutingActivationRequest(source: uint16, activationType: uint8, out: array<uint8>) returns (n: nat)
    modifies out
    ensures n == if out.Length < 15 then 0 else 15
    ensures n > 0 ==> out[..n] == Frame(ActivationRequest(source, activationType)) && out[n..] == old(out[n..])
  {
    var payload := new uint8[7];
    WriteShort(source, payload, 0);
    payload[2] := activationType;
    payload[3], payload[4], payload[5], payload[6] := 0, 0, 0, 0;
    FrameSizeExact(7);
    assert payload[0..7] == Be16(source) + [activationType, 0, 0, 0, 0];
    n := BuildMessage(ROUTING_ACTIVATION_REQ, payload, 0, 7, out);
  }

  // ---------------------------------------------------------------------------------------------
  // The C++ side
  // ---------------------------------------------------------------------------------------------

  /** The gateway's own diagnostic builder, which shifts the bytes out; its length field is the low 32 bits. */
  method BuildDiagnosticCpp(source: uint16, target: uint16, uds: seq<uint8>) returns (message: seq<uint8>)
    ensures 4 + |uds| < LENGTH_LIMIT ==> message == Frame(DiagnosticMessage(source, target, uds))
  {
    message := [0x02, 0xFD];
    message := message + [0x80, 0x01];
    var length: uint32 := (4 + |uds|) % W32;
    message := message + [length / 0x100_0000, length / 0x1_0000 % 0x100, length / 0x100 % 0x100, length % 0x100];
    message := message + [source / 0x100, source % 0x100];
    message := message + [target / 0x100, target % 0x100];
    message := message + uds;
    assert message == [0x02, 0xFD] + [0x80, 0x01] + Be32(length) + Be16(source) + Be16(target) + uds;
    PushedBytes(length, source, target, uds);
  }

  lemma PushedBytes(length: uint32, source: uint16, target: uint16, uds: seq<uint8>)
    requires length == (4 + |uds|) % W32
    ensures 4 + |uds| < LENGTH_LIMIT ==>
              [0x02, 0xFD] + [0x80, 0x01] + Be32(length) + Be16(source) + Be16(target) + uds
                == Frame(DiagnosticMessage(source, target, uds))
  {
    PushedHeader(length);
    var header := Header(VERSION, INVERSE_VERSION, DIAGNOSTIC_MESSAGE, length);
    Regroup(header, Be16(source), Be16(target));
    Regroup(header, Be16(source) + Be16(target), uds);
  }

  lemma PushedHeader(length: uint32)
    ensures [0x02, 0xFD] + [0x80, 0x01] + Be32(length) == Header(VERSION, INVERSE_VERSION, DIAGNOSTIC_MESSAGE, length)
  {
  }

  datatype Decoded = Rejected | Overrun | Decoded(message: Message)

  /**
   * DoIPMessage::fromBytes. The length check is done on a 32-bit sum; beyond the limit it may pass
   * although the payload then read lies outside the data.
   */
  function FromBytes(data: seq<uint8>): Decoded {
    if |data| < HEADER_SIZE || !VersionOk(data) || |data| < FrameSize(LengthField(data)) then Rejected
    else if |data| < HEADER_SIZE + LengthField(data) then Overrun
    else Decoded(Message(TypeField(data), data[HEADER_SIZE..HEADER_SIZE + LengthField(data)]))
  }

  lemma FromBytesInvertsFrame(m: Message, rest: seq<uint8>)
    requires |m.payload| < LENGTH_LIMIT
    ensures FromBytes(Frame(m) + rest) == Decoded(m)
  {
    ParseInvertsFrame(m, rest);
  }

  /** DoIPMessage::toBytes, which swaps with htons and htonl and then shifts the bytes out. */
  function ToBytes(littleEndianHost: bool, m: Message): seq<uint8>
    requires |m.payload| < LENGTH_LIMIT
  {
    var t := if littleEndianHost then Swap16(m.payloadType) else m.payloadType;
    var n: uint32 := if littleEndianHost then Swap32(|m.payload|) else |m.payload|;
    Header(VERSION, INVERSE_VERSION, t, n) + m.payload
  }

  /** A header decodes to a message in front of its payload exactly when it is that message's header. */
  lemma HeaderDecides(m: Message, t: uint16, n: uint32)
    requires |m.payload| < LENGTH_LIMIT
    ensures FromBytes(Header(VERSION, INVERSE_VERSION, t, n) + m.payload) == Decoded(m)
       <==> t == m.payloadType && n == |m.payload|
  {
    HeaderFields(VERSION, INVERSE_VERSION, t, n, m.payload);
    if t == m.payloadType && n == |m.payload| {
      assert Header(VERSION, INVERSE_VERSION, t, n) + m.payload == Frame(m) + [];
      FromBytesInvertsFrame(m, []);
    }
  }

  /** The class decodes what it encodes exactly on hosts and for messages where the swaps change nothing. */
  lemma ToBytesRoundTripsExactlyWhen(littleEndianHost: bool, m: Message)
    requires |m.payload| < LENGTH_LIMIT
    ensures FromBytes(ToBytes(littleEndianHost, m)) == Decoded(m)
       <==> !littleEndianHost || (Swap16(m.payloadType) == m.payloadType && Swap32(|m.payload|) == |m.payload|)
  {
    if littleEndianHost {
      HeaderDecides(m, Swap16(m.payloadType), Swap32(|m.payload|));
    } else {
      HeaderDecides(m, m.payloadType, |m.payload|);
    }
  }

  /** The bytes of the three kinds of frame, headers and all. */
  lemma FramesOnTheWire(a: uint16, b: uint16, activationType: uint8, uds: seq<uint8>)
    requires 4 + |uds| < LENGTH_LIMIT
    ensures Frame(ActivationRequest(a, activationType))
         == [0x02, 0xFD, 0x00, 0x05, 0, 0, 0, 7] + Be16(a) + [activationType, 0, 0, 0, 0]
    ensures Frame(ActivationAnswer(a, b))
         == [0x02, 0xFD, 0x00, 0x06, 0, 0, 0, 9] + Be16(a) + Be16(b) + [0x10, 0, 0, 0, 0]
    ensures Frame(DiagnosticMessage(a, b, uds))
         == [0x02, 0xFD, 0x80, 0x01] + Be32(4 + |uds|) + Be16(a) + Be16(b) + uds
  {
  }

  // ---------------------------------------------------------------------------------------------
  // Payloads
  // ---------------------------------------------------------------------------------------------

  datatype Diagnostic = Diagnostic(source: uint16, target: uint16, uds: seq<uint8>)

  function ParseDiagnostic(payload: seq<uint8>): Option<Diagnostic> {
    if |payload| < 4 then None
    else Some(Diagnostic(Swap16(Load16(payload[0], payload[1])), Swap16(Load16(payload[2], payload[3])), payload[4..]))
  }

  /** The remote diagnostics handler skips header and addresses without looking at them. */
  function ParseDiagnosticResponse(message: seq<uint8>): Option<seq<uint8>> {
    if |message| < 12 then None else Some(message[12..])
  }

  /** Every parser of the system gives back what either diagnostic builder was given. */
  lemma DiagnosticRoundTrip(source: uint16, target: uint16, uds: seq<uint8>)
    requires 4 + |uds| < LENGTH_LIMIT
    ensures var payload := DiagnosticPayload(source, target, uds);
            var frame := Frame(DiagnosticMessage(source, target, uds));
            && Parse(frame) == Ok(DIAGNOSTIC_MESSAGE, |payload|) && frame[HEADER_SIZE..] == payload
            && FromBytes(frame) == Decoded(Message(DIAGNOSTIC_MESSAGE, payload))
            && ParseDiagnostic(payload) == Some(Diagnostic(source, target, uds))
            && ParseDiagnosticResponse(frame) == Some(uds)
  {
    var payload := DiagnosticPayload(source, target, uds);
    var m := Message(DIAGNOSTIC_MESSAGE, payload);
    assert Frame(m) + [] == Frame(m);
    ParseInvertsFrame(m, []);
    FromBytesInvertsFrame(m, []);
    LoadSwapped16(payload[0], payload[1]);
    LoadSwapped16(payload[2], payload[3]);
  }

  datatype Activation = Activation(tester: uint16, entity: uint16, code: uint8, reserved: uint32, oemSpecific: uint32)

  /** The server's answer to a routing activation payload. */
  function HandleRoutingActivation(payload: seq<uint8>, entity: uint16): seq<uint8> {
    if |payload| < 7 then [] else Be16(FromBe16(payload[0], payload[1])) + Be16(entity) + [0x10, 0, 0, 0, 0]
  }

  function ParseActivationResponse(p: seq<uint8>): Option<Activation> {
    if |p| < 9 then None
    else Some(Activation(Swap16(Load16(p[0], p[1])), Swap16(Load16(p[2], p[3])), p[4],
                         Swap32(Load32(p[5], p[6], p[7], p[8])),
                         if |p| >= 13 then Swap32(Load32(p[9], p[10], p[11], p[12])) else 0))
  }

  /** A payload shorter than seven bytes is answered with an empty payload, any other with nine bytes. */
  lemma ActivationAnsweredExactlyWhen(payload: seq<uint8>, entity: uint16)
    ensures |HandleRoutingActivation(payload, entity)| == if |payload| < 7 then 0 else 9
    ensures |payload| >= 7 ==>
              HandleRoutingActivation(payload, entity)[..4] == [payload[0], payload[1]] + Be16(entity)
  {
    if |payload| >= 7 { Digits16(payload[0], payload[1]); }
  }

  /** The optional manufacturer field is the last four of at least thirteen bytes. */
  lemma OemFieldReadBack(p: seq<uint8>)
    requires |p| >= 9
    ensures var a := ParseActivationResponse(p).value;
            && a.tester == FromBe16(p[0], p[1]) && a.entity == FromBe16(p[2], p[3]) && a.code == p[4]
            && a.reserved == FromBe32(p[5], p[6], p[7], p[8])
            && a.oemSpecific == if |p| >= 13 then FromBe32(p[9], p[10], p[11], p[12]) else 0
  {
    LoadSwapped16(p[0], p[1]);
    LoadSwapped16(p[2], p[3]);
    LoadSwapped32(p[5], p[6], p[7], p[8]);
    if |p| >= 13 { LoadSwapped32(p[9], p[10], p[11], p[12]); }
  }

  function ActivationRequest(source: uint16, activationType: uint8): Message {
    Message(ROUTING_ACTIVATION_REQ, Be16(source) + [activationType, 0, 0, 0, 0])
  }

  /** What the server sends back for the bytes of one activation request; every answer leaves through `ToBytes`. */
  function ServerAnswer(littleEndianHost: bool, request: seq<uint8>, entity: uint16): Option<seq<uint8>> {
    match FromBytes(request)
    case Decoded(m) =>
      if m.payloadType != ROUTING_ACTIVATION_REQ then None
      else Some(ToBytes(littleEndianHost, Message(ROUTING_ACTIVATION_RES, HandleRoutingActivation(m.payload, entity))))
    case _ => None
  }

  /** The client looks at the payload only of a frame that parses and has the response type. */
  function ClientReads(frame: seq<uint8>): Option<Activation> {
    match Parse(frame)
    case Ok(t, n) =>
      if t != ROUTING_ACTIVATION_RES || |frame| < HEADER_SIZE + n then None
      else ParseActivationResponse(frame[HEADER_SIZE..HEADER_SIZE + n])
    case _ => None
  }

  /** The whole exchange: the C client's request, the C++ server's answer, what the client makes of it. */
  function Handshake(littleEndianHost: bool, source: uint16, activationType: uint8, entity: uint16): Option<Activation>
  {
    match ServerAnswer(littleEndianHost, Frame(ActivationRequest(source, activationType)), entity)
    case None => None
    case Some(frame) => ClientReads(frame)
  }

  function ActivationAnswer(source: uint16, entity: uint16): Message {
    Message(ROUTING_ACTIVATION_RES, Be16(source) + Be16(entity) + [0x10, 0, 0, 0, 0])
  }

  /** The exchange comes down to what the client makes of the answer as the server's encoder sends it. */
  lemma Answered(littleEndianHost: bool, source: uint16, activationType: uint8, entity: uint16)
    ensures Handshake(littleEndianHost, source, activationType, entity)
         == ClientReads(ToBytes(littleEndianHost, ActivationAnswer(source, entity)))
  {
    var request := ActivationRequest(source, activationType);
    FromBytesInvertsFrame(request, []);
    assert Frame(request) + [] == Frame(request);
    assert FromBe16(request.payload[0], request.payload[1]) == source;
  }

  lemma SwappedNine()
    ensures Swap32(9) == 0x900_0000
  {
  }

  /** A header that announces more than follows is too short. */
  lemma AnnouncesTooMuch(payloadType: uint16, length: uint32, payload: seq<uint8>)
    requires |payload| < length < LENGTH_LIMIT
    ensures Parse(Header(VERSION, INVERSE_VERSION, payloadType, length) + payload) == TooShort
  {
    HeaderFields(VERSION, INVERSE_VERSION, payloadType, length, payload);
    FrameSizeExact(length);
  }

  /** With its fields swapped, a nine-byte answer announces far more payload than it has. */
  lemma SwappedAnswerTooShort(m: Message)
    requires |m.payload| == 9
    ensures Parse(ToBytes(true, m)) == TooShort && ClientReads(ToBytes(true, m)) == None
  {
    SwappedNine();
    AnnouncesTooMuch(Swap16(m.payloadType), Swap32(9), m.payload);
  }

  lemma ClientReadsFrame(m: Message)
    requires m.payloadType == ROUTING_ACTIVATION_RES && |m.payload| < LENGTH_LIMIT
    ensures ClientReads(Frame(m)) == ParseActivationResponse(m.payload)
  {
    assert Frame(m) + [] == Frame(m);
    ParseInvertsFrame(m, []);
  }

  lemma AnswerReadBack(source: uint16, entity: uint16, p: seq<uint8>)
    requires |p| == 9 && p[..4] == Be16(source) + Be16(entity)
    ensures ParseActivationResponse(p) == Some(Activation(source, entity, p[4], FromBe32(p[5], p[6], p[7], p[8]), 0))
  {
    AddressesReadBack(source, entity, p);
    LoadSwapped32(p[5], p[6], p[7], p[8]);
  }

  lemma ProperAnswerRead(source: uint16, entity: uint16)
    ensures ClientReads(ToBytes(false, ActivationAnswer(source, entity)))
         == Some(Activation(source, entity, 0x10, 0, 0))
  {
    var answer := ActivationAnswer(source, entity);
    assert ToBytes(false, answer) == Frame(answer);
    ClientReadsFrame(answer);
    AnswerReadBack(source, entity, answer.payload);
  }

  /**
   * The C client reads back from the C++ server's answer the address it asked with, and success, exactly when the
   * server does not run on a little-endian host; there it gets no answer that parses.
   */
  lemma RoutingHandshakeExactlyWhen(littleEndianHost: bool, source: uint16, activationType: uint8, entity: uint16)
    ensures Handshake(littleEndianHost, source, activationType, entity) == Some(Activation(source, entity, 0x10, 0, 0))
       <==> !littleEndianHost
    ensures littleEndianHost ==> Handshake(littleEndianHost, source, activationType, entity) == None
  {
    Answered(littleEndianHost, source, activationType, entity);
    if littleEndianHost {
      SwappedAnswerTooShort(ActivationAnswer(source, entity));
    } else {
      ProperAnswerRead(source, entity);
    }
  }

  lemma AddressesReadBack(source: uint16, entity: uint16, p: seq<uint8>)
    requires |p| >= 4 && p[..4] == Be16(source) + Be16(entity)
    ensures Swap16(Load16(p[0], p[1])) == source && Swap16(Load16(p[2], p[3])) == entity
  {
    assert p[0] == p[..4][0] && p[1] == p[..4][1] && p[2] == p[..4][2] && p[3] == p[..4][3];
    LoadSwapped16(p[0], p[1]);
    LoadSwapped16(p[2], p[3]);
  }
}
