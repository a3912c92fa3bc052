/** The MQTT 3.1.1 remaining-length encoding and the layout of PUBLISH packets. */
module MqttPacket {
  import opened Words

  // ---------------------------------------------------------------------------------------------
  // Remaining length
  // ---------------------------------------------------------------------------------------------

  function EncodeLength(n: nat): (r: seq<uint8>)
    ensures |r| >= 1
  {
    if n < 128 then [n] else [n % 128 + 128] + EncodeLength(n / 128)
  }

  /** The largest value of four bytes. */
  const MAX_REMAINING := 268_435_455

  datatype Decoded = Decoded(value: nat, used: nat)

  /**
   * Decoding as in section 2.2.3 of MQTT 3.1.1, for any number of bytes: seven bits each, least significant first,
   * the top bit announcing another byte.
   */
  function DecodeLength(s: seq<uint8>): Option<Decoded> {
    if s == [] then None
    else if s[0] < 128 then Some(Decoded(s[0], 1))
    else match DecodeLength(s[1..])
      case None => None
      case Some(d) => Some(Decoded(s[0] - 128 + 128 * d.value, d.used + 1))
  }

  /** The do-while loop writes into the packet behind `before` and returns the new end. */
  method EncodeLengthInto(packet: array<uint8>, at: nat, n: nat, ghost before: seq<uint8>) returns (end: nat)
    requires at + |EncodeLength(n)| <= packet.Length && packet[..at] == before
    modifies packet
    ensures end == at + |EncodeLength(n)| && packet[..end] == before + EncodeLength(n)
  {
    var length := n;
    end := at;
    var more := true;
    ghost var done: seq<uint8> := [];
    while more
      invariant end == at + |done| && at + |EncodeLength(n)| <= packet.Length
      invariant EncodeLength(n) == done + if more then EncodeLength(length) else []
      invariant packet[..end] == before + done
      decreases more, length
    {
      DigitMoves(done, length);
      var digit: uint8 := length % 128;
      length := length / 128;
      more := length > 0;
      if more {
        digit := digit + 128;
      }
      packet[end] := digit;
      end := end + 1;
      Regroup(before, done, [digit]);
      done := done + [digit];
    }
  }

  /** One turn of the loop moves one byte from what is left to encode to what is written. */
  lemma DigitMoves(done: seq<uint8>, length: nat)
    ensures var digit: uint8 := length % 128 + if length / 128 > 0 then 128 else 0;
            var tail := if length / 128 > 0 then EncodeLength(length / 128) else [];
            done + EncodeLength(length) == (done + [digit]) + tail
  {
    var digit: uint8 := length % 128 + if length / 128 > 0 then 128 else 0;
    var tail := if length / 128 > 0 then EncodeLength(length / 128) else [];
    assert EncodeLength(length) == [digit] + tail;
    Regroup(done, [digit], tail);
  }

  /** Decoding inverts encoding for every length, whatever follows. */
  lemma {:induction false} DecodeInvertsEncode(n: nat, rest: seq<uint8>)
    ensures DecodeLength(EncodeLength(n) + rest) == Some(Decoded(n, |EncodeLength(n)|))
  {
    var s := EncodeLength(n) + rest;
    if n >= 128 {
      DecodeInvertsEncode(n / 128, rest);
      assert s[1..] == EncodeLength(n / 128) + rest;
    }
  }

  /** No encoding is a proper prefix of another, and different lengths have different encodings. */
  lemma PrefixFree(m: nat, n: nat, rest: seq<uint8>)
    requires EncodeLength(m) + rest == EncodeLength(n)
    ensures m == n && rest == []
  {
    DecodeInvertsEncode(m, rest);
    DecodeInvertsEncode(n, []);
    assert EncodeLength(n) + [] == EncodeLength(n);
  }

  /** Nothing that decodes to `n` is shorter than its encoding. */
  lemma {:induction false} EncodingIsMinimal(s: seq<uint8>, n: nat)
    requires DecodeLength(s).Some? && DecodeLength(s).value.value == n
    ensures |EncodeLength(n)| <= DecodeLength(s).value.used <= |s|
    decreases s
  {
    if s[0] >= 128 {
      var d := DecodeLength(s[1..]).value;
      EncodingIsMinimal(s[1..], d.value);
      if n >= 128 {
        assert n / 128 == d.value;
      }
    }
  }

  lemma FourBytesExactlyWhen(n: nat)
    ensures |EncodeLength(n)| <= 4 <==> n <= MAX_REMAINING
  {
    var n1 := n / 128;
    var n2 := n1 / 128;
    var n3 := n2 / 128;
    assert n1 < 128 * 128 * 128 <==> n < 128 * 128 * 128 * 128;
    assert n2 < 128 * 128 <==> n1 < 128 * 128 * 128;
    assert n3 < 128 <==> n2 < 128 * 128;
    if n >= 128 {
      assert |EncodeLength(n)| == 1 + |EncodeLength(n1)|;
      if n1 >= 128 {
        assert |EncodeLength(n1)| == 1 + |EncodeLength(n2)|;
        if n2 >= 128 {
          assert |EncodeLength(n2)| == 1 + |EncodeLength(n3)|;
        }
      }
    }
  }

  // ---------------------------------------------------------------------------------------------
  // PUBLISH
  // ---------------------------------------------------------------------------------------------

  const BUFFER_SIZE := 2048

  /** `(MQTT_PUBLISH << 4) | (qos << 1)` cut to a byte. */
  function FirstByte(qos: uint8): uint8 {
    var shifted := qos * 2 % 256;
    shifted - shifted / 16 % 4 * 16 + 0x30
  }

  function PacketIdBytes(qos: uint8, id: uint16): seq<uint8> {
    if qos > 0 then [id / 256, id % 256] else []
  }

  /** Topic with its 16-bit length, packet id for QoS above 0, payload. */
  function Body(topic: seq<uint8>, qos: uint8, id: uint16, payload: seq<uint8>): seq<uint8> {
    [|topic| / 256 % 256, |topic| % 256] + topic + PacketIdBytes(qos, id) + payload
  }

  function Packet(topic: seq<uint8>, qos: uint8, id: uint16, payload: seq<uint8>): seq<uint8> {
    [FirstByte(qos)] + EncodeLength(|Body(topic, qos, id, payload)|) + Body(topic, qos, id, payload)
  }

  /** The packet id after a publication; it wraps to 0. */
  function NextId(qos: uint8, id: uint16): uint16 { if qos > 0 then (id + 1) % W16 else id }

  /** memcpy behind `before`. */
  method Copy(data: seq<uint8>, packet: array<uint8>, at: nat, ghost before: seq<uint8>) returns (end: nat)
    requires at + |data| <= packet.Length && packet[..at] == before
    modifies packet
    ensures end == at + |data| && packet[..end] == before + data
  {
    for i := 0 to |data|
      invariant packet[..at + i] == before + data[..i]
    {
      packet[at + i] := data[i];
    }
    end := at + |data|;
  }

  /**
   * What a caller has to keep to, since the source does not check: the packet fits the buffer exactly when topic,
   * payload and packet id leave five bytes for the first byte, the remaining length and the topic length.
   */
  lemma PacketFitsExactlyWhen(topic: seq<uint8>, qos: uint8, id: uint16, payload: seq<uint8>)
    ensures |Packet(topic, qos, id, payload)| <= 2048
       <==> |topic| + |payload| + (if qos > 0 then 2 else 0) <= 2043
  {
    var n := |Body(topic, qos, id, payload)|;
    if n >= 128 {
      assert |EncodeLength(n)| == 1 + |EncodeLength(n / 128)|;
    }
  }

  class MqttClient {
    var packetId: uint16

    constructor ()
      ensures packetId == 1
    {
      packetId := 1;
    }

    /** The packet handed to the connection; it has to fit the buffer. */
    method Publish(topic: seq<uint8>, payload: seq<uint8>, qos: uint8) returns (sent: seq<uint8>)
      requires |topic| + |payload| + (if qos > 0 then 2 else 0) <= 2043
      modifies this
      ensures sent == Packet(topic, qos, old(packetId), payload)
      ensures packetId == NextId(qos, old(packetId))
    {
      PacketFitsExactlyWhen(topic, qos, packetId, payload);
      var packet := new uint8[BUFFER_SIZE];
      packet[0] := FirstByte(qos);
      var remaining := 2 + |topic| + |payload|;
      if qos > 0 { remaining := remaining + 2; }
      assert remaining == |Body(topic, qos, packetId, payload)|;
      ghost var head := [FirstByte(qos)] + EncodeLength(remaining);
      var pos := EncodeLengthInto(packet, 1, remaining, [FirstByte(qos)]);
      var prefix := [|topic| / 256 % 256, |topic| % 256];
      pos := Copy(prefix, packet, pos, head);
      pos := Copy(topic, packet, pos, head + prefix);
      ghost var id := packetId;
      if qos > 0 {
        pos := Copy([packetId / 256, packetId % 256], packet, pos, head + prefix + topic);
        packetId := (packetId + 1) % W16;
      }
      assert packet[..pos] == head + prefix + topic + PacketIdBytes(qos, id);
      pos := Copy(payload, packet, pos, head + prefix + topic + PacketIdBytes(qos, id));
      sent := packet[..pos];
      RegroupFive(head, prefix, topic, PacketIdBytes(qos, id), payload);
    }
  }

  lemma RegroupFive(a: seq<uint8>, b: seq<uint8>, c: seq<uint8>, d: seq<uint8>, e: seq<uint8>)
    ensures a + b + c + d + e == a + (b + c + d + e)
  {
  }

  datatype Publication = Publication(qos: uint8, topic: seq<uint8>, id: Option<uint16>, payload: seq<uint8>)

  /** Topic, packet id and payload; a packet id of 0 is malformed (section 2.3.1 of MQTT 3.1.1). */
  function ReadBody(qos: uint8, body: seq<uint8>): Option<Publication> {
    if |body| < 2 then None
    else
      var topicEnd := 2 + body[0] as int * 256 + body[1] as int;
      if |body| < topicEnd then None
      else
        var topic := body[2..topicEnd];
        if qos == 0 then Some(Publication(qos, topic, None, body[topicEnd..]))
        else if |body| < topicEnd + 2 || body[topicEnd] == body[topicEnd + 1] == 0 then None
        else
          var id := body[topicEnd] as int * 256 + body[topicEnd + 1] as int;
          Some(Publication(qos, topic, Some(id), body[topicEnd + 2..]))
  }

  /**
   * How a receiver reads a PUBLISH packet (section 3.3 of MQTT 3.1.1) with DUP and RETAIN clear: with both QoS bits set
   * it has to close the connection (section 3.3.1.2), and the remaining length has at most four bytes (section 2.2.3).
   */
  function Read(s: seq<uint8>): Option<Publication> {
    if s == [] || s[0] / 16 != 3 || s[0] / 8 % 2 != 0 || s[0] % 2 != 0 || s[0] / 2 % 4 == 3 then None
    else match DecodeLength(s[1..])
      case None => None
      case Some(d) =>
        if d.used > 4 || |s| != 1 + d.used + d.value then None
        else ReadBody(s[0] / 2 % 4, s[1 + d.used..])
  }

  lemma HeaderOfQos(qos: uint8)
    ensures var b := FirstByte(qos);
            b / 16 == 3 && b / 8 % 2 == 0 && b % 2 == 0 && b / 2 % 4 == qos <==> qos < 4
  {
  }

  /** The remaining length is the number of bytes that follow it. */
  lemma RemainingLengthIsExact(topic: seq<uint8>, qos: uint8, id: uint16, payload: seq<uint8>)
    ensures var s := Packet(topic, qos, id, payload);
            var d := DecodeLength(s[1..]);
            d.Some? && 1 + d.value.used + d.value.value == |s|
  {
    var body := Body(topic, qos, id, payload);
    DecodeInvertsEncode(|body|, body);
    assert Packet(topic, qos, id, payload)[1..] == EncodeLength(|body|) + body;
  }

  function Published(topic: seq<uint8>, qos: uint8, id: uint16, payload: seq<uint8>): Publication {
    Publication(qos, topic, if qos > 0 then Some(id) else None, payload)
  }

  lemma BodyReadsBackExactlyWhen(topic: seq<uint8>, qos: uint8, id: uint16, payload: seq<uint8>)
    ensures ReadBody(qos, Body(topic, qos, id, payload)) == Some(Published(topic, qos, id, payload))
       <==> |topic| < W16 && (qos > 0 ==> id != 0)
  {
    var body := Body(topic, qos, id, payload);
    assert body[0] as int * 256 + body[1] as int == |topic| % W16;
    if |topic| < W16 {
      var end := 2 + |topic|;
      assert body[2..end] == topic;
      assert body[end..] == PacketIdBytes(qos, id) + payload;
      assert body[end + |PacketIdBytes(qos, id)|..] == payload;
    }
  }

  lemma PacketReadsBody(topic: seq<uint8>, qos: uint8, id: uint16, payload: seq<uint8>)
    ensures var s, body := Packet(topic, qos, id, payload), Body(topic, qos, id, payload);
            qos <= 2 ==> Read(s) == if |body| <= MAX_REMAINING then ReadBody(qos, body) else None
  {
    var s, body := Packet(topic, qos, id, payload), Body(topic, qos, id, payload);
    HeaderOfQos(qos);
    DecodeInvertsEncode(|body|, body);
    assert s[1..] == EncodeLength(|body|) + body;
    FourBytesExactlyWhen(|body|);
    assert s[1 + |EncodeLength(|body|)|..] == body;
  }

  lemma BadQosNotReadBack(s: seq<uint8>, qos: uint8, p: Publication)
    requires s != [] && s[0] == FirstByte(qos) && qos > 2 && p.qos == qos
    ensures Read(s) != Some(p)
  {
    HeaderOfQos(qos);
  }

  /**
   * A receiver reads back QoS, topic, packet id and payload exactly when the QoS is 0, 1 or 2, the topic length fits
   * its 16 bits, the packet id, if there is one, is not 0, and the remaining length fits four bytes.
   */
  lemma ReadInvertsPublishExactlyWhen(topic: seq<uint8>, qos: uint8, id: uint16, payload: seq<uint8>)
    ensures Read(Packet(topic, qos, id, payload)) == Some(Published(topic, qos, id, payload))
       <==> && qos <= 2 && |topic| < W16 && (qos > 0 ==> id != 0)
            && 2 + |topic| + |PacketIdBytes(qos, id)| + |payload| <= MAX_REMAINING
  {
    if qos <= 2 {
      PacketReadsBody(topic, qos, id, payload);
      BodyReadsBackExactlyWhen(topic, qos, id, payload);
    } else {
      BadQosNotReadBack(Packet(topic, qos, id, payload), qos, Published(topic, qos, id, payload));
    }
  }

  // ---------------------------------------------------------------------------------------------
  // Packet ids over a run of publications
  // ---------------------------------------------------------------------------------------------

  /** The id that publication `n` carries if its QoS asks for one, when publication `i` has the QoS `qos(i)`. */
  function IdAt(qos: nat -> uint8, n: nat): uint16 {
    if n == 0 then 1 else NextId(qos(n - 1), IdAt(qos, n - 1))
  }

  /** The publications with an id among the first `n`. */
  function WithId(qos: nat -> uint8, n: nat): nat {
    if n == 0 then 0 else WithId(qos, n - 1) + if qos(n - 1) > 0 then 1 else 0
  }

  /** The id counts the publications that carry one; after 65535 of them it is 0, which no receiver takes. */
  lemma {:induction false} IdIsZeroExactlyWhen(qos: nat -> uint8, n: nat)
    ensures IdAt(qos, n) == (WithId(qos, n) + 1) % W16
    ensures IdAt(qos, n) == 0 <==> WithId(qos, n) % W16 == W16 - 1
  {
    if n > 0 {
      IdIsZeroExactlyWhen(qos, n - 1);
      OneMoreId(WithId(qos, n - 1));
    }
    ZeroAfterWrap(WithId(qos, n));
  }

  lemma OneMoreId(k: nat)
    ensures ((k + 1) % W16 + 1) % W16 == (k + 1 + 1) % W16
  {
  }

  lemma ZeroAfterWrap(k: nat)
    ensures (k + 1) % W16 == 0 <==> k % W16 == W16 - 1
  {
  }
}
