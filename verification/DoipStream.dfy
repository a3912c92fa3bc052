/** The server's receive loop: cutting a TCP byte stream back into frames. */
module DoipStream {
  import opened Words
  import opened Doip
  import opened DoipMessages

  /** Why the loop stopped. `Overflow`: it receives more than its buffer holds, so nothing is known from there on. */
  datatype End = Closed | PartialHeader | PartialPayload | Overflow

  datatype Cut = Stop(end: End) | Whole(size: nat)

  /** What the loop finds at the front of a stream that the peer closes at its end. */
  function FirstFrame(stream: seq<uint8>): (c: Cut)
    ensures c.Whole? ==> HEADER_SIZE <= c.size <= |stream|
  {
    if stream == [] then Stop(Closed)
    else if |stream| < HEADER_SIZE then Stop(PartialHeader)
    else if LengthField(stream) >= LENGTH_LIMIT then Stop(Overflow)
    else if |stream| < HEADER_SIZE + LengthField(stream) then Stop(PartialPayload)
    else Whole(HEADER_SIZE + LengthField(stream))
  }

  datatype Delivery = Delivery(messages: seq<Message>, end: End)

  function MessagesOf(frame: seq<uint8>): seq<Message> {
    var d := FromBytes(frame);
    if d.Decoded? then [d.message] else []
  }

  /** What is handed on of a whole stream. */
  function Deliver(stream: seq<uint8>): Delivery
    decreases stream
  {
    match FirstFrame(stream)
    case Stop(end) => Delivery([], end)
    case Whole(n) =>
      var rest := Deliver(stream[n..]);
      Delivery(MessagesOf(stream[..n]) + rest.messages, rest.end)
  }

  // ---------------------------------------------------------------------------------------------
  // The code
  // ---------------------------------------------------------------------------------------------

  /** Receives into the buffer from index `at` on. */
  function Place(buffer: seq<uint8>, at: nat, data: seq<uint8>): (r: seq<uint8>)
    requires at + |data| <= |buffer|
    ensures |r| == |buffer|
    ensures r[..at] == buffer[..at] && r[at..at + |data|] == data
  {
    buffer[..at] + data + buffer[at + |data|..]
  }

  /** The header's fields depend on the first eight bytes only. */
  lemma HeaderAlone(a: seq<uint8>, b: seq<uint8>)
    requires |a| >= HEADER_SIZE && |b| >= HEADER_SIZE && a[..HEADER_SIZE] == b[..HEADER_SIZE]
    ensures LengthField(a) == LengthField(b)
  {
    assert forall i :: 0 <= i < HEADER_SIZE ==> a[i] == a[..HEADER_SIZE][i] && b[i] == b[..HEADER_SIZE][i];
  }

  /** The size of the buffer for a payload: grown if need be, by a sum of 32 bits. */
  function BufferSize(size: nat, length: uint32): nat
    requires size >= HEADER_SIZE
  {
    if length > size - HEADER_SIZE then FrameSize(length) else size
  }

  /** A buffer that any frames before have left holds the next one exactly if its length does not make the sum wrap. */
  lemma BufferHoldsFrameExactlyWhen(size: nat, length: uint32)
    requires HEADER_SIZE <= size < W32
    ensures BufferSize(size, length) >= HEADER_SIZE + length <==> length < LENGTH_LIMIT
    ensures length < LENGTH_LIMIT ==> HEADER_SIZE <= BufferSize(size, length) < W32
  {
    FrameSizeExact(length);
  }

  /** `vector::resize` to at least the size before. */
  function Grown(buffer: seq<uint8>, size: nat): (r: seq<uint8>)
    requires size >= |buffer|
    ensures |r| == size && r[..|buffer|] == buffer
  {
    buffer + seq(size - |buffer|, i => 0)
  }

  /** What frames before can have left the buffer as. */
  type Buffer = b: seq<uint8> | HEADER_SIZE <= |b| < W32 witness [0, 0, 0, 0, 0, 0, 0, 0]

  /** One turn of the loop: header, then the buffer is grown, then payload. */
  method ReceiveFrame(todo: seq<uint8>, previous: Buffer) returns (cut: Cut, buffer: Buffer)
    ensures cut == FirstFrame(todo)
    ensures cut.Whole? ==> |buffer| >= cut.size && buffer[..cut.size] == todo[..cut.size]
  {
    buffer := previous;
    if |todo| == 0 { return Stop(Closed), buffer; }
    if |todo| < HEADER_SIZE { return Stop(PartialHeader), buffer; }
    buffer := Place(buffer, 0, todo[..HEADER_SIZE]);
    HeaderAlone(buffer, todo);
    var length := LengthField(buffer);
    BufferHoldsFrameExactlyWhen(|buffer|, length);
    var size := BufferSize(|buffer|, length);
    if size < HEADER_SIZE + length { return Stop(Overflow), buffer; }
    ghost var header := buffer[..HEADER_SIZE];
    buffer := Grown(buffer, size);
    assert buffer[..HEADER_SIZE] == header;
    if length > 0 {
      if |todo| - HEADER_SIZE < length { return Stop(PartialPayload), buffer; }
      buffer := Place(buffer, HEADER_SIZE, todo[HEADER_SIZE..HEADER_SIZE + length]);
    }
    var n := HEADER_SIZE + length;
    assert buffer[..n] == buffer[..HEADER_SIZE] + buffer[HEADER_SIZE..n];
    assert todo[..n] == todo[..HEADER_SIZE] + todo[HEADER_SIZE..n];
    return Whole(n), buffer;
  }

  /** `Deliver` as a value. */
  function Delivered(stream: seq<uint8>): Delivery { Deliver(stream) }

  function Append(messages: seq<Message>, d: Delivery): Delivery { Delivery(messages + d.messages, d.end) }

  /** From byte `i` to byte `j` of the stream, `messages` are handed on. */
  ghost predicate Yields(
      deliver: seq<uint8> -> Delivery, stream: seq<uint8>, i: nat, j: nat, messages: seq<Message>) {
    i <= j <= |stream| && deliver(stream[i..]) == Append(messages, deliver(stream[j..]))
  }

  lemma YieldsOnward(
      deliver: seq<uint8> -> Delivery, stream: seq<uint8>, i: nat, j: nat, k: nat,
      before: seq<Message>, m: seq<Message>, after: seq<Message>)
    requires Yields(deliver, stream, i, j, before) && Yields(deliver, stream, j, k, m) && after == before + m
    ensures Yields(deliver, stream, i, k, after)
  {
    Regroup(before, m, deliver(stream[k..]).messages);
  }

  /** The loop ends, or receives a frame, when `at` bytes have been received. */
  ghost predicate StopsAt(stream: seq<uint8>, at: nat, end: End) {
    at <= |stream| && FirstFrame(stream[at..]) == Stop(end)
  }

  ghost predicate FrameAt(stream: seq<uint8>, at: nat, frame: seq<uint8>) {
    && at + |frame| <= |stream| && frame == stream[at..at + |frame|] && frame != []
    && FirstFrame(stream[at..]) == Whole(|frame|)
  }

  lemma DeliverFrame(stream: seq<uint8>, at: nat, frame: seq<uint8>)
    requires FrameAt(stream, at, frame)
    ensures Yields(Delivered, stream, at, at + |frame|, MessagesOf(frame))
  {
    assert stream[at..][|frame|..] == stream[at + |frame|..] && stream[at..][..|frame|] == frame;
  }

  lemma DeliverStop(stream: seq<uint8>, at: nat, messages: seq<Message>, end: End)
    requires Yields(Delivered, stream, 0, at, messages) && StopsAt(stream, at, end)
    ensures Deliver(stream) == Delivery(messages, end)
  {
    assert stream[0..] == stream;
  }

  lemma DeliverStart(stream: seq<uint8>)
    ensures Yields(Delivered, stream, 0, 0, [])
  {
  }

  /** Receives the next frame, or finds out why there is none. */
  method NextFrame(stream: seq<uint8>, at: nat, previous: Buffer)
    returns (stop: bool, end: End, frame: seq<uint8>, buffer: Buffer)
    requires at <= |stream|
    ensures if stop then StopsAt(stream, at, end) else FrameAt(stream, at, frame)
  {
    var cut;
    cut, buffer := ReceiveFrame(stream[at..], previous);
    if cut.Stop? { return true, cut.end, [], buffer; }
    return false, Closed, buffer[..cut.size], buffer;
  }

  method ClientHandler(stream: seq<uint8>) returns (messages: seq<Message>, end: End)
    ensures Delivery(messages, end) == Deliver(stream)
  {
    var buffer: Buffer := seq(8192, i => 0);
    var at := 0;
    messages := [];
    DeliverStart(stream);
    while true
      invariant 0 <= at <= |stream|
      invariant Yields(Delivered, stream, 0, at, messages)
      decreases |stream| - at
    {
      var stop, frame;
      stop, end, frame, buffer := NextFrame(stream, at, buffer);
      if stop {
        DeliverStop(stream, at, messages, end);
        return;
      }
      ghost var m;
      ghost var was, before := at, messages;
      messages, m := HandleFrame(stream, at, frame, messages);
      at := at + |frame|;
      YieldsOnward(Delivered, stream, 0, was, at, before, m, messages);
    }
  }

  /** A frame that does not parse is reported and skipped. */
  method HandleFrame(ghost stream: seq<uint8>, ghost at: nat, frame: seq<uint8>, before: seq<Message>)
    returns (messages: seq<Message>, ghost m: seq<Message>)
    requires FrameAt(stream, at, frame)
    ensures messages == before + m && Yields(Delivered, stream, at, at + |frame|, m)
  {
    var decoded := FromBytes(frame);
    m := MessagesOf(frame);
    if decoded.Decoded? {
      messages := before + [decoded.message];
    } else {
      messages := before;
    }
    DeliverFrame(stream, at, frame);
  }

  // ---------------------------------------------------------------------------------------------
  // Framing is recovered
  // ---------------------------------------------------------------------------------------------

  function Stream(messages: seq<Message>): seq<uint8>
    requires forall m :: m in messages ==> |m.payload| < LENGTH_LIMIT
  {
    if messages == [] then [] else Frame(messages[0]) + Stream(messages[1..])
  }

  /** A header with any version bytes and a payload of the announced length. */
  datatype Raw = Raw(version: uint8, inverse: uint8, message: Message) {
    predicate Fits() { |message.payload| < LENGTH_LIMIT }

    function Bytes(): seq<uint8>
      requires Fits()
    {
      Header(version, inverse, message.payloadType, |message.payload|) + message.payload
    }

    /** What the server hands on of it. */
    function Accepted(): seq<Message> {
      if version == VERSION && inverse == INVERSE_VERSION then [message] else []
    }
  }

  function RawStream(raws: seq<Raw>): seq<uint8>
    requires forall r :: r in raws ==> r.Fits()
  {
    if raws == [] then [] else raws[0].Bytes() + RawStream(raws[1..])
  }

  function AllAccepted(raws: seq<Raw>): seq<Message> {
    if raws == [] then [] else raws[0].Accepted() + AllAccepted(raws[1..])
  }

  lemma FirstIsRaw(r: Raw, rest: seq<uint8>)
    requires r.Fits()
    ensures FirstFrame(r.Bytes() + rest) == Whole(HEADER_SIZE + |r.message.payload|)
    ensures FromBytes(r.Bytes()) == if r.Accepted() == [] then Rejected else Decoded(r.message)
  {
    var h := Header(r.version, r.inverse, r.message.payloadType, |r.message.payload|);
    assert r.Bytes() + rest == h + (r.message.payload + rest);
    HeaderFields(r.version, r.inverse, r.message.payloadType, |r.message.payload|, r.message.payload + rest);
    HeaderFields(r.version, r.inverse, r.message.payloadType, |r.message.payload|, r.message.payload);
    assert r.Bytes()[HEADER_SIZE..] == r.message.payload;
  }

  lemma DeliverRaw(r: Raw, rest: seq<uint8>)
    requires r.Fits()
    ensures Deliver(r.Bytes() + rest) == Delivery(r.Accepted() + Deliver(rest).messages, Deliver(rest).end)
  {
    FirstIsRaw(r, rest);
    var n := HEADER_SIZE + |r.message.payload|;
    assert (r.Bytes() + rest)[..n] == r.Bytes() && (r.Bytes() + rest)[n..] == rest;
  }

  /**
   * Recovery of frames. Any sequence of frames, of whatever version, is cut back into the same frames wherever it
   * stands in front: those of the right version are delivered in order, and the loop is in step with what follows.
   */
  lemma {:induction false} FramesRecovered(raws: seq<Raw>, rest: seq<uint8>)
    requires forall r :: r in raws ==> r.Fits()
    ensures Deliver(RawStream(raws) + rest) == Delivery(AllAccepted(raws) + Deliver(rest).messages, Deliver(rest).end)
  {
    if raws == [] {
      assert RawStream(raws) + rest == rest;
    } else {
      Regroup(raws[0].Bytes(), RawStream(raws[1..]), rest);
      DeliverRaw(raws[0], RawStream(raws[1..]) + rest);
      FramesRecovered(raws[1..], rest);
      Regroup(raws[0].Accepted(), AllAccepted(raws[1..]), Deliver(rest).messages);
    }
  }

  function Current(messages: seq<Message>): (raws: seq<Raw>)
    ensures |raws| == |messages|
  {
    seq(|messages|, i requires 0 <= i < |messages| => Raw(VERSION, INVERSE_VERSION, messages[i]))
  }

  lemma {:induction false} CurrentFrames(messages: seq<Message>)
    requires forall m :: m in messages ==> |m.payload| < LENGTH_LIMIT
    ensures forall r :: r in Current(messages) ==> r.Fits()
    ensures RawStream(Current(messages)) == Stream(messages) && AllAccepted(Current(messages)) == messages
  {
    if messages != [] {
      assert Current(messages)[1..] == Current(messages[1..]);
      CurrentFrames(messages[1..]);
      assert messages == [messages[0]] + messages[1..];
    }
  }

  /** Any list of messages, framed by the C encoder and concatenated, is received as that list. */
  lemma MessagesRecovered(messages: seq<Message>)
    requires forall m :: m in messages ==> |m.payload| < LENGTH_LIMIT
    ensures Deliver(Stream(messages)) == Delivery(messages, Closed)
  {
    CurrentFrames(messages);
    FramesRecovered(Current(messages), []);
    assert Stream(messages) + [] == Stream(messages);
    assert Deliver([]) == Delivery([], Closed);
  }

  /**
   * Nothing else is ever delivered: every stream is a sequence of frames, of which exactly the accepted messages were
   * handed on, and a rest that holds no whole frame.
   */
  lemma {:induction false} DeliveredIsFramed(stream: seq<uint8>) returns (raws: seq<Raw>, rest: seq<uint8>)
    ensures forall r :: r in raws ==> r.Fits()
    ensures stream == RawStream(raws) + rest && FirstFrame(rest).Stop?
    ensures Deliver(stream) == Delivery(AllAccepted(raws), FirstFrame(rest).end)
    decreases stream
  {
    if FirstFrame(stream).Stop? {
      raws, rest := [], stream;
    } else {
      var n := FirstFrame(stream).size;
      var first := RawAtFront(stream);
      var more;
      more, rest := DeliveredIsFramed(stream[n..]);
      raws := [first] + more;
      assert raws[1..] == more;
      DeliverRaw(first, stream[n..]);
      assert first.Bytes() + stream[n..] == stream;
      Regroup(first.Bytes(), RawStream(more), rest);
    }
  }

  /** Why the loop stops, from what is left: nothing, less than a header, or a header without all its payload. */
  lemma StopsExactlyWhen(rest: seq<uint8>)
    ensures FirstFrame(rest) == Stop(Closed) <==> rest == []
    ensures FirstFrame(rest) == Stop(PartialHeader) <==> 0 < |rest| < 8
    ensures FirstFrame(rest) == Stop(Overflow) <==> |rest| >= 8 && LengthField(rest) >= 0x1_0000_0000 - 8
    ensures FirstFrame(rest) == Stop(PartialPayload) <==>
              |rest| >= 8 && |rest| < 8 + LengthField(rest) < 0x1_0000_0000
  {
  }

  /** Whole frames, and then a header that announces 2^32 - 8 bytes or more. */
  ghost predicate Overruns(stream: seq<uint8>, raws: seq<Raw>, rest: seq<uint8>) {
    && (forall r :: r in raws ==> r.Fits())
    && stream == RawStream(raws) + rest
    && |rest| >= HEADER_SIZE && LengthField(rest) >= LENGTH_LIMIT
  }

  /** The loop leaves its buffer exactly on streams in which such a header comes up. */
  lemma OverflowExactlyWhen(stream: seq<uint8>)
    ensures Deliver(stream).end == Overflow <==> exists raws, rest :: Overruns(stream, raws, rest)
  {
    if Deliver(stream).end == Overflow {
      var raws, rest := DeliveredIsFramed(stream);
      assert Overruns(stream, raws, rest);
    }
    if raws, rest :| Overruns(stream, raws, rest) {
      FramesRecovered(raws, rest);
    }
  }

  lemma RawAtFront(stream: seq<uint8>) returns (r: Raw)
    requires FirstFrame(stream).Whole?
    ensures r.Fits() && r.Bytes() == stream[..FirstFrame(stream).size]
  {
    var n := FirstFrame(stream).size;
    r := Raw(stream[0], stream[1], Message(TypeField(stream), stream[HEADER_SIZE..n]));
    HeaderOfFields(stream);
    assert stream[..n] == stream[..HEADER_SIZE] + stream[HEADER_SIZE..n];
  }
}
