/**
 Peer wire messages (BEP 3, section "peer messages"): their encoding, a reader
 specified on the byte stream alone, and the send and receive loops over a socket
 that delivers and accepts bytes in arbitrary pieces.
 */
module WireFraming {
  import opened ByteStrings
  import opened Faults

  const CHOKE: Byte := 0
  const UNCHOKE: Byte := 1
  const INTERESTED: Byte := 2
  const NOT_INTERESTED: Byte := 3
  const HAVE: Byte := 4
  const BITFIELD: Byte := 5
  const REQUEST: Byte := 6
  const PIECE: Byte := 7
  const CANCEL: Byte := 8
  const INVALID_ID: Byte := 9

  const MAX_PAYLOAD_LENGTH: nat := 1048576
  const REQUEST_MESSAGE_LENGTH: nat := 17

  datatype Message = KeepAlive | Message(id: Byte, payload: Bytes)

  predicate IsPayloadLength(length: nat, id: Byte) {
    if id <= NOT_INTERESTED then length == 0
    else if id == HAVE then length == 4
    else if id == REQUEST || id == CANCEL then length == 12
    else if id == PIECE then 8 <= length <= 16392
    else id == BITFIELD
  }

  predicate IsMessage(m: Message) {
    m.Message? ==>
      && m.id < INVALID_ID
      && |m.payload| <= MAX_PAYLOAD_LENGTH
      && IsPayloadLength(|m.payload|, m.id)
  }

  // ----- 32-bit integers in network byte order -----

  function BigEndian(v: nat): (r: Bytes)
    requires v <= UINT32_MAX
    ensures |r| == 4
  {
    assert v / 0x100_0000 < 256;
    [v / 0x100_0000, v / 0x1_0000 % 256, v / 0x100 % 256, v % 256]
  }

  function Value32(b: Bytes): (v: nat)
    requires |b| == 4
    ensures v <= UINT32_MAX
  {
    (b[0] as int) * 0x100_0000 + (b[1] as int) * 0x1_0000 + (b[2] as int) * 0x100 + b[3] as int
  }

  lemma {:induction false} Shifts(v: nat)
    ensures v / 0x1_0000 == v / 0x100 / 0x100 && v / 0x100_0000 == v / 0x1_0000 / 0x100
  {
  }

  lemma {:induction false} BigEndianValue(v: nat)
    requires v <= UINT32_MAX
    ensures Value32(BigEndian(v)) == v
  {
    Shifts(v);
    var high, middle := v / 0x1_0000, v / 0x100;
    assert v == 0x100 * middle + v % 0x100 && middle == 0x100 * high + middle % 0x100;
    assert high == 0x100 * (v / 0x100_0000) + high % 0x100;
  }

  lemma {:induction false} ValueBigEndian(b: Bytes)
    requires |b| == 4
    ensures BigEndian(Value32(b)) == b
  {
    var v := Value32(b);
    Shifts(v);
    var middle := (b[0] as int) * 0x1_0000 + (b[1] as int) * 0x100 + b[2] as int;
    assert v == 0x100 * middle + b[3] as int;
    assert v / 0x100 == middle && v % 0x100 == b[3] as int;
    var high := (b[0] as int) * 0x100 + b[1] as int;
    assert middle == 0x100 * high + b[2] as int;
    assert middle / 0x100 == high && middle % 0x100 == b[2] as int;
    assert high / 0x100 == b[0] as int && high % 0x100 == b[1] as int;
  }

  // ----- encoding and decoding on the byte stream -----

  function Encode(m: Message): Bytes
    requires IsMessage(m)
  {
    match m
    case KeepAlive => BigEndian(0)
    case Message(id, payload) => BigEndian(1 + |payload|) + [id] + payload
  }

  datatype Decoded = Undecodable | Decoded(message: Message, rest: Bytes)

  /** The first message of a stream, or Undecodable if the stream is cut short or not well formed there. */
  function Decode(stream: Bytes): Decoded {
    if |stream| < 4 then Undecodable else DecodeBody(Value32(stream[..4]), stream[4..])
  }

  function DecodeBody(prefix: nat, stream: Bytes): Decoded {
    if prefix == 0 then Decoded(KeepAlive, stream)
    else if |stream| < 1 || stream[0] >= INVALID_ID then Undecodable
    else DecodePayload(prefix - 1, stream[0], stream[1..])
  }

  function DecodePayload(length: nat, id: Byte, stream: Bytes): Decoded {
    if length > MAX_PAYLOAD_LENGTH || !IsPayloadLength(length, id) || |stream| < length then Undecodable
    else Decoded(Message(id, stream[..length]), stream[length..])
  }

  lemma {:induction false} DecodeEncoded(m: Message, rest: Bytes)
    requires IsMessage(m)
    ensures Decode(Encode(m) + rest) == Decoded(m, rest)
  {
    hide BigEndian, Value32;
    var stream := Encode(m) + rest;
    match m {
      case KeepAlive =>
        BigEndianValue(0);
        assert stream[..4] == BigEndian(0) && stream[4..] == rest;
      case Message(id, payload) =>
        BigEndianValue(1 + |payload|);
        assert stream[..4] == BigEndian(1 + |payload|) && stream[4..] == [id] + (payload + rest);
        assert stream[4..][1..] == payload + rest;
    }
  }

  /** Only the encoding of a valid message is ever accepted. */
  lemma {:induction false} DecodedIsEncoded(stream: Bytes)
    requires Decode(stream).Decoded?
    ensures IsMessage(Decode(stream).message)
    ensures stream == Encode(Decode(stream).message) + Decode(stream).rest
    ensures |Decode(stream).rest| < |stream|
  {
    hide BigEndian, Value32;
    ValueBigEndian(stream[..4]);
    var m, rest := Decode(stream).message, Decode(stream).rest;
    match m {
      case KeepAlive =>
        assert stream == stream[..4] + rest;
      case Message(id, payload) =>
        assert stream[4..][1..] == payload + rest;
        assert stream == stream[..4] + [id] + payload + rest;
    }
  }

  function EncodeAll(ms: seq<Message>): Bytes
    requires forall m | m in ms :: IsMessage(m)
  {
    if ms == [] then [] else Encode(ms[0]) + EncodeAll(ms[1..])
  }

  /** The messages a stream is read as, up to the point where reading fails. */
  function DecodeAll(stream: Bytes): seq<Message>
    decreases |stream|
  {
    var d := Decode(stream);
    if d.Undecodable? then []
    else
      DecodedIsEncoded(stream);
      [d.message] + DecodeAll(d.rest)
  }

  /** The bytes where reading fails: nothing, a message cut short, or something that is not a message. */
  function Leftover(stream: Bytes): Bytes
    decreases |stream|
  {
    var d := Decode(stream);
    if d.Undecodable? then stream
    else
      DecodedIsEncoded(stream);
      Leftover(d.rest)
  }

  lemma {:induction false} DecodeStep(stream: Bytes)
    requires Decode(stream).Decoded?
    ensures IsMessage(Decode(stream).message) && |Decode(stream).rest| < |stream|
    ensures DecodeAll(stream) == [Decode(stream).message] + DecodeAll(Decode(stream).rest)
    ensures Leftover(stream) == Leftover(Decode(stream).rest)
  {
    hide Decode;
    DecodedIsEncoded(stream);
  }

  lemma {:induction false} EncodeAllStep(ms: seq<Message>, rest: Bytes)
    requires forall m | m in ms :: IsMessage(m)
    ensures ms == [] ==> EncodeAll(ms) + rest == rest
    ensures ms != [] ==>
              && (forall m | m in ms[1..] :: IsMessage(m))
              && EncodeAll(ms) + rest == Encode(ms[0]) + (EncodeAll(ms[1..]) + rest)
  {
    hide Encode, IsMessage;
    assert ms != [] ==> forall m | m in ms[1..] :: m in ms;
  }

  /** After a concatenation of valid messages, read back as those messages, reading goes on with what follows. */
  lemma {:induction false} DecodeAllConcat(ms: seq<Message>, rest: Bytes)
    requires forall m | m in ms :: IsMessage(m)
    ensures DecodeAll(EncodeAll(ms) + rest) == ms + DecodeAll(rest)
    ensures Leftover(EncodeAll(ms) + rest) == Leftover(rest)
  {
    hide Decode, Encode, EncodeAll, DecodeAll, Leftover, IsMessage;
    EncodeAllStep(ms, rest);
    if ms != [] {
      DecodeEncoded(ms[0], EncodeAll(ms[1..]) + rest);
      DecodeStep(EncodeAll(ms) + rest);
      DecodeAllConcat(ms[1..], rest);
    }
  }

  /** A concatenation of valid messages is read back as those messages, with nothing left over. */
  lemma {:induction false} DecodeAllEncoded(ms: seq<Message>)
    requires forall m | m in ms :: IsMessage(m)
    ensures DecodeAll(EncodeAll(ms)) == ms && Leftover(EncodeAll(ms)) == []
  {
    hide Decode, EncodeAll, IsMessage;
    NothingToDecode();
    DecodeAllConcat(ms, []);
    assert EncodeAll(ms) + [] == EncodeAll(ms);
  }

  lemma {:induction false} NothingToDecode()
    ensures Decode([]).Undecodable?
  {
  }

  /** Every stream is the encodings of the messages read from it, followed by what is left over. */
  lemma {:induction false} StreamIsMessagesAndLeftover(stream: Bytes)
    ensures forall m | m in DecodeAll(stream) :: IsMessage(m)
    ensures stream == EncodeAll(DecodeAll(stream)) + Leftover(stream)
    ensures Decode(Leftover(stream)).Undecodable?
    decreases |stream|
  {
    hide Decode, Encode;
    if Decode(stream).Decoded? {
      DecodedIsEncoded(stream);
      StreamIsMessagesAndLeftover(Decode(stream).rest);
    }
  }

  // ----- the socket -----

  // What one recv call does: some of the bytes arrive, or a signal interrupts it.
  datatype Arrival = Arriving(most: nat) | ArrivalInterrupted

  // What recv reports once everything has arrived: the peer closed the connection, or it failed.
  datatype Ending = Shutdown | Failure

  // What one send call does.
  datatype Tick = Ready(most: nat) | Interrupted | Broken

  datatype Received = Chunk(bytes: Bytes) | EndOfStream | ReceiveInterrupted | ReceiveFailed

  datatype Sent = Accepted(count: nat) | SendInterrupted | SendFailed

  /** Some send call will fail, or accept nothing, which the program takes for a failure. */
  predicate Stalls(departures: seq<Tick>) {
    departures != [] &&
    match departures[0]
    case Interrupted => Stalls(departures[1..])
    case Broken => true
    case Ready(most) => most == 0 || Stalls(departures[1..])
  }

  /** How many send calls accept something before that; each accepts at least one byte. */
  function GoodTicks(departures: seq<Tick>): nat {
    if departures == [] then 0
    else
      match departures[0]
      case Interrupted => GoodTicks(departures[1..])
      case Broken => 0
      case Ready(most) => if most == 0 then 0 else 1 + GoodTicks(departures[1..])
  }

  /** So many bytes can be sent, in whatever portions, before a send call can fail. */
  predicate Carries(departures: seq<Tick>, bytes: int) {
    Stalls(departures) ==> bytes <= GoodTicks(departures)
  }

  /** With so many bytes sent, the call may have come that fails. */
  predicate Blocked(departures: seq<Tick>, bytes: nat) {
    Stalls(departures) && GoodTicks(departures) <= bytes
  }

  /** What is left of the calls after so many bytes have been sent by them. */
  predicate Spent(before: seq<Tick>, after: seq<Tick>, bytes: nat) {
    (Stalls(after) ==> Stalls(before)) && GoodTicks(before) <= GoodTicks(after) + bytes
  }

  /** The calls made so far have sent so many bytes; if one of them failed, it was due. */
  predicate Sending(before: seq<Tick>, after: seq<Tick>, bytes: int, ok: bool) {
    bytes >= 0 && if ok then Spent(before, after, bytes) else Blocked(before, bytes)
  }

  lemma {:induction false} SendingNothing(departures: seq<Tick>)
    ensures Sending(departures, departures, 0, true)
  {
  }

  lemma {:induction false} SendingMore(first: seq<Tick>, second: seq<Tick>, third: seq<Tick>,
      bytes: int, more: int, ok: bool)
    requires Sending(first, second, bytes, true) && Sending(second, third, more, ok)
    ensures Sending(first, third, bytes + more, ok)
  {
  }

  class Socket {
    var incoming: Bytes            // bytes that recv will deliver before it reports the end or a failure
    var arrivals: seq<Arrival>     // what happens at the next recv calls; after that all that is asked for arrives
    const ending: Ending
    var outgoing: Bytes            // bytes that send has accepted
    var departures: seq<Tick>      // what happens at the next send calls; after that everything is accepted

    constructor (incoming: Bytes, arrivals: seq<Arrival>, ending: Ending, departures: seq<Tick>)
      ensures this.incoming == incoming && this.arrivals == arrivals && this.ending == ending
      ensures this.outgoing == [] && this.departures == departures
    {
      this.incoming, this.arrivals, this.ending := incoming, arrivals, ending;
      this.outgoing, this.departures := [], departures;
    }

    /** recv: at least one byte if any is left, and never more than asked for. */
    method Recv(most: nat) returns (r: Received)
      requires most > 0
      modifies this`arrivals, this`incoming
      ensures r.Chunk? ==> 0 < |r.bytes| <= most && old(incoming) == r.bytes + incoming
      ensures !r.Chunk? ==> incoming == old(incoming)
      ensures r.EndOfStream? || r.ReceiveFailed? ==> incoming == []
      ensures r.ReceiveInterrupted? ==> |arrivals| < |old(arrivals)|
      ensures |arrivals| <= |old(arrivals)|
    {
      var arrival := if arrivals == [] then Arriving(most) else arrivals[0];
      arrivals := if arrivals == [] then [] else arrivals[1..];
      match arrival
      case ArrivalInterrupted => return ReceiveInterrupted;
      case Arriving(k) =>
        if incoming == [] {
          return if ending.Shutdown? then EndOfStream else ReceiveFailed;
        }
        var count := if k == 0 then 1 else k;
        count := if count < most then count else most;
        count := if count < |incoming| then count else |incoming|;
        r := Chunk(incoming[..count]);
        incoming := incoming[count..];
    }

    /** send: some prefix of the bytes is accepted. */
    method Send(bytes: Bytes) returns (r: Sent)
      requires bytes != []
      modifies this`departures, this`outgoing
      ensures r.Accepted? ==> r.count <= |bytes| && outgoing == old(outgoing) + bytes[..r.count]
      ensures !r.Accepted? ==> outgoing == old(outgoing)
      ensures r.SendInterrupted? ==> |departures| < |old(departures)| && Spent(old(departures), departures, 0)
      ensures r.Accepted? && r.count > 0 ==> Spent(old(departures), departures, r.count)
      ensures r.SendFailed? || (r.Accepted? && r.count == 0) ==> Blocked(old(departures), 0)
    {
      var tick := if departures == [] then Ready(|bytes|) else departures[0];
      departures := if departures == [] then [] else departures[1..];
      match tick
      case Interrupted => return SendInterrupted;
      case Broken => return SendFailed;
      case Ready(k) =>
        var count := if k < |bytes| then k else |bytes|;
        outgoing := outgoing + bytes[..count];
        return Accepted(count);
    }
  }

  /** The receive loop: exactly length bytes, however they arrive; it fails exactly when fewer are left. */
  method ReceiveExactly(socket: Socket, length: nat) returns (r: Option<Bytes>)
    requires length > 0
    modifies socket`arrivals, socket`incoming
    ensures r.Some? <==> length <= |old(socket.incoming)|
    ensures r.Some? ==> |r.value| == length && old(socket.incoming) == r.value + socket.incoming
  {
    var buffer := new Byte[length](_ => 0);
    var total := 0;
    while total < length
      invariant 0 <= total <= length
      invariant old(socket.incoming) == buffer[..total] + socket.incoming
      decreases length - total, |socket.arrivals|
    {
      var received := socket.Recv(length - total);
      match received {
        case EndOfStream => return None;
        case ReceiveInterrupted => continue;
        case ReceiveFailed => return None;
        case Chunk(bytes) =>
          Store(buffer, total, bytes);
          total := total + |bytes|;
      }
    }
    return Some(buffer[..]);
  }

  /** One message from the socket; the payload buffer is allocated first, unless there is no payload. */
  method ReceiveMessage(socket: Socket, os: OperatingSystem) returns (r: Option<Message>)
    modifies socket`arrivals, socket`incoming, os
    ensures r.Some? ==> Decode(old(socket.incoming)) == Decoded(r.value, socket.incoming)
    ensures r.None? ==> os.Faults() < old(os.Faults()) || Decode(old(socket.incoming)).Undecodable?
    ensures os.Faults() <= old(os.Faults())
  {
    hide Value32, IsPayloadLength, FaultsIn;
    ghost var stream := socket.incoming;
    var prefix := ReceiveExactly(socket, 4);
    if prefix.None? {
      return None;
    }
    ghost var body := socket.incoming;
    assert stream[..4] == prefix.value && stream[4..] == body;
    var prefixLength := Value32(prefix.value);
    if prefixLength == 0 {
      return Some(KeepAlive);
    }
    var idBuffer := ReceiveExactly(socket, 1);
    if idBuffer.None? {
      return None;
    }
    var id := idBuffer.value[0];
    ghost var tail := socket.incoming;
    assert body[0] == id && body[1..] == tail;
    if id >= INVALID_ID {
      return None;
    }
    var payloadLength := prefixLength - 1;
    if payloadLength > MAX_PAYLOAD_LENGTH || !IsPayloadLength(payloadLength, id) {
      return None;
    }
    if payloadLength == 0 {
      assert tail[..0] == [] && tail[0..] == tail;
      return Some(Message(id, []));
    }
    var memory := os.Ask();
    if !memory.Granted? {
      return None;
    }
    var payload := ReceiveExactly(socket, payloadLength);
    if payload.None? {
      return None;
    }
    assert tail[..payloadLength] == payload.value && tail[payloadLength..] == socket.incoming;
    return Some(Message(id, payload.value));
  }

  /** The send loop: everything, in however many pieces, or failure after only some of it when a call fails. */
  method SendAll(socket: Socket, buffer: Bytes) returns (ok: bool, ghost sent: nat)
    modifies socket`departures, socket`outgoing
    ensures sent <= |buffer| && socket.outgoing == old(socket.outgoing) + buffer[..sent]
    ensures ok <==> sent == |buffer|
    ensures Sending(old(socket.departures), socket.departures, sent, ok)
  {
    hide Stalls, GoodTicks;
    var total := 0;
    sent := 0;
    assert buffer[..0] == [];
    while total < |buffer|
      invariant 0 <= total == sent <= |buffer|
      invariant socket.outgoing == old(socket.outgoing) + buffer[..total]
      invariant Spent(old(socket.departures), socket.departures, total)
      decreases |buffer| - total, |socket.departures|
    {
      var answer := socket.Send(buffer[total..]);
      match answer {
        case SendInterrupted => continue;
        case SendFailed => return false, sent;
        case Accepted(count) =>
          assert buffer[..total] + buffer[total..][..count] == buffer[..total + count];
          total := total + count;
          sent := total;
          if count == 0 {
            return false, sent;
          }
      }
    }
    return true, sent;
  }

  // ----- outgoing messages -----

  method AppendUint32(buffer: array<Byte>, offset: nat, value: nat) returns (ok: bool, newOffset: nat)
    requires value <= UINT32_MAX
    modifies buffer
    ensures ok <==> offset + 4 <= buffer.Length
    ensures ok ==> newOffset == offset + 4
    ensures ok ==> buffer[..newOffset] == old(buffer[..offset]) + BigEndian(value)
    ensures ok ==> buffer[newOffset..] == old(buffer[offset + 4..])
    ensures !ok ==> newOffset == offset && buffer[..] == old(buffer[..])
  {
    if offset > buffer.Length {
      return false, offset;
    }
    if buffer.Length - offset < 4 {
      return false, offset;
    }
    var bytes := BigEndian(value);
    buffer[offset], buffer[offset + 1] := bytes[0], bytes[1];
    buffer[offset + 2], buffer[offset + 3] := bytes[2], bytes[3];
    return true, offset + 4;
  }

  function RequestMessage(index: nat, begin: nat, length: nat): (m: Message)
    requires index <= UINT32_MAX && begin <= UINT32_MAX && length <= UINT32_MAX
    ensures IsMessage(m)
  {
    Message(REQUEST, BigEndian(index) + BigEndian(begin) + BigEndian(length))
  }

  const INTERESTED_MESSAGE := Message(INTERESTED, [])

  /** A message this program sends. */
  predicate IsOurs(m: Message) {
    IsMessage(m) && m.Message? && (m.id == INTERESTED || m.id == REQUEST)
  }

  /** Nothing, or the beginning of one of our messages, whose sending failed. */
  ghost predicate IsCut(tail: Bytes) {
    exists m :: IsOurs(m) && tail < Encode(m)
  }

  lemma {:induction false} NothingIsCut()
    ensures IsCut([])
  {
    assert IsOurs(INTERESTED_MESSAGE) && [] < Encode(INTERESTED_MESSAGE);
  }

  lemma {:induction false} CutIsShort(tail: Bytes)
    requires IsCut(tail)
    ensures |tail| < REQUEST_MESSAGE_LENGTH
  {
    hide BigEndian;
    var m :| IsOurs(m) && tail < Encode(m);
  }

  /** The whole message, or only the given beginning of it. */
  ghost predicate SentOrCut(m: Message, before: Bytes, after: Bytes, ok: bool, tail: Bytes) {
    && IsMessage(m) && IsCut(tail)
    && if ok then tail == [] && after == before + Encode(m) else tail < Encode(m) && after == before + tail
  }

  lemma {:induction false} CutAfter(m: Message, before: Bytes, after: Bytes, sent: nat)
    requires IsOurs(m) && sent <= |Encode(m)| && after == before + Encode(m)[..sent]
    ensures var ok := sent == |Encode(m)|;
            SentOrCut(m, before, after, ok, if ok then [] else Encode(m)[..sent])
  {
    NothingIsCut();
    assert sent < |Encode(m)| ==> Encode(m)[..sent] < Encode(m);
    assert sent == |Encode(m)| ==> Encode(m)[..sent] == Encode(m);
  }

  /** Whatever the send schedule, success puts exactly the 17 bytes of the request on the wire, failure fewer. */
  method SendRequest(socket: Socket, index: nat, begin: nat, length: nat) returns (ok: bool, ghost tail: Bytes)
    requires index <= UINT32_MAX && begin <= UINT32_MAX && length <= UINT32_MAX
    modifies socket`departures, socket`outgoing
    ensures SentOrCut(RequestMessage(index, begin, length), old(socket.outgoing), socket.outgoing, ok, tail)
    ensures Sending(old(socket.departures), socket.departures, |socket.outgoing| - |old(socket.outgoing)|, ok)
  {
    hide BigEndian, SentOrCut, Sending;
    ok, tail := false, [];
    ghost var m := RequestMessage(index, begin, length);
    var buffer := new Byte[REQUEST_MESSAGE_LENGTH](_ => 0);
    var appended, offset := AppendUint32(buffer, 0, 13);
    if !appended {
      return;
    }
    buffer[offset] := REQUEST;
    offset := offset + 1;
    assert buffer[..5] == BigEndian(13) + [REQUEST];
    appended, offset := AppendUint32(buffer, offset, index);
    if !appended {
      return;
    }
    assert buffer[..9] == BigEndian(13) + [REQUEST] + BigEndian(index);
    appended, offset := AppendUint32(buffer, offset, begin);
    if !appended {
      return;
    }
    assert buffer[..13] == BigEndian(13) + [REQUEST] + BigEndian(index) + BigEndian(begin);
    appended, offset := AppendUint32(buffer, offset, length);
    if !appended {
      return;
    }
    if offset != REQUEST_MESSAGE_LENGTH {
      return;
    }
    assert buffer[..] == buffer[..offset] == Encode(RequestMessage(index, begin, length));
    ghost var sent;
    ok, sent := SendAll(socket, buffer[..]);
    tail := if ok then [] else Encode(m)[..sent];
    CutAfter(m, old(socket.outgoing), socket.outgoing, sent);
  }

  method SendInterested(socket: Socket) returns (ok: bool, ghost tail: Bytes)
    modifies socket`departures, socket`outgoing
    ensures SentOrCut(INTERESTED_MESSAGE, old(socket.outgoing), socket.outgoing, ok, tail)
    ensures Sending(old(socket.departures), socket.departures, |socket.outgoing| - |old(socket.outgoing)|, ok)
  {
    hide SentOrCut, Sending, BigEndian;
    var buffer := new Byte[5](_ => 0);
    ok, tail := false, [];
    var written, _ := AppendUint32(buffer, 0, 1);
    if !written {
      return;
    }
    buffer[4] := INTERESTED;
    assert buffer[..4] == [] + BigEndian(1) == BigEndian(1);
    assert buffer[..] == BigEndian(1) + [INTERESTED] + [] == Encode(INTERESTED_MESSAGE);
    ghost var sent;
    ok, sent := SendAll(socket, buffer[..]);
    tail := if ok then [] else Encode(INTERESTED_MESSAGE)[..sent];
    CutAfter(INTERESTED_MESSAGE, old(socket.outgoing), socket.outgoing, sent);
  }

  /** The reader decodes the bytes of a request to the three numbers that were put in. */
  lemma {:induction false} RequestRoundTrip(index: nat, begin: nat, length: nat, rest: Bytes)
    requires index <= UINT32_MAX && begin <= UINT32_MAX && length <= UINT32_MAX
    ensures var d := Decode(Encode(RequestMessage(index, begin, length)) + rest);
            && d.Decoded? && d.rest == rest && d.message.Message? && d.message.id == REQUEST
            && |d.message.payload| == 12
            && Value32(d.message.payload[..4]) == index
            && Value32(d.message.payload[4..8]) == begin
            && Value32(d.message.payload[8..]) == length
    ensures |Encode(RequestMessage(index, begin, length))| == REQUEST_MESSAGE_LENGTH
  {
    hide BigEndian, Value32, Decode;
    var m := RequestMessage(index, begin, length);
    DecodeEncoded(m, rest);
    BigEndianValue(index);
    BigEndianValue(begin);
    BigEndianValue(length);
    assert m.payload[..4] == BigEndian(index);
    assert m.payload[4..8] == BigEndian(begin);
    assert m.payload[8..] == BigEndian(length);
  }
}
