/** libvirt RPC messages on a byte stream: a length word that counts itself, a 24-byte header, a body. */
module Framing {
  import opened Basics
  import opened Xdr
  import opened XdrCodec

  const HEADER_SIZE := 24

  const MAX_MESSAGE_SIZE := 4 * 1024 * 1024

  datatype Header = Header(program: uint32, version: uint32, procedure: int32, kind: int32, serial: uint32, status: int32)

  datatype Message = Message(header: Header, body: seq<byte>)

  function EncodeHeader(h: Header): (b: seq<byte>)
    ensures |b| == HEADER_SIZE
  {
    Put32(h.program) + Put32(h.version) + Put32(h.procedure) + Put32(h.kind) + Put32(h.serial) + Put32(h.status)
  }

  function DecodeHeader(b: seq<byte>): Header
    requires |b| == HEADER_SIZE
  {
    Header(Get32(b[0..4]), Get32(b[4..8]), Signed32(Get32(b[8..12])), Signed32(Get32(b[12..16])),
           Get32(b[16..20]), Signed32(Get32(b[20..24])))
  }

  /** The bytes written for a message; the length word wraps at 2^32. */
  function FrameOf(m: Message): seq<byte>
  {
    Put32(4 + HEADER_SIZE + |m.body|) + EncodeHeader(m.header) + m.body
  }

  datatype Received = Received(message: Message, rest: seq<byte>) | EndOfStream | TooShort | TooLarge

  /** The next message on a stream, and what follows it. */
  function ReadFrame(stream: seq<byte>): (r: Received)
    ensures r.Received? ==> |r.rest| + 28 <= |stream|
  {
    if |stream| < 4 then EndOfStream
    else
      var total := Get32(stream[..4]);
      if total < 4 + HEADER_SIZE then TooShort
      else if total > MAX_MESSAGE_SIZE then TooLarge
      else if |stream| < total then EndOfStream
      else Received(Message(DecodeHeader(stream[4..28]), stream[28..total]), stream[total..])
  }

  lemma {:induction false} HeaderParts(h: Header)
    ensures
      var b := EncodeHeader(h);
      && b[0..4] == Put32(h.program) && b[4..8] == Put32(h.version) && b[8..12] == Put32(h.procedure)
      && b[12..16] == Put32(h.kind) && b[16..20] == Put32(h.serial) && b[20..24] == Put32(h.status)
  {
    hide Put32;
  }

  lemma {:induction false} HeaderRoundTrip(h: Header)
    ensures DecodeHeader(EncodeHeader(h)) == h
  {
    hide Put32, Get32, EncodeHeader, Signed32;
    HeaderParts(h);
    Get32Put32(h.program);
    Get32Put32(h.version);
    Get32Put32(h.procedure);
    Get32Put32(h.kind);
    Get32Put32(h.serial);
    Get32Put32(h.status);
    SignedBack32(h.procedure);
    SignedBack32(h.kind);
    SignedBack32(h.status);
  }

  /** Any 24 bytes are the encoding of the header they decode to. */
  lemma {:induction false} HeaderBack(b: seq<byte>)
    requires |b| == HEADER_SIZE
    ensures EncodeHeader(DecodeHeader(b)) == b
  {
    hide Put32, Get32, Signed32;
    Put32Get32(b[0..4]);
    Put32Get32(b[4..8]);
    Put32Get32(b[8..12]);
    Put32Get32(b[12..16]);
    Put32Get32(b[16..20]);
    Put32Get32(b[20..24]);
    PutSigned32(Get32(b[8..12]));
    PutSigned32(Get32(b[12..16]));
    PutSigned32(Get32(b[20..24]));
    assert b == b[0..4] + b[4..8] + b[8..12] + b[12..16] + b[16..20] + b[20..24];
  }

  lemma {:induction false} FrameParts(m: Message, rest: seq<byte>)
    ensures
      var stream := FrameOf(m) + rest;
      && |stream| == 28 + |m.body| + |rest|
      && stream[..4] == Put32(4 + HEADER_SIZE + |m.body|)
      && stream[4..28] == EncodeHeader(m.header)
      && stream[28..28 + |m.body|] == m.body
      && stream[28 + |m.body|..] == rest
  {
    hide Put32, EncodeHeader;
  }

  /** A message is read back as it was written, with the stream left just behind it, if and only if its
      body is at most 4 MiB less 28 bytes. */
  lemma {:induction false} FrameRoundTripIff(m: Message, rest: seq<byte>)
    ensures ReadFrame(FrameOf(m) + rest) == Received(m, rest) <==> |m.body| <= 4194304 - 28
  {
    var stream := FrameOf(m) + rest;
    FrameParts(m, rest);
    Get32Put32(4 + HEADER_SIZE + |m.body|);
    HeaderRoundTrip(m.header);
    hide Put32, Get32, EncodeHeader, DecodeHeader, FrameOf;
    var total := (28 + |m.body|) % 0x1_0000_0000;
    assert Get32(stream[..4]) == total;
    if |m.body| <= MAX_MESSAGE_SIZE - 28 {
      assert total == 28 + |m.body|;
    }
  }

  /** The frames of a list of messages, one after the other. */
  function FramesOf(ms: seq<Message>): seq<byte>
  {
    if ms == [] then [] else FrameOf(ms[0]) + FramesOf(ms[1..])
  }

  /** All messages on a stream up to its end, or nothing if it does not end between two messages. */
  function ReadFrames(stream: seq<byte>): Option<seq<Message>>
    decreases |stream|
  {
    if stream == [] then Some([])
    else
      match ReadFrame(stream)
      case Received(m, rest) =>
        var ms := ReadFrames(rest);
        if ms.None? then None else Some([m] + ms.value)
      case _ => None
  }

  /** Framing round trip: any concatenation of frames within the size limit parses back to the same
      sequence of messages. */
  lemma {:induction false} FramingRoundTrip(ms: seq<Message>)
    requires forall m :: m in ms ==> |m.body| <= MAX_MESSAGE_SIZE - 28
    ensures ReadFrames(FramesOf(ms)) == Some(ms)
  {
    hide FrameOf, ReadFrame;
    if ms != [] {
      FrameRoundTripIff(ms[0], FramesOf(ms[1..]));
      FramingRoundTrip(ms[1..]);
      FrameNotEmpty(ms[0]);
      assert ms == [ms[0]] + ms[1..];
    }
  }

  /** What is read off a stream as a message is the frame of that message. */
  lemma {:induction false} FrameBack(stream: seq<byte>)
    requires ReadFrame(stream).Received?
    ensures
      var r := ReadFrame(stream);
      stream == FrameOf(r.message) + r.rest && |r.message.body| <= MAX_MESSAGE_SIZE - 28
  {
    hide Put32, Get32, EncodeHeader, DecodeHeader;
    var total := Get32(stream[..4]);
    Put32Get32(stream[..4]);
    HeaderBack(stream[4..28]);
    assert stream == stream[..4] + stream[4..28] + stream[28..total] + stream[total..];
  }

  lemma {:induction false} FramesBack(stream: seq<byte>, ms: seq<Message>)
    requires ReadFrames(stream) == Some(ms)
    ensures stream == FramesOf(ms) && forall m :: m in ms ==> |m.body| <= MAX_MESSAGE_SIZE - 28
    decreases |stream|
  {
    hide FrameOf, ReadFrame;
    if stream != [] {
      var r := ReadFrame(stream);
      FrameBack(stream);
      FramesBack(r.rest, ms[1..]);
      assert ms == [r.message] + ms[1..];
    }
  }

  /** Framing, exactly: a stream parses into a list of messages if and only if it is the concatenation of their
      frames and none of them is too large. */
  lemma {:induction false} FramingIff(stream: seq<byte>, ms: seq<Message>)
    ensures ReadFrames(stream) == Some(ms) <==>
            stream == FramesOf(ms) && forall m :: m in ms ==> |m.body| <= 4194304 - 28
  {
    hide ReadFrames, FramesOf;
    if ReadFrames(stream) == Some(ms) {
      FramesBack(stream, ms);
    }
    if forall m :: m in ms ==> |m.body| <= MAX_MESSAGE_SIZE - 28 {
      FramingRoundTrip(ms);
    }
  }

  /** Where everything stands in a frame: the length of the whole, six header words in this order, the body. */
  lemma {:induction false} FrameLayout(m: Message)
    ensures
      var b := FrameOf(m);
      && |b| == 28 + |m.body|
      && b[0..4] == Put32(28 + |m.body|) && b[4..8] == Put32(m.header.program) && b[8..12] == Put32(m.header.version)
      && b[12..16] == Put32(m.header.procedure) && b[16..20] == Put32(m.header.kind)
      && b[20..24] == Put32(m.header.serial) && b[24..28] == Put32(m.header.status) && b[28..] == m.body
  {
    hide Put32;
  }

  /** What makes a read fail: fewer than four bytes, a length below 28 or above 4 MiB, or a stream that ends before
      the length is reached. */
  lemma {:induction false} FailuresMean(stream: seq<byte>)
    ensures ReadFrame(stream) == TooShort <==> |stream| >= 4 && Get32(stream[..4]) < 28
    ensures ReadFrame(stream) == TooLarge <==> |stream| >= 4 && Get32(stream[..4]) > 4194304
    ensures ReadFrame(stream) == EndOfStream <==>
            |stream| < 4 || (28 <= Get32(stream[..4]) <= 4194304 && |stream| < Get32(stream[..4]))
  {
    hide Get32, DecodeHeader;
  }

  lemma FrameNotEmpty(m: Message)
    ensures |FrameOf(m)| >= 28
  {
  }

  // ---- Reading and writing on a connection ---------------------------------------------------------

  class Connection {
    var incoming: seq<byte>
    var outgoing: seq<byte>

    constructor (incoming: seq<byte>)
      ensures this.incoming == incoming && outgoing == []
    {
      this.incoming := incoming;
      outgoing := [];
    }

    /** Exactly `n` bytes, or nothing if the stream ends first. */
    method ReadFull(n: nat) returns (b: Option<seq<byte>>)
      modifies this
      ensures outgoing == old(outgoing)
      ensures |old(incoming)| < n ==> b == None && incoming == []
      ensures |old(incoming)| >= n ==> b == Some(old(incoming)[..n]) && incoming == old(incoming)[n..]
    {
      if |incoming| < n {
        incoming := [];
        return None;
      }
      b := Some(incoming[..n]);
      incoming := incoming[n..];
    }
  }

  method MarshalHeader(h: Header) returns (b: seq<byte>)
    ensures b == EncodeHeader(h)
  {
    var enc := new Encoder();
    hide Put32;
    enc.Write32(h.program);
    enc.Write32(h.version);
    enc.Write32(h.procedure);
    enc.Write32(h.kind);
    enc.Write32(h.serial);
    enc.Write32(h.status);
    b := enc.buf;
  }

  method UnmarshalHeader(b: seq<byte>) returns (h: Option<Header>)
    ensures |b| < HEADER_SIZE ==> h == None
    ensures |b| >= HEADER_SIZE ==> h == Some(DecodeHeader(b[..HEADER_SIZE]))
  {
    if |b| < HEADER_SIZE {
      return None;
    }
    var dec := new Decoder(b);
    hide Get32, Signed32;
    var program := dec.ReadUint32();
    var version := dec.ReadUint32();
    var procedure := dec.ReadInt32();
    var kind := dec.ReadInt32();
    var serial := dec.ReadUint32();
    var status := dec.ReadInt32();
    h := Some(Header(program.value, version.value, procedure.value, kind.value, serial.value, status.value));
    assert forall i, j :: 0 <= i <= j <= HEADER_SIZE ==> b[..HEADER_SIZE][i..j] == b[i..j];
  }

  /** What is left on the connection after a read: what follows the message, nothing if the stream ended, and
      everything behind the length word if that was refused. */
  function LeftOver(stream: seq<byte>): seq<byte>
  {
    match ReadFrame(stream)
    case Received(_, rest) => rest
    case EndOfStream => []
    case _ => stream[4..]
  }

  method ReadMessage(conn: Connection) returns (r: Received)
    modifies conn
    ensures conn.outgoing == old(conn.outgoing)
    ensures r == ReadFrame(old(conn.incoming))
    ensures conn.incoming == LeftOver(old(conn.incoming))
  {
    var prefix := conn.ReadFull(4);
    if prefix.None? {
      return EndOfStream;
    }
    var total := Get32(prefix.value);
    hide Get32, DecodeHeader;
    if total < 4 + HEADER_SIZE {
      return TooShort;
    }
    if total > MAX_MESSAGE_SIZE {
      return TooLarge;
    }
    var payload := conn.ReadFull(total - 4);
    if payload.None? {
      return EndOfStream;
    }
    ghost var stream := old(conn.incoming);
    assert payload.value[..HEADER_SIZE] == stream[4..28];
    assert payload.value[HEADER_SIZE..] == stream[28..total];
    assert conn.incoming == stream[total..];
    var header := UnmarshalHeader(payload.value[..HEADER_SIZE]);
    assert payload.value[..HEADER_SIZE][..HEADER_SIZE] == payload.value[..HEADER_SIZE];
    r := Received(Message(header.value, payload.value[HEADER_SIZE..]), conn.incoming);
  }

  method WriteMessage(conn: Connection, m: Message)
    modifies conn
    ensures conn.incoming == old(conn.incoming)
    ensures conn.outgoing == old(conn.outgoing) + FrameOf(m)
  {
    var header := MarshalHeader(m.header);
    var total := 4 + |header| + |m.body|;
    var prefix := Put32(total);
    hide EncodeHeader, Put32;
    var buf := new byte[total](_ => 0);
    forall i | 0 <= i < 4 {
      buf[i] := prefix[i];
    }
    forall i | 0 <= i < |header| {
      buf[4 + i] := header[i];
    }
    forall i | 0 <= i < |m.body| {
      buf[4 + |header| + i] := m.body[i];
    }
    assert buf[..] == FrameOf(m);
    conn.outgoing := conn.outgoing + buf[..];
  }
}
