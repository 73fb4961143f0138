/** The control-channel frame format: one version byte, one type byte, a big-endian
    32-bit length, the payload (zo-tunnel-protocol). */
module FrameCodec {
  import opened Common

  const PROTOCOL_VERSION: byte := 1
  const MAX_PAYLOAD_SIZE: nat := 16 * 1024 * 1024
  const HEADER_SIZE: nat := 6

  datatype MessageType =
    | AuthReqType | AuthResType | NewConnType | DataType | PingType | PongType | CloseType | ErrorType | AcceptConnType

  datatype AuthReq = AuthReq(clientId: string, token: string, version: Option<string>) {
    predicate SupportsHeartbeat() { version.Some? }
  }
  datatype AuthRes = AuthRes(success: bool, message: string, publicPort: Option<nat>, assignedRoute: Option<string>)
  datatype NewConn = NewConn(connId: seq<byte>)
  datatype AcceptConn = AcceptConn(connId: seq<byte>, clientId: string)

  datatype Message =
    | AuthRequest(req: AuthReq)
    | AuthResponse(res: AuthRes)
    | NewConnection(conn: NewConn)
    | AcceptConnection(accept: AcceptConn)
    | Ping | Pong | Close
    | Error(text: string)

  function TypeByte(t: MessageType): byte {
    match t
    case AuthReqType => 1
    case AuthResType => 2
    case NewConnType => 3
    case DataType => 4
    case PingType => 5
    case PongType => 6
    case CloseType => 7
    case ErrorType => 8
    case AcceptConnType => 9
  }

  function TypeFromByte(b: byte): Option<MessageType> {
    if b == 1 then Some(AuthReqType)
    else if b == 2 then Some(AuthResType)
    else if b == 3 then Some(NewConnType)
    else if b == 4 then Some(DataType)
    else if b == 5 then Some(PingType)
    else if b == 6 then Some(PongType)
    else if b == 7 then Some(CloseType)
    else if b == 8 then Some(ErrorType)
    else if b == 9 then Some(AcceptConnType)
    else None
  }

  /** The JSON and UTF-8 libraries, as a parameter. */
  datatype Codec = Codec(
    encodeReq: AuthReq -> Option<seq<byte>>, decodeReq: seq<byte> -> Option<AuthReq>,
    encodeRes: AuthRes -> Option<seq<byte>>, decodeRes: seq<byte> -> Option<AuthRes>,
    encodeConn: NewConn -> Option<seq<byte>>, decodeConn: seq<byte> -> Option<NewConn>,
    encodeAccept: AcceptConn -> Option<seq<byte>>, decodeAccept: seq<byte> -> Option<AcceptConn>,
    encodeText: string -> seq<byte>, decodeText: seq<byte> -> string)
  {
    /** Decoding undoes encoding. */
    ghost predicate Lawful() {
      && (forall p {:trigger encodeReq(p)} :: encodeReq(p).Some? ==> decodeReq(encodeReq(p).value) == Some(p))
      && (forall p {:trigger encodeRes(p)} :: encodeRes(p).Some? ==> decodeRes(encodeRes(p).value) == Some(p))
      && (forall p {:trigger encodeConn(p)} :: encodeConn(p).Some? ==> decodeConn(encodeConn(p).value) == Some(p))
      && (forall p {:trigger encodeAccept(p)} :: encodeAccept(p).Some? ==> decodeAccept(encodeAccept(p).value) == Some(p))
      && (forall p {:trigger encodeText(p)} :: decodeText(encodeText(p)) == p)
    }
  }

  function TypeOf(m: Message): MessageType {
    match m
    case AuthRequest(_) => AuthReqType
    case AuthResponse(_) => AuthResType
    case NewConnection(_) => NewConnType
    case AcceptConnection(_) => AcceptConnType
    case Ping => PingType
    case Pong => PongType
    case Close => CloseType
    case Error(_) => ErrorType
  }

  function EncodePayload(c: Codec, m: Message): Option<seq<byte>> {
    match m
    case AuthRequest(p) => c.encodeReq(p)
    case AuthResponse(p) => c.encodeRes(p)
    case NewConnection(p) => c.encodeConn(p)
    case AcceptConnection(p) => c.encodeAccept(p)
    case Error(text) => Some(c.encodeText(text))
    case Ping | Pong | Close => Some([])
  }

  function Decode(c: Codec, t: MessageType, payload: seq<byte>): Option<Message> {
    match t
    case AuthReqType => (match c.decodeReq(payload) case Some(p) => Some(AuthRequest(p)) case None => None)
    case AuthResType => (match c.decodeRes(payload) case Some(p) => Some(AuthResponse(p)) case None => None)
    case NewConnType => (match c.decodeConn(payload) case Some(p) => Some(NewConnection(p)) case None => None)
    case AcceptConnType => (match c.decodeAccept(payload) case Some(p) => Some(AcceptConnection(p)) case None => None)
    case ErrorType => Some(Error(c.decodeText(payload)))
    case PingType => Some(Ping)
    case PongType => Some(Pong)
    case CloseType => Some(Close)
    case DataType => None
  }

  function BigEndian(n: nat): (b: seq<byte>)
    requires n < U32
    ensures |b| == 4 && FromBigEndian(b) == n
  {
    var hi, lo := n / 0x1_0000, n % 0x1_0000;
    [hi / 256, hi % 256, lo / 256, lo % 256]
  }

  function FromBigEndian(b: seq<byte>): (n: nat)
    requires |b| == 4
    ensures n < U32
  {
    (b[0] as int * 256 + b[1]) * 0x1_0000 + (b[2] as int * 256 + b[3])
  }

  datatype WriteError = CannotEncode | PayloadTooLarge

  /** The bytes write_message puts on the wire; the length field is the payload
      length cut to 32 bits, and the size check looks only at that field. */
  function Frame(c: Codec, m: Message): Result<seq<byte>, WriteError> {
    match EncodePayload(c, m)
    case None => Failure(CannotEncode)
    case Some(payload) =>
      var declared := |payload| % U32;
      if declared > MAX_PAYLOAD_SIZE then Failure(PayloadTooLarge)
      else Success([PROTOCOL_VERSION, TypeByte(TypeOf(m))] + BigEndian(declared) + payload)
  }

  datatype ReadError = Truncated | WrongVersion | UnknownType | LengthTooLarge | Undecodable

  datatype ReadResult = Got(message: Message, rest: seq<byte>) | Failed(error: ReadError, rest: seq<byte>)

  /** What read_message makes of a peer that sends exactly these bytes and then closes, and
      what it leaves unread. */
  function ReadFrame(c: Codec, input: seq<byte>): ReadResult {
    if |input| < HEADER_SIZE then Failed(Truncated, [])
    else if input[0] != PROTOCOL_VERSION then Failed(WrongVersion, input[HEADER_SIZE..])
    else match TypeFromByte(input[1])
      case None => Failed(UnknownType, input[HEADER_SIZE..])
      case Some(t) =>
        var declared := FromBigEndian(input[2..6]);
        if declared > MAX_PAYLOAD_SIZE then Failed(LengthTooLarge, input[HEADER_SIZE..])
        else if |input| < HEADER_SIZE + declared then Failed(Truncated, [])
        else match Decode(c, t, input[HEADER_SIZE..HEADER_SIZE + declared])
          case None => Failed(Undecodable, input[HEADER_SIZE + declared..])
          case Some(m) => Got(m, input[HEADER_SIZE + declared..])
  }

  class Writer {
    var sent: seq<byte>

    constructor ()
      ensures sent == []
    {
      sent := [];
    }
  }

  class Reader {
    var rest: seq<byte>

    constructor (input: seq<byte>)
      ensures rest == input
    {
      rest := input;
    }

    /** Fills a buffer of n bytes; at end of input it fails, having taken what there was. */
    method ReadExact(n: nat) returns (r: Option<seq<byte>>)
      modifies this
      ensures r.Some? <==> n <= old(|rest|)
      ensures r.Some? ==> |r.value| == n && r.value + rest == old(rest)
      ensures r.None? ==> rest == []
    {
      if n > |rest| {
        rest := [];
        return None;
      }
      r := Some(rest[..n]);
      rest := rest[n..];
    }
  }

  method WriteMessage(c: Codec, w: Writer, m: Message) returns (r: Result<(), WriteError>)
    modifies w
    ensures match Frame(c, m)
            case Success(bytes) => r == Success(()) && w.sent == old(w.sent) + bytes
            case Failure(e) => r == Failure(e) && w.sent == old(w.sent)
  {
    var encoded := EncodePayload(c, m);
    if encoded == None {
      return Failure(CannotEncode);
    }
    var payload := encoded.value;
    var payloadLen := |payload| % U32;
    if payloadLen > MAX_PAYLOAD_SIZE {
      return Failure(PayloadTooLarge);
    }
    var buf: seq<byte> := [];
    buf := buf + [PROTOCOL_VERSION];
    buf := buf + [TypeByte(TypeOf(m))];
    buf := buf + BigEndian(payloadLen);
    buf := buf + payload;
    w.sent := w.sent + buf;
    return Success(());
  }

  method ReadMessage(c: Codec, reader: Reader) returns (r: Result<Message, ReadError>)
    modifies reader
    ensures match ReadFrame(c, old(reader.rest))
            case Got(m, rest) => r == Success(m) && reader.rest == rest
            case Failed(e, rest) => r == Failure(e) && reader.rest == rest
  {
    ghost var input := reader.rest;
    var header := reader.ReadExact(HEADER_SIZE);
    if header == None {
      return Failure(Truncated);
    }
    assert input[..HEADER_SIZE] == header.value && reader.rest == input[HEADER_SIZE..];
    assert header.value[2..6] == input[2..6];
    var version, typeByte, declared := header.value[0], header.value[1], FromBigEndian(header.value[2..6]);
    if version != PROTOCOL_VERSION {
      return Failure(WrongVersion);
    }
    var t := TypeFromByte(typeByte);
    if t == None {
      return Failure(UnknownType);
    }
    if declared > MAX_PAYLOAD_SIZE {
      return Failure(LengthTooLarge);
    }
    var payload: seq<byte> := [];
    if declared > 0 {
      var body := reader.ReadExact(declared);
      if body == None {
        return Failure(Truncated);
      }
      payload := body.value;
    }
    assert payload == input[HEADER_SIZE..HEADER_SIZE + declared];
    assert reader.rest == input[HEADER_SIZE + declared..];
    var m := Decode(c, t.value, payload);
    if m == None {
      return Failure(Undecodable);
    }
    return Success(m.value);
  }

  lemma DecodeInvertsEncode(c: Codec, m: Message)
    requires c.Lawful() && EncodePayload(c, m).Some?
    ensures Decode(c, TypeOf(m), EncodePayload(c, m).value) == Some(m)
  {
  }

  lemma TypesAreDistinct(t: MessageType, b: byte)
    ensures TypeFromByte(b) == Some(t) <==> TypeByte(t) == b
  {
  }

  /** The layout of every written frame, byte by byte: version 1, the number of the message's kind, the payload length
      from its highest byte down, the payload. Pings, pongs and closes have none. */
  lemma FrameLayout(c: Codec, m: Message)
    requires Frame(c, m).Success?
    ensures var f := Frame(c, m).value;
      && |f| >= 6 && f[0] == 1
      && f[1] == (match m
                  case AuthRequest(_) => 1
                  case AuthResponse(_) => 2
                  case NewConnection(_) => 3
                  case Ping => 5
                  case Pong => 6
                  case Close => 7
                  case Error(_) => 8
                  case AcceptConnection(_) => 9)
      && (f[2] as int * 0x100_0000 + f[3] as int * 0x1_0000 + f[4] as int * 0x100 + f[5] as int) == (|f| - 6) % 0x1_0000_0000
      && EncodePayload(c, m) == Some(f[6..])
      && (m.Ping? || m.Pong? || m.Close? ==> |f| == 6)
  {
  }

  /** Nothing is written exactly if the payload cannot be encoded or its length modulo 2^32 is over 16 MiB. */
  lemma WriteExactlyWhen(c: Codec, m: Message)
    ensures EncodePayload(c, m).None? <==> Frame(c, m) == Failure(CannotEncode)
    ensures EncodePayload(c, m).Some? && |EncodePayload(c, m).value| % 0x1_0000_0000 > 16 * 1024 * 1024
       <==> Frame(c, m) == Failure(PayloadTooLarge)
  {
  }

  /** What is read and what is refused, and for which reason, over all inputs. A frame of another version, of a
      type outside 1 to 9, over 16 MiB, of type 4, or cut short is never accepted. */
  lemma ReadExactlyWhen(c: Codec, input: seq<byte>)
    ensures var r, enough := ReadFrame(c, input), |input| >= 6;
      && (enough && input[0] != 1 <==> r.Failed? && r.error == WrongVersion)
      && (enough && input[0] == 1 && !(1 <= input[1] <= 9) <==> r.Failed? && r.error == UnknownType)
      && (enough && input[0] == 1 && 1 <= input[1] <= 9 && FromBigEndian(input[2..6]) > 16 * 1024 * 1024
          <==> r.Failed? && r.error == LengthTooLarge)
      && (!enough || (input[0] == 1 && 1 <= input[1] <= 9 && |input| - 6 < FromBigEndian(input[2..6]) <= 16 * 1024 * 1024)
          <==> r.Failed? && r.error == Truncated)
      && (enough && input[0] == 1 && 1 <= input[1] <= 9 && FromBigEndian(input[2..6]) <= 16 * 1024 * 1024
          && FromBigEndian(input[2..6]) <= |input| - 6
          && Decode(c, TypeFromByte(input[1]).value, input[6..6 + FromBigEndian(input[2..6])]).None?
          <==> r.Failed? && r.error == Undecodable)
      && (r.Got? ==> input[1] != 4 && Decode(c, TypeFromByte(input[1]).value, input[6..6 + FromBigEndian(input[2..6])]) == Some(r.message))
  {
  }

  /** A written frame followed by anything reads back as that message, leaving exactly
      what followed, if and only if the payload is within the limit. */
  lemma FrameRoundTrip(c: Codec, m: Message, tail: seq<byte>)
    requires c.Lawful() && Frame(c, m).Success?
    ensures ReadFrame(c, Frame(c, m).value + tail) == Got(m, tail)
       <==> |EncodePayload(c, m).value| <= MAX_PAYLOAD_SIZE
  {
    var payload := EncodePayload(c, m).value;
    DecodeInvertsEncode(c, m);
    hide Codec.Lawful, Decode, EncodePayload;
    FrameParts(c, m, tail);
    if |payload| <= MAX_PAYLOAD_SIZE {
      assert payload[..|payload|] == payload && payload[|payload|..] + tail == tail;
    } else {
      assert |payload[|payload| % U32..] + tail| > |tail|;
    }
  }

  /** A frame whose length was cut is written, exactly if the length is within the limit modulo 2^32,
      and is taken for a shorter one, the rest of its payload for what follows. */
  lemma CutFrame(c: Codec, m: Message, tail: seq<byte>)
    requires c.Lawful() && EncodePayload(c, m).Some? && |EncodePayload(c, m).value| > MAX_PAYLOAD_SIZE
    ensures Frame(c, m).Success? <==> |EncodePayload(c, m).value| % U32 <= MAX_PAYLOAD_SIZE
    ensures Frame(c, m).Success? ==>
      var payload, declared := EncodePayload(c, m).value, |EncodePayload(c, m).value| % U32;
      ReadFrame(c, Frame(c, m).value + tail) ==
        match Decode(c, TypeOf(m), payload[..declared])
        case Some(other) => Got(other, payload[declared..] + tail)
        case None => Failed(Undecodable, payload[declared..] + tail)
  {
    if |EncodePayload(c, m).value| % U32 <= MAX_PAYLOAD_SIZE {
      hide Codec.Lawful, Decode;
      FrameParts(c, m, tail);
    }
  }

  /** What the reader sees of a written frame with something behind it. */
  lemma FrameParts(c: Codec, m: Message, tail: seq<byte>)
    requires Frame(c, m).Success?
    ensures EncodePayload(c, m).Some? && |EncodePayload(c, m).value| % U32 <= MAX_PAYLOAD_SIZE
    ensures var payload, declared, input := EncodePayload(c, m).value, |EncodePayload(c, m).value| % U32, Frame(c, m).value + tail;
      && |input| == HEADER_SIZE + |payload| + |tail|
      && input[0] == PROTOCOL_VERSION && TypeFromByte(input[1]) == Some(TypeOf(m))
      && FromBigEndian(input[2..6]) == declared
      && input[HEADER_SIZE..HEADER_SIZE + declared] == payload[..declared]
      && input[HEADER_SIZE + declared..] == payload[declared..] + tail
  {
    hide EncodePayload;
    var payload, declared := EncodePayload(c, m).value, |EncodePayload(c, m).value| % U32;
    var start, length := [PROTOCOL_VERSION, TypeByte(TypeOf(m))], BigEndian(declared);
    var input := Frame(c, m).value + tail;
    assert input == start + length + (payload + tail);
    Behind(start + length, payload + tail, declared);
    assert (start + length)[2..6] == length && input[2..6] == (start + length)[2..6];
    assert (payload + tail)[..declared] == payload[..declared] && (payload + tail)[declared..] == payload[declared..] + tail;
    TypesAreDistinct(TypeOf(m), TypeByte(TypeOf(m)));
  }

  lemma Behind(head: seq<byte>, body: seq<byte>, n: nat)
    requires n <= |body|
    ensures (head + body)[|head|..|head| + n] == body[..n] && (head + body)[|head| + n..] == body[n..]
  {
  }

  // ---- A codec and a message for which that happens ----

  /** Four bytes for each character. */
  function Wide(text: string): (b: seq<byte>)
    ensures |b| == 4 * |text|
  {
    if text == "" then [] else BigEndian(text[0] as int) + Wide(text[1..])
  }

  function Narrow(b: seq<byte>): string {
    if |b| < 4 then ""
    else
      var n := FromBigEndian(b[..4]);
      (if n < 0xD800 || 0xE000 <= n < 0x11_0000 then [n as char] else []) + Narrow(b[4..])
  }

  lemma {:induction false} NarrowInverts(text: string)
    ensures Narrow(Wide(text)) == text
  {
    if text != "" {
      NarrowInverts(text[1..]);
      assert Wide(text)[..4] == BigEndian(text[0] as int) && Wide(text)[4..] == Wide(text[1..]);
    }
  }

  /** A codec for error texts only. */
  function WideCodec(): Codec {
    Codec(_ => None, _ => None, _ => None, _ => None, _ => None, _ => None, _ => None, _ => None, Wide, Narrow)
  }

  lemma WideIsLawful()
    ensures WideCodec().Lawful()
  {
    hide Wide, Narrow;
    forall text ensures Narrow(Wide(text)) == text { NarrowInverts(text); }
  }

  lemma WideError(text: string, tail: seq<byte>)
    requires |text| == U32 / 4
    ensures var c, m := WideCodec(), Error(text);
      && EncodePayload(c, m) == Some(Wide(text)) && Frame(c, m).Success? && |Wide(text)| == U32
      && ReadFrame(c, Frame(c, m).value + tail) == Got(Error(""), Wide(text) + tail)
  {
    hide Wide, Narrow, ReadFrame, Frame, Codec.Lawful;
    var c, m := WideCodec(), Error(text);
    assert EncodePayload(c, m) == Some(Wide(text));
    WideIsLawful();
    CutFrame(c, m, tail);
    NarrowNothing();
    assert Wide(text)[..0] == [] && Wide(text)[0..] == Wide(text);
    assert Decode(c, ErrorType, []) == Some(Error(""));
  }

  lemma NarrowNothing()
    ensures Narrow([]) == ""
  {
  }

  /** An error text of 2^30 characters, four bytes each, is written without complaint and read back as the empty text. */
  lemma CutFrameExample(tail: seq<byte>) returns (c: Codec, m: Message)
    ensures c.Lawful() && Frame(c, m).Success? && EncodePayload(c, m).Some? && |EncodePayload(c, m).value| == U32
    ensures ReadFrame(c, Frame(c, m).value + tail) == Got(Error(""), EncodePayload(c, m).value + tail)
    ensures m != Error("")
  {
    hide Wide, Narrow, ReadFrame, Frame, Codec.Lawful;
    var text := seq(U32 / 4, _ => 'x');
    c, m := WideCodec(), Error(text);
    WideIsLawful();
    WideError(text, tail);
  }

  /** A successful read takes the header and the declared payload, no more and no less. */
  lemma ReadTakesOneFrame(c: Codec, input: seq<byte>)
    requires ReadFrame(c, input).Got?
    ensures |input| >= HEADER_SIZE && FromBigEndian(input[2..6]) <= MAX_PAYLOAD_SIZE
    ensures ReadFrame(c, input).rest == input[|input| - |ReadFrame(c, input).rest|..]
    ensures |input| - |ReadFrame(c, input).rest| == HEADER_SIZE + FromBigEndian(input[2..6])
  {
  }

  /** No proper prefix of an accepted frame is accepted: the reader waits for the rest. */
  lemma NoPrefixAccepted(c: Codec, input: seq<byte>, k: nat)
    requires ReadFrame(c, input).Got? && k < |input| - |ReadFrame(c, input).rest|
    ensures ReadFrame(c, input[..k]) == Failed(Truncated, [])
  {
    if k >= HEADER_SIZE {
      assert input[..k][2..6] == input[2..6];
    }
  }

  /** All frames of a message sequence, end to end; None if one of them is refused. */
  function Frames(c: Codec, ms: seq<Message>): Option<seq<byte>> {
    if ms == [] then Some([])
    else match (Frame(c, ms[0]), Frames(c, ms[1..]))
      case (Success(first), Some(others)) => Some(first + others)
      case _ => None
  }

  /** Calling read_message n times. */
  function ReadMany(c: Codec, n: nat, input: seq<byte>): Option<(seq<Message>, seq<byte>)> {
    if n == 0 then Some(([], input))
    else match ReadFrame(c, input)
      case Failed(_, _) => None
      case Got(m, rest) =>
        match ReadMany(c, n - 1, rest)
        case None => None
        case Some((ms, left)) => Some(([m] + ms, left))
  }

  predicate AllWithinLimit(c: Codec, ms: seq<Message>) {
    forall m :: m in ms ==> EncodePayload(c, m).Some? && |EncodePayload(c, m).value| <= MAX_PAYLOAD_SIZE
  }

  lemma ReadManyPrepend(c: Codec, m: Message, after: seq<byte>, n: nat, ms: seq<Message>, left: seq<byte>)
    requires c.Lawful() && AllWithinLimit(c, [m])
    requires ReadMany(c, n, after) == Some((ms, left))
    ensures Frame(c, m).Success?
    ensures ReadMany(c, n + 1, Frame(c, m).value + after) == Some(([m] + ms, left))
  {
    hide ReadFrame, Codec.Lawful;
    assert m in [m];
    FrameRoundTrip(c, m, after);
  }

  /** Messages written one after another, then read one by one, come back unchanged
      and in order, and what follows them on the stream is untouched. */
  lemma {:induction false} StreamRoundTrip(c: Codec, ms: seq<Message>, tail: seq<byte>)
    requires c.Lawful() && AllWithinLimit(c, ms)
    ensures Frames(c, ms).Some?
    ensures ReadMany(c, |ms|, Frames(c, ms).value + tail) == Some((ms, tail))
  {
    hide Codec.Lawful, Frame, ReadFrame, ReadMany;
    if ms == [] {
      NothingToRead(c, tail);
    } else {
      var m, others := ms[0], ms[1..];
      assert AllWithinLimit(c, [m]) && AllWithinLimit(c, others) by {
        assert m in ms && forall x :: x in others ==> x in ms;
      }
      StreamRoundTrip(c, others, tail);
      ReadManyPrepend(c, m, Frames(c, others).value + tail, |others|, others, tail);
      assert Frames(c, ms).value + tail == Frame(c, m).value + (Frames(c, others).value + tail);
      assert [m] + others == ms;
    }
  }

  lemma NothingToRead(c: Codec, tail: seq<byte>)
    ensures ReadMany(c, 0, [] + tail) == Some(([], tail))
  {
    assert [] + tail == tail;
  }
}
