/** Streaming frames: `[opcode]` or `[opcode | varint(len) | body]`, their writers over a send stream and
    their readers over a receive stream, and the meaning of a byte sequence as frames. */
module Streaming {
  import opened Bytes
  import opened Errors
  import Postcard
  import Varint

  const MAX_STREAMING_PAYLOAD_LEN: nat := 8 * 1024 * 1024

  const OPCODE_OPEN_REQUEST: byte := 0x10
  const OPCODE_OPEN_RESPONSE: byte := 0x11
  const OPCODE_REQUEST_CHUNK: byte := 0x20
  const OPCODE_RESPONSE_CHUNK: byte := 0x21
  const OPCODE_REQUEST_END: byte := 0x30
  const OPCODE_RESPONSE_END: byte := 0x31
  const OPCODE_ERROR: byte := 0x40

  type Chunk = seq<byte>

  datatype StreamingOpenRequest = StreamingOpenRequest(methodName: Text, requestId: nat)

  datatype StreamingOpenStatus = StatusOk | StatusErr(reason: Text)

  datatype StreamingOpenResponse = StreamingOpenResponse(status: StreamingOpenStatus, requestId: nat)

  datatype StreamingError = StreamingError(message: Text, terminal: bool)

  datatype Frame =
    | OpenRequest(openRequest: StreamingOpenRequest)
    | OpenResponse(openResponse: StreamingOpenResponse)
    | RequestChunk(request: Chunk)
    | ResponseChunk(response: Chunk)
    | RequestEnd
    | ResponseEnd
    | Error(error: StreamingError)

  // ---- bodies

  function OpenRequestShape(): Postcard.Shape { Postcard.Pair(Postcard.Str, Postcard.U64) }

  function OpenResponseShape(): Postcard.Shape {
    Postcard.Pair(Postcard.Enum([Postcard.Unit, Postcard.Str]), Postcard.U64)
  }

  function ErrorShape(): Postcard.Shape { Postcard.Pair(Postcard.Str, Postcard.Bool) }

  /** The frames a Rust value can denote: text is UTF-8, ids are 64-bit, lengths are machine-sized. */
  predicate WellTyped(f: Frame) {
    match f
    case OpenRequest(b) => Postcard.IsText(b.methodName) && b.requestId < Varint.U64
    case OpenResponse(b) => (b.status.StatusErr? ==> Postcard.IsText(b.status.reason)) && b.requestId < Varint.U64
    case RequestChunk(c) => |c| < Varint.U64
    case ResponseChunk(c) => |c| < Varint.U64
    case RequestEnd => true
    case ResponseEnd => true
    case Error(b) => Postcard.IsText(b.message)
  }

  predicate IsStruct(f: Frame) { f.OpenRequest? || f.OpenResponse? || f.Error? }

  function BodyShape(f: Frame): Postcard.Shape
    requires IsStruct(f)
  {
    match f
    case OpenRequest(_) => OpenRequestShape()
    case OpenResponse(_) => OpenResponseShape()
    case Error(_) => ErrorShape()
  }

  function BodyValue(f: Frame): (v: Postcard.Value)
    requires IsStruct(f) && WellTyped(f)
    ensures Postcard.Fits(BodyShape(f), v)
  {
    match f
    case OpenRequest(b) => Postcard.VPair(Postcard.VBytes(b.methodName), Postcard.VNum(b.requestId))
    case OpenResponse(b) =>
      Postcard.VPair(
        match b.status
        case StatusOk => Postcard.VVariant(0, Postcard.VUnit)
        case StatusErr(reason) => Postcard.VVariant(1, Postcard.VBytes(reason)),
        Postcard.VNum(b.requestId))
    case Error(b) => Postcard.VPair(Postcard.VBytes(b.message), Postcard.VBool(b.terminal))
  }

  function OpenRequestOf(v: Postcard.Value): Option<StreamingOpenRequest> {
    match v
    case VPair(VBytes(name), VNum(id)) => Some(StreamingOpenRequest(name, id))
    case _ => None
  }

  function OpenResponseOf(v: Postcard.Value): Option<StreamingOpenResponse> {
    match v
    case VPair(VVariant(_, VUnit), VNum(id)) => Some(StreamingOpenResponse(StatusOk, id))
    case VPair(VVariant(_, VBytes(reason)), VNum(id)) => Some(StreamingOpenResponse(StatusErr(reason), id))
    case _ => None
  }

  function ErrorOf(v: Postcard.Value): Option<StreamingError> {
    match v
    case VPair(VBytes(message), VBool(terminal)) => Some(StreamingError(message, terminal))
    case _ => None
  }

  function Lift<T>(b: Option<T>, wrap: T -> Frame): Option<Frame> {
    match b case None => None case Some(x) => Some(wrap(x))
  }

  function Opcode(f: Frame): byte {
    match f
    case OpenRequest(_) => OPCODE_OPEN_REQUEST
    case OpenResponse(_) => OPCODE_OPEN_RESPONSE
    case RequestChunk(_) => OPCODE_REQUEST_CHUNK
    case ResponseChunk(_) => OPCODE_RESPONSE_CHUNK
    case RequestEnd => OPCODE_REQUEST_END
    case ResponseEnd => OPCODE_RESPONSE_END
    case Error(_) => OPCODE_ERROR
  }

  predicate HasBody(f: Frame) { !f.RequestEnd? && !f.ResponseEnd? }

  function Body(f: Frame): seq<byte>
    requires WellTyped(f)
  {
    match f
    case RequestChunk(c) => c
    case ResponseChunk(c) => c
    case RequestEnd => []
    case ResponseEnd => []
    case _ => Postcard.Put(BodyShape(f), BodyValue(f))
  }

  function ShapeOf(opcode: byte): Postcard.Shape {
    if opcode == OPCODE_OPEN_REQUEST then OpenRequestShape()
    else if opcode == OPCODE_OPEN_RESPONSE then OpenResponseShape()
    else ErrorShape()
  }

  function FrameOf(opcode: byte, v: Postcard.Value): Option<Frame> {
    if opcode == OPCODE_OPEN_REQUEST then Lift(OpenRequestOf(v), b => OpenRequest(b))
    else if opcode == OPCODE_OPEN_RESPONSE then Lift(OpenResponseOf(v), b => OpenResponse(b))
    else Lift(ErrorOf(v), b => Error(b))
  }

  /** Chunks are taken as they are; the other bodies go through `postcard::from_bytes`, which ignores
      bytes after the value. */
  function DecodeBody(opcode: byte, body: seq<byte>): Option<Frame> {
    if opcode == OPCODE_REQUEST_CHUNK then Some(RequestChunk(body))
    else if opcode == OPCODE_RESPONSE_CHUNK then Some(ResponseChunk(body))
    else match Postcard.Get(ShapeOf(opcode), body)
      case None => None
      case Some((v, _)) => FrameOf(opcode, v)
  }

  lemma ShapeMatches(f: Frame)
    requires IsStruct(f)
    ensures ShapeOf(Opcode(f)) == BodyShape(f)
  {
  }

  lemma ValueMatches(f: Frame)
    requires IsStruct(f) && WellTyped(f)
    ensures FrameOf(Opcode(f), BodyValue(f)) == Some(f)
  {
  }

  lemma ValueRoundTrip(f: Frame)
    requires IsStruct(f) && WellTyped(f)
    ensures ShapeOf(Opcode(f)) == BodyShape(f)
    ensures FrameOf(Opcode(f), BodyValue(f)) == Some(f)
  {
    ShapeMatches(f);
    ValueMatches(f);
  }

  lemma BodyRoundTrip(f: Frame)
    requires WellTyped(f) && HasBody(f)
    ensures DecodeBody(Opcode(f), Body(f)) == Some(f)
  {
    if IsStruct(f) {
      var s, v := BodyShape(f), BodyValue(f);
      var bs := Postcard.Put(s, v);
      Postcard.RoundTrip(s, v, []);
      assert bs + [] == bs;
      ValueRoundTrip(f);
    }
  }

  /** Bytes after the value of a structured body are ignored; a chunk is its whole body. */
  lemma TrailingBytes(f: Frame, t: seq<byte>)
    requires WellTyped(f) && HasBody(f)
    ensures IsStruct(f) ==> DecodeBody(Opcode(f), Body(f) + t) == Some(f)
    ensures f.RequestChunk? ==> DecodeBody(Opcode(f), Body(f) + t) == Some(RequestChunk(f.request + t))
    ensures f.ResponseChunk? ==> DecodeBody(Opcode(f), Body(f) + t) == Some(ResponseChunk(f.response + t))
  {
    if IsStruct(f) {
      Postcard.RoundTrip(BodyShape(f), BodyValue(f), t);
      ValueRoundTrip(f);
    }
  }

  // ---- bytes and frames

  function Encode(f: Frame): (bs: seq<byte>)
    requires WellTyped(f)
    ensures bs != []
  {
    if HasBody(f) then [Opcode(f)] + Varint.Encode(|Body(f)|) + Body(f) else [Opcode(f)]
  }

  /** What the bytes at hand amount to: not yet a frame, a frame and the rest, or no frame ever. */
  datatype Parse = NeedMore | Got(frame: Frame, rest: seq<byte>) | Bad(error: RpcError)

  datatype BodyParse = BodyNeedMore | BodyGot(body: seq<byte>, rest: seq<byte>) | BodyBad(error: RpcError)

  const VARINT_TOO_LONG: RpcError := MalformedFrame(Ascii("streaming varint > 10 bytes"))
  const VARINT_OVERFLOW: RpcError := MalformedFrame(Ascii("streaming varint overflow"))
  const VARINT_SUM_OVERFLOW: RpcError := MalformedFrame(Ascii("streaming varint sum overflow"))
  const PAYLOAD_TOO_LONG: RpcError := MalformedFrame(Ascii("streaming payload length exceeds maximum"))
  const UNEXPECTED_OPCODE: RpcError := MalformedFrame(Ascii("unexpected streaming opcode"))
  const BODY_CODEC: RpcError := Codec(Ascii("postcard"))

  function Split(n: nat, rest: seq<byte>): (p: BodyParse)
    ensures p.BodyGot? ==> |p.rest| <= |rest|
  {
    if n > MAX_STREAMING_PAYLOAD_LEN then BodyBad(PAYLOAD_TOO_LONG)
    else if |rest| < n then BodyNeedMore
    else BodyGot(rest[..n], rest[n..])
  }

  function ParseBody(bs: seq<byte>): (p: BodyParse)
    ensures p.BodyGot? ==> |p.rest| < |bs|
  {
    match Varint.HandTake(bs)
    case Need => BodyNeedMore
    case Overlong => BodyBad(VARINT_TOO_LONG)
    case Got(n, rest) => Split(n, rest)
  }

  predicate BodyOpcode(opcode: byte) {
    opcode in [OPCODE_OPEN_REQUEST, OPCODE_OPEN_RESPONSE, OPCODE_REQUEST_CHUNK, OPCODE_RESPONSE_CHUNK, OPCODE_ERROR]
  }

  function Typed(opcode: byte, p: BodyParse): Parse {
    match p
    case BodyNeedMore => NeedMore
    case BodyBad(e) => Bad(e)
    case BodyGot(body, rest) =>
      match DecodeBody(opcode, body)
      case Some(f) => Got(f, rest)
      case None => Bad(BODY_CODEC)
  }

  function ParseAfterOpcode(opcode: byte, bs: seq<byte>): Parse {
    if BodyOpcode(opcode) then Typed(opcode, ParseBody(bs))
    else if opcode == OPCODE_REQUEST_END then Got(RequestEnd, bs)
    else if opcode == OPCODE_RESPONSE_END then Got(ResponseEnd, bs)
    else Bad(UNEXPECTED_OPCODE)
  }

  function ParseFrame(bs: seq<byte>): (p: Parse)
    ensures p.Got? ==> |p.rest| < |bs|
  {
    if bs == [] then NeedMore else ParseAfterOpcode(bs[0], bs[1..])
  }

  /** A frame fits the reader: its body is within the limit that writers do not check. */
  predicate Small(f: Frame)
    requires WellTyped(f)
  {
    |Body(f)| <= MAX_STREAMING_PAYLOAD_LEN
  }

  lemma SplitExact(body: seq<byte>, t: seq<byte>)
    ensures Split(|body|, body + t) ==
            if |body| <= MAX_STREAMING_PAYLOAD_LEN then BodyGot(body, t) else BodyBad(PAYLOAD_TOO_LONG)
  {
    assert (body + t)[..|body|] == body && (body + t)[|body|..] == t;
  }

  lemma WrittenBody(body: seq<byte>, t: seq<byte>)
    requires |body| < Varint.U64
    ensures ParseBody(Varint.Encode(|body|) + (body + t)) == Split(|body|, body + t)
  {
    Varint.HandInvertsEncode(|body|, body + t);
  }

  lemma BodyFrameRoundTrip(f: Frame, t: seq<byte>)
    requires WellTyped(f) && HasBody(f) && |Body(f)| < Varint.U64
    ensures ParseFrame(Encode(f) + t) == Typed(Opcode(f), Split(|Body(f)|, Body(f) + t))
  {
    var body := Body(f);
    var after := Varint.Encode(|body|) + (body + t);
    assert Encode(f) + t == [Opcode(f)] + after;
    assert (Encode(f) + t)[1..] == after;
    WrittenBody(body, t);
  }

  /** Reading back one written frame, whatever follows: exact if its body is within 8 MiB, and otherwise
      refused - so exact if and only if it is. */
  lemma FrameRoundTrip(f: Frame, t: seq<byte>)
    requires WellTyped(f) && |Body(f)| < Varint.U64
    ensures |Body(f)| <= 8 * 1024 * 1024 ==> ParseFrame(Encode(f) + t) == Got(f, t)
    ensures |Body(f)| > 8 * 1024 * 1024 ==> ParseFrame(Encode(f) + t) == Bad(PAYLOAD_TOO_LONG)
    ensures Small(f) <==> |Body(f)| <= 8 * 1024 * 1024
  {
    if HasBody(f) {
      BodyFrameRoundTrip(f, t);
      SplitExact(Body(f), t);
      BodyRoundTrip(f);
    } else {
      assert (Encode(f) + t)[1..] == t;
    }
  }

  /** Once the bytes decide, more bytes do not change the decision. */
  lemma ParseExtends(bs: seq<byte>, t: seq<byte>)
    ensures ParseFrame(bs).Got? ==> ParseFrame(bs + t) == Got(ParseFrame(bs).frame, ParseFrame(bs).rest + t)
    ensures ParseFrame(bs).Bad? ==> ParseFrame(bs + t) == ParseFrame(bs)
  {
    if bs != [] {
      assert (bs + t)[0] == bs[0] && (bs + t)[1..] == bs[1..] + t;
      BodyExtends(bs[1..], t);
    }
  }

  lemma BodyExtends(bs: seq<byte>, t: seq<byte>)
    ensures ParseBody(bs).BodyGot? ==> ParseBody(bs + t) == BodyGot(ParseBody(bs).body, ParseBody(bs).rest + t)
    ensures ParseBody(bs).BodyBad? ==> ParseBody(bs + t) == ParseBody(bs)
  {
    Varint.HandTakeExtends(bs, t);
    if Varint.HandTake(bs).Got? { SplitExtends(Varint.HandTake(bs).value, Varint.HandTake(bs).rest, t); }
  }

  lemma SplitExtends(n: nat, rest: seq<byte>, t: seq<byte>)
    ensures Split(n, rest).BodyGot? ==> Split(n, rest + t) == BodyGot(Split(n, rest).body, Split(n, rest).rest + t)
    ensures Split(n, rest).BodyBad? ==> Split(n, rest + t) == Split(n, rest)
  {
    if Split(n, rest).BodyGot? {
      assert (rest + t)[..n] == rest[..n] && (rest + t)[n..] == rest[n..] + t;
    }
  }

  // ---- layout

  /** The bodies on the wire: texts behind their length, ids as varints, a status or flag as one byte. */
  function LaidOut(f: Frame): seq<byte> {
    match f
    case OpenRequest(b) => Varint.Encode(|b.methodName|) + b.methodName + Varint.Encode(b.requestId)
    case OpenResponse(b) =>
      (match b.status
       case StatusOk => [0]
       case StatusErr(reason) => [1] + (Varint.Encode(|reason|) + reason)) + Varint.Encode(b.requestId)
    case Error(b) => Varint.Encode(|b.message|) + b.message + [if b.terminal then 1 else 0]
    case RequestChunk(c) => c
    case ResponseChunk(c) => c
    case _ => []
  }

  lemma StatusBytes(status: StreamingOpenStatus)
    requires status.StatusErr? ==> Postcard.IsText(status.reason)
    ensures var s := Postcard.Enum([Postcard.Unit, Postcard.Str]);
            var v := match status
                     case StatusOk => Postcard.VVariant(0, Postcard.VUnit)
                     case StatusErr(reason) => Postcard.VVariant(1, Postcard.VBytes(reason));
            Postcard.Fits(s, v)
            && Postcard.Put(s, v) ==
               match status
               case StatusOk => [0]
               case StatusErr(reason) => [1] + (Varint.Encode(|reason|) + reason)
  {
    assert Varint.Encode(0) == [0] && Varint.Encode(1) == [1];
  }

  lemma BodyLayout(f: Frame)
    requires WellTyped(f)
    ensures Body(f) == LaidOut(f)
  {
    if f.OpenResponse? { StatusBytes(f.openResponse.status); }
  }

  /** Every frame's first byte. */
  lemma FrameOpcode(f: Frame)
    requires WellTyped(f)
    ensures Encode(f)[0] == match f
                            case OpenRequest(_) => 0x10
                            case OpenResponse(_) => 0x11
                            case RequestChunk(_) => 0x20
                            case ResponseChunk(_) => 0x21
                            case RequestEnd => 0x30
                            case ResponseEnd => 0x31
                            case Error(_) => 0x40
  {
  }

  lemma TailOf(opcode: byte, len: seq<byte>, body: seq<byte>)
    ensures ([opcode] + len + body)[1..] == len + body && [opcode][1..] == []
  {
  }

  lemma AfterOpcode(f: Frame)
    requires WellTyped(f)
    ensures Encode(f)[1..] == if f.RequestEnd? || f.ResponseEnd? then [] else Varint.Encode(|Body(f)|) + Body(f)
  {
    TailOf(Opcode(f), Varint.Encode(|Body(f)|), Body(f));
  }

  /** The documented layout of every frame: the opcode alone, or the opcode, the body's length and the body. */
  lemma FrameLayout(f: Frame)
    requires WellTyped(f)
    ensures Encode(f)[0] == match f
                            case OpenRequest(_) => 0x10
                            case OpenResponse(_) => 0x11
                            case RequestChunk(_) => 0x20
                            case ResponseChunk(_) => 0x21
                            case RequestEnd => 0x30
                            case ResponseEnd => 0x31
                            case Error(_) => 0x40
    ensures Encode(f)[1..] ==
            if f.RequestEnd? || f.ResponseEnd? then [] else Varint.Encode(|LaidOut(f)|) + LaidOut(f)
  {
    FrameOpcode(f);
    AfterOpcode(f);
    BodyLayout(f);
  }
}
