/** A unary call end to end: the request frame, the server's dispatch and reply, and the client's decode. */
module Unary {
  import opened Bytes
  import opened Errors
  import opened Quic
  import opened Wire
  import opened Registry
  import Streaming
  import WireErrors
  import Postcard
  import Varint

  /** Both sides read at most this much. */
  const READ_LIMIT: nat := 8 * 1024 * 1024

  const EMPTY_REQUEST: RpcError := MalformedFrame(Ascii("empty request frame"))
  const NOT_UNARY: RpcError := MalformedFrame(Ascii("expected unary-request opcode"))
  const NOT_A_REQUEST: RpcError := MalformedFrame(Ascii("expected unary-request or streaming-open"))
  const EMPTY_RESPONSE: RpcError := MalformedFrame(Ascii("empty response frame"))
  const BAD_RESPONSE_OPCODE: RpcError := MalformedFrame(Ascii("unexpected response opcode"))
  const ERROR_BODY: RpcError := Codec(Ascii("postcard"))

  /** What each registered handler returns for a request. */
  type Handlers = (nat, seq<byte>) -> RpcResult<seq<byte>>

  datatype Server = Server(handlers: HandlerMap, order: seq<Text>, run: Handlers)

  ghost predicate ValidServer(s: Server) { Enumerates(s.order, s.handlers) }

  // ---- the request

  function RequestFrame(name: Text, request: seq<byte>): seq<byte> {
    [OPCODE_UNARY_REQUEST] + (NameBytes(name) + request)
  }

  method BuildUnaryRequestFrame(name: Text, request: seq<byte>) returns (frame: seq<byte>)
    ensures frame == RequestFrame(name, request)
  {
    var buf := new Buffer();
    buf.Push(OPCODE_UNARY_REQUEST);
    EncodeMethodName(name, buf);
    buf.Extend(request);
    frame := buf.bytes;
  }

  // ---- the server

  /** `dispatch_unary`: checks the opcode, splits off the name, looks the handler up and runs it. */
  function Dispatch(s: Server, frame: seq<byte>): RpcResult<seq<byte>>
    requires ValidServer(s)
  {
    if frame == [] then Err(EMPTY_REQUEST)
    else if frame[0] != OPCODE_UNARY_REQUEST then Err(NOT_UNARY)
    else match DecodeMethodName(frame[1..])
      case Err(e) => Err(e)
      case Ok((name, payload)) =>
        match UnaryOf(s.handlers, s.order, name)
        case None => Err(UnknownMethod(name))
        case Some(handler) => s.run(handler, payload)
  }

  /** The frame that answers a dispatch. */
  function ReplyFrame(r: RpcResult<seq<byte>>): seq<byte>
    requires r.Err? ==> WireErrors.Sendable(r.error)
  {
    match r
    case Ok(bytes) => [OPCODE_UNARY_RESPONSE] + bytes
    case Err(e) => [OPCODE_UNARY_ERROR] + WireErrors.Encode(WireErrors.FromRpcError(e))
  }

  /** What the server makes of everything that arrives on a substream: nothing, or an answer. */
  function Served(s: Server, bytes: seq<byte>, ending: Ending): Option<RpcResult<seq<byte>>>
    requires ValidServer(s) && (bytes != [] ==> bytes[0] != Streaming.OPCODE_OPEN_REQUEST)
  {
    if bytes == [] then None
    else if bytes[0] != OPCODE_UNARY_REQUEST then Some(Err(NOT_A_REQUEST))
    else if ending == Finished && |bytes| - 1 <= READ_LIMIT then Some(Dispatch(s, bytes))
    else None
  }

  /** Every error the server can answer with can be put into an envelope. */
  ghost predicate Answerable(r: Option<RpcResult<seq<byte>>>) {
    r.Some? && r.value.Err? ==> WireErrors.Sendable(r.value.error)
  }

  function ServedFrame(r: Option<RpcResult<seq<byte>>>): seq<byte>
    requires Answerable(r)
  {
    match r case None => [] case Some(answer) => ReplyFrame(answer)
  }

  /** Writes a whole frame and finishes, or fails with what the transport still took. */
  method WriteAndFinish(send: SendStream, frame: seq<byte>) returns (ok: bool)
    modifies send
    ensures ok == (|frame| <= old(send.room))
    ensures send.written == old(send.written) + Took(frame, old(send.room))
    ensures send.finished == (old(send.finished) || ok)
  {
    ok := send.WriteAll(frame);
    if ok { send.Finish(); }
  }

  method WriteResponse(send: SendStream, response: seq<byte>) returns (ok: bool)
    modifies send
    ensures ok == (|ReplyFrame(Ok(response))| <= old(send.room))
    ensures send.written == old(send.written) + Took(ReplyFrame(Ok(response)), old(send.room))
    ensures send.finished == (old(send.finished) || ok)
  {
    var buf := new Buffer();
    buf.Push(OPCODE_UNARY_RESPONSE);
    buf.Extend(response);
    ok := WriteAndFinish(send, buf.bytes);
  }

  method WriteError(send: SendStream, e: RpcError) returns (ok: bool)
    requires WireErrors.Sendable(e)
    modifies send
    ensures ok == (|ReplyFrame(Err(e))| <= old(send.room))
    ensures send.written == old(send.written) + Took(ReplyFrame(Err(e)), old(send.room))
    ensures send.finished == (old(send.finished) || ok)
  {
    var frame := [OPCODE_UNARY_ERROR] + WireErrors.Encode(WireErrors.FromRpcError(e));
    ok := WriteAndFinish(send, frame);
  }

  /** The server's substream task for anything but a streaming call, which `Call` covers: it consumes the
      opcode, reads the rest and puts the opcode back before dispatching. */
  method HandleInboundSubstream(s: Server, recv: RecvStream, send: SendStream)
    requires ValidServer(s) && (recv.pending != [] ==> recv.pending[0] != Streaming.OPCODE_OPEN_REQUEST)
    requires Answerable(Served(s, recv.pending, recv.ending))
    modifies recv, send
    ensures var r := Served(s, old(recv.pending), recv.ending);
            && send.written == old(send.written) + Took(ServedFrame(r), old(send.room))
            && send.finished == (old(send.finished) || (r.Some? && |ServedFrame(r)| <= old(send.room)))
  {
    ghost var all := recv.pending;
    var opcode := recv.ReadExact(1);
    if opcode.Err? {
      return;
    }
    if opcode.value[0] != OPCODE_UNARY_REQUEST {
      var _ := WriteError(send, NOT_A_REQUEST);
      return;
    }
    var tail := recv.ReadToEnd(READ_LIMIT);
    if tail.None? {
      return;
    }
    var buf := [OPCODE_UNARY_REQUEST] + tail.value;
    assert buf == all;
    var answer := Dispatch(s, buf);
    match answer
    case Ok(bytes) => var _ := WriteResponse(send, bytes);
    case Err(e) => var _ := WriteError(send, e);
  }

  // ---- the client

  function DecodeResponseFrame(buf: seq<byte>): RpcResult<seq<byte>> {
    if buf == [] then Err(EMPTY_RESPONSE)
    else if buf[0] == OPCODE_UNARY_RESPONSE then Ok(buf[1..])
    else if buf[0] == OPCODE_UNARY_ERROR then
      match WireErrors.Decode(buf[1..])
      case None => Err(ERROR_BODY)
      case Some(w) => Err(WireErrors.IntoRpcError(w))
    else Err(BAD_RESPONSE_OPCODE)
  }

  /** What the client makes of everything that comes back. */
  function Received(bytes: seq<byte>, ending: Ending): RpcResult<seq<byte>> {
    if ending == Finished && |bytes| <= READ_LIMIT then DecodeResponseFrame(bytes) else Err(READ_FAILED)
  }

  method SendRequest(send: SendStream, name: Text, request: seq<byte>) returns (r: RpcResult<()>)
    modifies send
    ensures r == if |RequestFrame(name, request)| <= old(send.room) then Ok(()) else Err(WRITE_FAILED)
    ensures send.written == old(send.written) + Took(RequestFrame(name, request), old(send.room))
    ensures send.finished == (old(send.finished) || r.Ok?)
  {
    var frame := BuildUnaryRequestFrame(name, request);
    var ok := WriteAndFinish(send, frame);
    r := if ok then Ok(()) else Err(WRITE_FAILED);
  }

  method ReceiveResponse(recv: RecvStream) returns (r: RpcResult<seq<byte>>)
    modifies recv
    ensures r == Received(old(recv.pending), recv.ending)
  {
    var buf := recv.ReadToEnd(READ_LIMIT);
    r := if buf.None? then Err(READ_FAILED) else DecodeResponseFrame(buf.value);
  }

  // ---- layout

  /** The three unary frames: opcode 0x00 with the length-prefixed name and the request, 0x01 with the response,
      and 0x02 with the error envelope. */
  lemma UnaryLayout(name: Text, request: seq<byte>, response: seq<byte>, e: RpcError)
    requires WireErrors.Sendable(e)
    ensures RequestFrame(name, request) == [0x00] + (Varint.Encode(|name|) + name + request)
    ensures ReplyFrame(Ok(response)) == [0x01] + response
    ensures ReplyFrame(Err(e)) == [0x02] + WireErrors.Encode(WireErrors.FromRpcError(e))
  {
  }

  /** A response frame is a success exactly if it begins with 0x01, and then is what follows; 0x02 brings the
      error of its envelope, and nothing or any other byte is malformed. */
  lemma ResponseByOpcode(buf: seq<byte>)
    ensures DecodeResponseFrame(buf).Ok? <==> buf != [] && buf[0] == 0x01
    ensures DecodeResponseFrame(buf).Ok? ==> DecodeResponseFrame(buf).value == buf[1..]
    ensures buf == [] || buf[0] > 0x02 || buf[0] == 0x00 ==>
              DecodeResponseFrame(buf).Err? && DecodeResponseFrame(buf).error.MalformedFrame?
    ensures buf != [] && buf[0] == 0x02 ==>
              DecodeResponseFrame(buf) == Err(match WireErrors.Decode(buf[1..])
                                              case None => ERROR_BODY
                                              case Some(w) => WireErrors.IntoRpcError(w))
  {
  }

  // ---- end to end

  /** What the call means: the handler's answer to the request, or why there is none. */
  function Meaning(s: Server, name: Text, request: seq<byte>): RpcResult<seq<byte>>
    requires ValidServer(s)
  {
    if |name| > MAX_METHOD_NAME_LEN then Err(NAME_TOO_LONG)
    else match UnaryOf(s.handlers, s.order, name)
      case None => Err(UnknownMethod(name))
      case Some(handler) => s.run(handler, request)
  }

  /** The error as the caller sees it after its one hop. */
  function Seen(r: RpcResult<seq<byte>>): RpcResult<seq<byte>> {
    match r case Ok(bytes) => Ok(bytes) case Err(e) => Err(WireErrors.IntoRpcError(WireErrors.FromRpcError(e)))
  }

  lemma RequestSplits(name: Text, request: seq<byte>)
    ensures RequestFrame(name, request) != [] && RequestFrame(name, request)[0] == OPCODE_UNARY_REQUEST
    ensures RequestFrame(name, request)[1..] == NameBytes(name) + request
  {
  }

  /** The server dispatches the built frame to what the call means. */
  lemma DispatchMeans(s: Server, name: Text, request: seq<byte>)
    requires ValidServer(s) && Postcard.IsText(name)
    ensures Dispatch(s, RequestFrame(name, request)) == Meaning(s, name, request)
  {
    RequestSplits(name, request);
    NameRoundTrip(name, request);
  }

  /** The client decodes every reply to the same success, or to the error one hop further on. */
  lemma ReplyDecodes(r: RpcResult<seq<byte>>)
    requires r.Err? ==> WireErrors.Sendable(r.error)
    ensures DecodeResponseFrame(ReplyFrame(r)) == Seen(r)
  {
    match r
    case Ok(bytes) => assert ReplyFrame(r)[1..] == bytes;
    case Err(e) =>
      var body := WireErrors.Encode(WireErrors.FromRpcError(e));
      assert ReplyFrame(r)[1..] == body && body + [] == body;
      WireErrors.EnvelopeRoundTrip(WireErrors.FromRpcError(e), []);
  }

  lemma ServedMeans(s: Server, name: Text, request: seq<byte>)
    requires ValidServer(s) && Postcard.IsText(name)
    ensures var frame := RequestFrame(name, request);
            frame[0] != Streaming.OPCODE_OPEN_REQUEST
            && Served(s, frame, Finished) ==
               if |NameBytes(name) + request| <= READ_LIMIT then Some(Meaning(s, name, request)) else None
  {
    RequestSplits(name, request);
    DispatchMeans(s, name, request);
  }

  /** What is behind the opcode fits what the server reads. */
  predicate Readable(name: Text, request: seq<byte>) { |NameBytes(name) + request| <= READ_LIMIT }

  /** What the client makes of its call: the write error if its frame was not taken whole, and otherwise the
      decode of everything the server answers to it. */
  function Exchange(s: Server, name: Text, request: seq<byte>, taken: bool): RpcResult<seq<byte>>
    requires ValidServer(s) && Postcard.IsText(name)
    requires var r := Meaning(s, name, request); r.Err? ==> WireErrors.Sendable(r.error)
  {
    ServedMeans(s, name, request);
    if !taken then Err(WRITE_FAILED)
    else Received(ServedFrame(Served(s, RequestFrame(name, request), Finished)), Finished)
  }

  /** For every name and request the exchange yields the handler's bytes, the mapped error, or `UnknownMethod`
      with exactly that name - and beyond the read limits or the name limit exactly one of the errors below. A
      request over the limit is given up by the server while the client may still be writing it: the write then
      fails, or it was taken whole and the answer is empty. */
  lemma CallEndToEnd(s: Server, name: Text, request: seq<byte>, taken: bool)
    requires ValidServer(s) && Postcard.IsText(name) && (Readable(name, request) ==> taken)
    requires var r := Meaning(s, name, request); r.Err? ==> WireErrors.Sendable(r.error)
    ensures var r := Meaning(s, name, request);
            Exchange(s, name, request, taken) ==
            if |NameBytes(name) + request| > 8 * 1024 * 1024 then Err(if taken then EMPTY_RESPONSE else WRITE_FAILED)
            else if |ReplyFrame(r)| > 8 * 1024 * 1024 then Err(READ_FAILED)
            else Seen(r)
    ensures |name| > 4096 ==> Meaning(s, name, request) == Err(NAME_TOO_LONG)
    ensures EMPTY_RESPONSE.MalformedFrame? && WRITE_FAILED.TransportWrite? && READ_FAILED.TransportRead?
    ensures NAME_TOO_LONG.MalformedFrame?
  {
    ServedMeans(s, name, request);
    ReplyDecodes(Meaning(s, name, request));
  }

  /** Within the limits, then: success is the handler's, a missing handler is named, and structured errors and
      handler texts arrive as they were. */
  lemma CallIsFaithful(s: Server, name: Text, request: seq<byte>, r: RpcResult<seq<byte>>)
    requires ValidServer(s) && Postcard.IsText(name)
    requires |name| <= 4096 && |NameBytes(name) + request| <= 8 * 1024 * 1024
    requires var h := UnaryOf(s.handlers, s.order, name);
             r == if h.None? then Err(UnknownMethod(name)) else s.run(h.value, request)
    requires (r.Err? ==> WireErrors.Sendable(r.error)) && |ReplyFrame(r)| <= 8 * 1024 * 1024
    ensures var got := Exchange(s, name, request, true);
            && (r.Ok? ==> got == r)
            && (r.Err? ==> got.Err? && WireErrors.Hop(r.error) == Some(got.error))
            && (r.Err? && (WireErrors.Structured(r.error) || r.error.Handler?) ==> got == r)
  {
    assert r == Meaning(s, name, request);
    CallEndToEnd(s, name, request, true);
    if r.Err? {
      WireErrors.HopPreserves(r.error);
      WireErrors.HopDecodes(r.error);
    }
  }

  // ---- from the registrations to the answer

  /** What a registry entry makes of a unary request: only one registered as unary runs. */
  function Answer(entry: Option<HandlerEntry>, name: Text, request: seq<byte>, run: Handlers): RpcResult<seq<byte>> {
    match entry
    case Some(UnaryHandler(handler)) => run(handler, request)
    case _ => Err(UnknownMethod(name))
  }

  /** In every registry that registrations with slash-free methods can produce, dispatching the frame built for a
      name runs exactly the handler registered last under the key the name stands for, on exactly the request,
      if that was registered as unary; otherwise - nothing registered, or a streaming handler - it answers
      `UnknownMethod` with exactly that name. */
  lemma DispatchByRegistration(regs: seq<Registration>, order: seq<Text>, run: Handlers, name: Text,
                               request: seq<byte>, found: Option<Text>)
    requires SlashFreeRegistrations(regs) && Enumerates(order, TableAfter(regs)) && StandsFor(regs, name, found)
    requires Postcard.IsText(name) && |name| <= 4096
    ensures Dispatch(Server(TableAfter(regs), order, run), RequestFrame(name, request)) ==
            Answer(if found.None? then None else LastOf(regs, found.value), name, request, run)
  {
    var s := Server(TableAfter(regs), order, run);
    DispatchMeans(s, name, request);
    var entry := if found.None? then None else LastOf(regs, found.value);
    var h := UnaryOf(s.handlers, order, name);
    if h.Some? { LookupsByKind(regs, order, name, found, h.value); }
    if entry.Some? && entry.value.UnaryHandler? { LookupsByKind(regs, order, name, found, entry.value.id); }
  }

  /** And so the whole call, within the limits: what the caller gets is what the last registration under the key
      the name stands for answers, errors one hop on. */
  lemma CallByRegistration(regs: seq<Registration>, order: seq<Text>, run: Handlers, name: Text,
                           request: seq<byte>, found: Option<Text>, r: RpcResult<seq<byte>>)
    requires SlashFreeRegistrations(regs) && Enumerates(order, TableAfter(regs)) && StandsFor(regs, name, found)
    requires Postcard.IsText(name) && |name| <= 4096 && |NameBytes(name) + request| <= 8 * 1024 * 1024
    requires r == Answer(if found.None? then None else LastOf(regs, found.value), name, request, run)
    requires (r.Err? ==> WireErrors.Sendable(r.error)) && |ReplyFrame(r)| <= 8 * 1024 * 1024
    ensures Meaning(Server(TableAfter(regs), order, run), name, request) == r
    ensures Exchange(Server(TableAfter(regs), order, run), name, request, true) == Seen(r)
  {
    var s := Server(TableAfter(regs), order, run);
    DispatchByRegistration(regs, order, run, name, request, found);
    DispatchMeans(s, name, request);
    CallEndToEnd(s, name, request, true);
  }
}
