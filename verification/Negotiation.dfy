/** How a streaming call opens: the client's open request, the server's registry lookup and acknowledgement,
    and what `call_streaming` returns. */
module Negotiation {
  import opened Bytes
  import opened Errors
  import opened Quic
  import opened Streaming
  import opened StreamingIo
  import opened FrameStreams
  import opened Pumps
  import opened Call
  import opened Registry

  // ---- the server

  /** What the server has read of the open request, its opcode consumed. */
  function OpenRead(bytes: seq<byte>): Option<StreamingOpenRequest> {
    match ParseAfterOpcode(OPCODE_OPEN_REQUEST, bytes)
    case Got(OpenRequest(b), _) => Some(b)
    case _ => None
  }

  function AckFor(handlers: HandlerMap, order: seq<Text>, b: StreamingOpenRequest): Frame
    requires Enumerates(order, handlers)
  {
    AckFrame(StreamingOf(handlers, order, b.methodName).Some?, b.methodName, b.requestId)
  }

  /** Reads the request, looks the method up and acknowledges; yields the handler if the call is open. */
  method StreamingNegotiateOpen(handlers: HandlerMap, order: seq<Text>, recv: RecvStream, send: SendStream)
    returns (handler: Option<nat>)
    requires Enumerates(order, handlers)
    requires OpenRead(recv.pending).Some? ==> WellTyped(AckFor(handlers, order, OpenRead(recv.pending).value))
    modifies recv, send
    ensures OpenRead(old(recv.pending)).None? ==> handler.None? && send.written == old(send.written)
    ensures OpenRead(old(recv.pending)).Some? ==>
              var b := OpenRead(old(recv.pending)).value;
              var known := StreamingOf(handlers, order, b.methodName).Some?;
              var refusal := Ascii("unknown streaming method: ") + b.methodName;
              var status := if known then StatusOk else StatusErr(refusal);
              var e := Encode(OpenResponse(StreamingOpenResponse(status, b.requestId)));
              send.written == old(send.written) + Took(e, old(send.room))
              && handler == (if |e| <= old(send.room) then StreamingOf(handlers, order, b.methodName) else None)
              && send.finished ==
                 (old(send.finished) || (|e| <= old(send.room) && !known))
  {
    var read := ReadStreamingFrameAfterOpcode(recv, OPCODE_OPEN_REQUEST);
    match read
    case Ok(OpenRequest(b)) =>
      handler := StreamingOf(handlers, order, b.methodName);
      if handler.None? {
        var ack := OpenResponse(StreamingOpenResponse(StatusErr(UNKNOWN_STREAMING + b.methodName), b.requestId));
        var r := WriteFrame(send, ack);
        if r.Ok? { send.Finish(); }
        return None;
      }
      var r := WriteFrame(send, OpenResponse(StreamingOpenResponse(StatusOk, b.requestId)));
      if r.Err? { return None; }
    case _ => handler := None;
  }

  // ---- the client

  /** What opening returns once the acknowledgement has been read. */
  function Opened(read: RpcResult<Option<Frame>>): RpcResult<()> {
    match OpenError(read) case None => Ok(()) case Some(e) => Err(e)
  }

  method SendOpen(send: SendStream, name: Text, id: nat) returns (r: RpcResult<()>)
    requires WellTyped(OpenRequest(StreamingOpenRequest(name, id)))
    modifies send
    ensures var e := Encode(OpenRequest(StreamingOpenRequest(name, id)));
            send.written == old(send.written) + Took(e, old(send.room))
            && r == (if |e| <= old(send.room) then Ok(()) else Err(WRITE_FAILED))
  {
    r := WriteFrame(send, OpenRequest(StreamingOpenRequest(name, id)));
  }

  /** Waits for the acknowledgement: live, the method is unknown, or the exchange failed. */
  method AwaitAck(recv: RecvStream) returns (r: RpcResult<()>)
    modifies recv
    ensures r == Opened(ReadOutcome(old(recv.pending), recv.ending))
  {
    var read := ReadStreamingFrame(recv);
    match read
    case Err(e) => r := Err(e);
    case Ok(Some(OpenResponse(b))) =>
      match b.status {
        case StatusOk => r := Ok(());
        case StatusErr(reason) =>
          if StartsWith(reason, UNKNOWN_STREAMING) {
            r := Err(UnknownMethod(reason[|UNKNOWN_STREAMING|..]));
          } else {
            r := Err(Handler(reason));
          }
      }
    case Ok(_) => r := Err(UNEXPECTED_FRAME);
  }

  // ---- both

  lemma OpenArrives(b: StreamingOpenRequest, more: seq<byte>)
    requires Sendable(OpenRequest(b))
    ensures var bytes := Encode(OpenRequest(b)) + more;
            bytes[0] == OPCODE_OPEN_REQUEST && OpenRead(bytes[1..]) == Some(b)
  {
    SendableRoundTrip(OpenRequest(b), more);
  }

  lemma AckDecoded(known: bool, name: Text, id: nat, more: seq<byte>)
    requires Sendable(AckFrame(known, name, id))
    ensures var read := ReadOutcome(Encode(AckFrame(known, name, id)) + more, Finished);
            read.Ok? && read.value.Some? && read.value.value.OpenResponse?
            && read.value.value.openResponse.requestId == id
    ensures Opened(ReadOutcome(Encode(AckFrame(known, name, id)) + more, Finished)) ==
            if known then Ok(()) else Err(UnknownMethod(name))
  {
    SendableRoundTrip(AckFrame(known, name, id), more);
    StripsPrefix(name);
  }

  lemma StripsPrefix(name: Text)
    ensures StartsWith(UNKNOWN_STREAMING + name, UNKNOWN_STREAMING)
    ensures (UNKNOWN_STREAMING + name)[|UNKNOWN_STREAMING|..] == name
  {
  }

  /** The whole handshake: for every registry and every name the server reads exactly the request the client
      wrote, and opening succeeds if and only if the registry resolves the name to a streaming handler;
      otherwise the caller gets `UnknownMethod` with exactly that name, whatever the name contains. */
  lemma HandshakeIsTyped(handlers: HandlerMap, order: seq<Text>, b: StreamingOpenRequest, after: seq<byte>,
                         replies: seq<byte>)
    requires Enumerates(order, handlers)
    requires Sendable(OpenRequest(b)) && Sendable(AckFor(handlers, order, b))
    ensures var bytes := Encode(OpenRequest(b)) + after;
            bytes[0] == OPCODE_OPEN_REQUEST && OpenRead(bytes[1..]) == Some(b)
    ensures Opened(ReadOutcome(Encode(AckFor(handlers, order, b)) + replies, Finished)) ==
            if StreamingOf(handlers, order, b.methodName).Some? then Ok(()) else Err(UnknownMethod(b.methodName))
    ensures var read := ReadOutcome(Encode(AckFor(handlers, order, b)) + replies, Finished);
            read.Ok? && read.value.Some? && read.value.value.OpenResponse?
            && read.value.value.openResponse.requestId == b.requestId
  {
    OpenArrives(b, after);
    AckDecoded(StreamingOf(handlers, order, b.methodName).Some?, b.methodName, b.requestId, replies);
  }

  /** In every registry that registrations with slash-free methods can produce, opening a streaming call succeeds
      if and only if what was registered last under the key the name stands for is a streaming handler, and it is
      that handler which is then run; a unary handler, like none at all, is `UnknownMethod` with that name. */
  lemma HandshakeByRegistration(regs: seq<Registration>, order: seq<Text>, b: StreamingOpenRequest,
                                found: Option<Text>, handler: nat, replies: seq<byte>)
    requires SlashFreeRegistrations(regs) && Enumerates(order, TableAfter(regs))
    requires StandsFor(regs, b.methodName, found)
    requires Sendable(OpenRequest(b)) && Sendable(AckFor(TableAfter(regs), order, b))
    ensures var entry := if found.None? then None else LastOf(regs, found.value);
            && Opened(ReadOutcome(Encode(AckFor(TableAfter(regs), order, b)) + replies, Finished)) ==
               (if entry.Some? && entry.value.StreamingHandler? then Ok(()) else Err(UnknownMethod(b.methodName)))
            && (StreamingOf(TableAfter(regs), order, b.methodName) == Some(handler) <==>
                  entry == Some(StreamingHandler(handler)))
  {
    var entry := if found.None? then None else LastOf(regs, found.value);
    var h := StreamingOf(TableAfter(regs), order, b.methodName);
    HandshakeIsTyped(TableAfter(regs), order, b, [], replies);
    LookupsByKind(regs, order, b.methodName, found, handler);
    if h.Some? { LookupsByKind(regs, order, b.methodName, found, h.value); }
    if entry.Some? && entry.value.StreamingHandler? {
      LookupsByKind(regs, order, b.methodName, found, entry.value.id);
    }
  }
}
