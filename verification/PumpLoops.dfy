/** The pump, drain and finalise loops of both sides, each run alone against the streams and channels it
    owns, and what a writing loop on one side and a reading loop on the other make of each other. */
module PumpLoops {
  import opened Bytes
  import opened Errors
  import opened Quic
  import opened Streaming
  import opened StreamingIo
  import opened FrameStreams
  import opened Pumps
  import opened CallInvariants

  /** The receiving end of a channel: the items still to come before its senders are dropped. */
  class Receiver<T> {
    var items: seq<T>

    constructor (items: seq<T>)
      ensures this.items == items
    {
      this.items := items;
    }

    method Recv() returns (r: Option<T>)
      modifies this
      ensures r == if old(items) == [] then None else Some(old(items)[0])
      ensures items == if old(items) == [] then [] else old(items)[1..]
    {
      if items == [] {
        r := None;
      } else {
        r := Some(items[0]);
        items := items[1..];
      }
    }
  }

  /** The sending end of a channel whose receiver takes `room` more items and is then dropped. */
  class Sender<T> {
    var sent: seq<T>
    var room: nat

    constructor (room: nat)
      ensures sent == [] && this.room == room
    {
      this.sent := [];
      this.room := room;
    }

    method Send(item: T) returns (ok: bool)
      modifies this
      ensures ok == (old(room) > 0)
      ensures ok ==> sent == old(sent) + [item] && room == old(room) - 1
      ensures !ok ==> sent == old(sent) && room == 0
    {
      ok := room > 0;
      if ok {
        sent := sent + [item];
        room := room - 1;
      }
    }
  }

  // ---- the reading loops

  /** What one turn of a reading loop hands over, and why it is the last if it is. */
  datatype Turn = Turn(out: seq<Item>, stop: Option<Why>)

  function OneTurn(now: Reader, room: nat): (t: Turn)
    ensures |t.out| <= room
  {
    match now
    case Holding(item, after) =>
      Turn(if room == 0 then [] else [item],
           if after.None? && room == 0 && item.Ok? then Some(ReceiverGone) else after)
    case Stopped(why) => Turn([], Some(why))
    case _ => Turn([], None)
  }

  /** One turn over the bytes to come. */
  function TurnOf(side: Side, bs: seq<byte>, ending: Ending, room: nat): (t: Turn)
    ensures |t.out| <= room
  {
    OneTurn(OnRead(side, ReadOutcome(bs, ending)), room)
  }

  /** What a reading pump hands over and why it stops, from the frames it will read, how the reads end, and
      how many items its channel still takes. */
  function HandOver(side: Side, fs: seq<Frame>, last: RpcResult<()>, room: nat): (r: (seq<Item>, Why)) {
    if fs == [] then
      match last
      case Ok(_) => ([], EndOfBytes)
      case Err(e) => (if room == 0 then [] else [Err(e)], ReadFailure)
    else
      var turn := OneTurn(OnFrame(side, fs[0]), room);
      if turn.stop.Some? then (turn.out, turn.stop.value)
      else
        var more := HandOver(side, fs[1..], last, room - |turn.out|);
        (turn.out + more.0, more.1)
  }

  function Pumped(side: Side, bs: seq<byte>, ending: Ending, room: nat): (r: (seq<Item>, Why)) {
    var read := ReadAll(bs, ending);
    HandOver(side, read.0, read.1, room)
  }

  /** How one read and the later ones make up all reads. */
  predicate Begins(read: RpcResult<Option<Frame>>, more: (seq<Frame>, RpcResult<()>),
                   all: (seq<Frame>, RpcResult<()>)) {
    match read
    case Ok(Some(f)) => all == ([f] + more.0, more.1)
    case Ok(None) => all.0 == [] && all.1.Ok?
    case Err(e) => all == ([], Err(e))
  }

  lemma ReadStep(bs: seq<byte>, ending: Ending)
    ensures ParseFrame(bs).Got? ==>
            Begins(ReadOutcome(bs, ending), ReadAll(ParseFrame(bs).rest, ending), ReadAll(bs, ending))
    ensures !ParseFrame(bs).Got? ==>
              Begins(ReadOutcome(bs, ending), ([], Ok(())), ReadAll(bs, ending))
              && (ReadOutcome(bs, ending).Err? || ReadOutcome(bs, ending).value.None?)
  {
  }

  lemma HandOverStep(side: Side, read: RpcResult<Option<Frame>>, more: (seq<Frame>, RpcResult<()>),
                     all: (seq<Frame>, RpcResult<()>), room: nat, done: seq<Item>)
    requires Begins(read, more, all)
    ensures var turn := OneTurn(OnRead(side, read), room);
            if turn.stop.Some? then done + HandOver(side, all.0, all.1, room).0 == done + turn.out
            else read.Ok? && read.value.Some?
                 && done + HandOver(side, all.0, all.1, room).0
                    == done + turn.out + HandOver(side, more.0, more.1, room - |turn.out|).0
  {
    if read.Ok? && read.value.Some? { assert all.0[1..] == more.0; }
  }

  lemma HandOverTurn(side: Side, bs: seq<byte>, ending: Ending, more: (seq<Frame>, RpcResult<()>),
                     all: (seq<Frame>, RpcResult<()>), room: nat, done: seq<Item>)
    requires Begins(ReadOutcome(bs, ending), more, all)
    ensures var turn := TurnOf(side, bs, ending, room);
            if turn.stop.Some? then done + HandOver(side, all.0, all.1, room).0 == done + turn.out
            else ReadOutcome(bs, ending).Ok? && ReadOutcome(bs, ending).value.Some?
                 && done + HandOver(side, all.0, all.1, room).0
                    == done + turn.out + HandOver(side, more.0, more.1, room - |turn.out|).0
  {
    HandOverStep(side, ReadOutcome(bs, ending), more, all, room, done);
  }

  /** What is still to come after some items, before a turn and after it. */
  lemma PumpedStep(side: Side, bs: seq<byte>, ending: Ending, room: nat, done: seq<Item>)
    ensures var turn := TurnOf(side, bs, ending, room);
            if turn.stop.Some? then done + Pumped(side, bs, ending, room).0 == done + turn.out
            else ParseFrame(bs).Got?
                 && done + Pumped(side, bs, ending, room).0
                    == done + turn.out + Pumped(side, ParseFrame(bs).rest, ending, room - |turn.out|).0
  {
    ReadStep(bs, ending);
    var more := if ParseFrame(bs).Got? then ReadAll(ParseFrame(bs).rest, ending) else ([], Ok(()));
    HandOverTurn(side, bs, ending, more, ReadAll(bs, ending), room, done);
  }

  /** One turn of `PumpInboundRequests`, once the frame is read. */
  method HandOverRequest(read: RpcResult<Option<Frame>>, tx: Sender<Item>) returns (stop: bool)
    modifies tx
    ensures var turn := OneTurn(OnRead(Server, read), old(tx.room));
            tx.sent == old(tx.sent) + turn.out && tx.room == old(tx.room) - |turn.out| && stop == turn.stop.Some?
  {
    match read
    case Ok(Some(RequestChunk(bytes))) =>
      var ok := tx.Send(Ok(bytes));
      stop := !ok;
    case Ok(Some(RequestEnd)) => stop := true;
    case Ok(None) => stop := true;
    case Ok(Some(Error(err))) =>
      var _ := tx.Send(Err(Handler(err.message)));
      stop := err.terminal;
    case Ok(Some(other)) =>
      var _ := tx.Send(Err(UNEXPECTED_FRAME));
      stop := true;
    case Err(e) =>
      var _ := tx.Send(Err(e));
      stop := true;
  }

  /** Reads a frame and hands over what it brings. */
  method RequestTurn(recv: RecvStream, tx: Sender<Item>) returns (stop: bool)
    modifies recv, tx
    ensures var turn := TurnOf(Server, old(recv.pending), recv.ending, old(tx.room));
            tx.sent == old(tx.sent) + turn.out && tx.room == old(tx.room) - |turn.out| && stop == turn.stop.Some?
            && (!stop ==> recv.pending == ParseFrame(old(recv.pending)).rest)
  {
    var read := ReadStreamingFrame(recv);
    stop := HandOverRequest(read, tx);
  }

  /** The server's loop from the substream to the handler's request channel. */
  method PumpInboundRequests(recv: RecvStream, tx: Sender<Item>)
    modifies recv, tx
    ensures tx.sent == old(tx.sent) + Pumped(Server, old(recv.pending), recv.ending, old(tx.room)).0
  {
    ghost var all := tx.sent + Pumped(Server, recv.pending, recv.ending, tx.room).0;
    var stop := false;
    while !stop
      invariant all == if stop then tx.sent else tx.sent + Pumped(Server, recv.pending, recv.ending, tx.room).0
      decreases if stop then 0 else 1 + |recv.pending|
    {
      PumpedStep(Server, recv.pending, recv.ending, tx.room, tx.sent);
      stop := RequestTurn(recv, tx);
    }
  }

  /** One turn of `PumpInboundResponses`, once the frame is read. */
  method HandOverResponse(read: RpcResult<Option<Frame>>, tx: Sender<Item>) returns (stop: bool)
    modifies tx
    ensures var turn := OneTurn(OnRead(Client, read), old(tx.room));
            tx.sent == old(tx.sent) + turn.out && tx.room == old(tx.room) - |turn.out| && stop == turn.stop.Some?
  {
    match read
    case Ok(Some(ResponseChunk(bytes))) =>
      var ok := tx.Send(Ok(bytes));
      stop := !ok;
    case Ok(Some(ResponseEnd)) => stop := true;
    case Ok(None) => stop := true;
    case Ok(Some(Error(err))) =>
      var _ := tx.Send(Err(Handler(err.message)));
      stop := err.terminal;
    case Ok(Some(other)) =>
      var _ := tx.Send(Err(UNEXPECTED_FRAME));
      stop := true;
    case Err(e) =>
      var _ := tx.Send(Err(e));
      stop := true;
  }

  /** Reads a frame and hands over what it brings. */
  method ResponseTurn(recv: RecvStream, tx: Sender<Item>) returns (stop: bool)
    modifies recv, tx
    ensures var turn := TurnOf(Client, old(recv.pending), recv.ending, old(tx.room));
            tx.sent == old(tx.sent) + turn.out && tx.room == old(tx.room) - |turn.out| && stop == turn.stop.Some?
            && (!stop ==> recv.pending == ParseFrame(old(recv.pending)).rest)
  {
    var read := ReadStreamingFrame(recv);
    stop := HandOverResponse(read, tx);
  }

  /** The client's loop from the substream to the caller's response channel. */
  method PumpInboundResponses(recv: RecvStream, tx: Sender<Item>)
    modifies recv, tx
    ensures tx.sent == old(tx.sent) + Pumped(Client, old(recv.pending), recv.ending, old(tx.room)).0
  {
    ghost var all := tx.sent + Pumped(Client, recv.pending, recv.ending, tx.room).0;
    var stop := false;
    while !stop
      invariant all == if stop then tx.sent else tx.sent + Pumped(Client, recv.pending, recv.ending, tx.room).0
      decreases if stop then 0 else 1 + |recv.pending|
    {
      PumpedStep(Client, recv.pending, recv.ending, tx.room, tx.sent);
      stop := ResponseTurn(recv, tx);
    }
  }

  // ---- the writing loops

  lemma TookPart(before: seq<byte>, done: seq<byte>, e: seq<byte>, rest: seq<byte>, room: nat)
    requires |done| <= room
    ensures |e| > room - |done| ==> before + Took(done + e + rest, room) == before + done + Took(e, room - |done|)
    ensures |e| <= room - |done| ==> before + (done + e) == before + done + Took(e, room - |done|)
  {
    if |e| > room - |done| {
      assert (done + e + rest)[..room] == done + e[..room - |done|];
    }
  }

  /** `done` is written in full since there was room for `room` bytes. */
  ghost predicate Through(send: SendStream, before: seq<byte>, room: nat, done: seq<byte>)
    reads send
  {
    |done| <= room && send.room == room - |done| && send.written == before + done
  }

  /** Writes one more frame of a sequence of writes; `rest` is what would follow it. */
  method WriteNext(send: SendStream, f: Frame, ghost before: seq<byte>, ghost room: nat, ghost done: seq<byte>,
                   ghost rest: seq<byte>)
    returns (ok: bool)
    requires WellTyped(f) && Through(send, before, room, done)
    modifies send`written, send`room
    ensures ok ==> Through(send, before, room, done + Encode(f))
    ensures !ok ==> send.written == before + Took(done + Encode(f) + rest, room) && |done + Encode(f) + rest| > room
  {
    TookPart(before, done, Encode(f), rest, room);
    var r := WriteFrame(send, f);
    ok := r.Ok?;
  }

  /** Everything the client writes after the open request. */
  function Outbound(chunks: seq<Chunk>): seq<Frame> { ChunkFrames(chunks) + [RequestEnd] }

  lemma FirstWrite(fs: seq<Frame>, done: seq<byte>)
    requires AllSendable(fs) && fs != []
    ensures done + EncodeAll(fs) == done + Encode(fs[0]) + EncodeAll(fs[1..])
  {
  }

  lemma LastWrite(f: Frame, done: seq<byte>)
    requires Sendable(f)
    ensures done + EncodeAll([f]) == done + Encode(f) + []
  {
    FirstWrite([f], done);
    assert [f][1..] == [];
  }

  /** What the client has still to write. */
  function OutboundBytes(chunks: seq<Chunk>): seq<byte>
    requires AllSendable(ChunkFrames(chunks))
  {
    EncodeAll(Outbound(chunks))
  }

  lemma OutboundNext(chunks: seq<Chunk>, done: seq<byte>)
    requires AllSendable(ChunkFrames(chunks))
    ensures chunks != [] ==>
              Sendable(RequestChunk(chunks[0])) && AllSendable(ChunkFrames(chunks[1..]))
              && done + OutboundBytes(chunks) == done + Encode(RequestChunk(chunks[0])) + OutboundBytes(chunks[1..])
    ensures chunks == [] ==> done + OutboundBytes(chunks) == done + Encode(RequestEnd) + []
  {
    if chunks != [] {
      assert ChunkFrames(chunks)[0] == RequestChunk(chunks[0]);
      assert Outbound(chunks)[1..] == Outbound(chunks[1..]);
      FirstWrite(Outbound(chunks), done);
    } else {
      assert Outbound(chunks) == [RequestEnd];
      LastWrite(RequestEnd, done);
    }
  }

  /** The client's loop from the caller's request channel to the substream: everything sent and then the end
      frame, as far as the transport takes it; the stream is finished unless a chunk was cut. */
  method PumpOutboundRequests(send: SendStream, rx: Receiver<Chunk>)
    requires AllSendable(ChunkFrames(rx.items))
    modifies send, rx
    ensures send.written == old(send.written) + Took(OutboundBytes(old(rx.items)), old(send.room))
    ensures |OutboundBytes(old(rx.items))| <= old(send.room) ==> send.finished && rx.items == []
  {
    ghost var before, room, done, all := send.written, send.room, [], OutboundBytes(rx.items);
    while true
      invariant AllSendable(ChunkFrames(rx.items)) && all == done + OutboundBytes(rx.items)
      invariant Through(send, before, room, done)
      decreases |rx.items|
    {
      OutboundNext(rx.items, done);
      var chunk := rx.Recv();
      if chunk.None? { break; }
      var ok := WriteNext(send, RequestChunk(chunk.value), before, room, done, OutboundBytes(rx.items));
      if !ok { return; }
      done := done + Encode(RequestChunk(chunk.value));
    }
    var _ := WriteNext(send, RequestEnd, before, room, done, []);
    send.Finish();
  }

  // ---- the server's writing loop and its closing frame

  predicate AllSendableItems(items: seq<Item>) { forall i :: 0 <= i < |items| ==> Sendable(ItemFrame(items[i])) }

  /** The frames of the drain: an in-band failure is the last thing it writes. */
  function DrainFrames(items: seq<Item>): seq<Frame> {
    if items == [] then [] else [ItemFrame(items[0])] + (if items[0].Err? then [] else DrainFrames(items[1..]))
  }

  lemma {:induction false} DrainSendable(items: seq<Item>)
    requires AllSendableItems(items)
    ensures AllSendable(DrainFrames(items))
  {
    if items != [] && items[0].Ok? { DrainSendable(items[1..]); }
  }

  /** What the drain has still to write, as bytes. */
  function DrainBytes(items: seq<Item>): seq<byte>
    requires AllSendableItems(items)
  {
    DrainSendable(items);
    EncodeAll(DrainFrames(items))
  }

  lemma DrainNext(items: seq<Item>, done: seq<byte>)
    requires AllSendableItems(items)
    ensures items != [] && items[0].Ok? ==>
              AllSendableItems(items[1..])
              && done + DrainBytes(items) == done + Encode(ItemFrame(items[0])) + DrainBytes(items[1..])
    ensures items != [] && items[0].Err? ==> done + DrainBytes(items) == done + Encode(ItemFrame(items[0])) + []
    ensures items == [] ==> done + DrainBytes(items) == done
  {
    DrainSendable(items);
    if items != [] {
      FirstWrite(DrainFrames(items), done);
      assert DrainFrames(items)[1..] == if items[0].Err? then [] else DrainFrames(items[1..]);
    }
  }

  /** Writes what the handler sends until it has sent all, an in-band failure is written or a write fails;
      says whether the closing frame is then out of its hands. */
  method DrainHandlerResponses(send: SendStream, rx: Receiver<Item>) returns (wroteTerminal: bool)
    requires AllSendableItems(rx.items)
    modifies send`written, send`room, rx
    ensures send.written == old(send.written) + Took(DrainBytes(old(rx.items)), old(send.room))
    ensures wroteTerminal <==> |DrainBytes(old(rx.items))| > old(send.room) || !AllOk(old(rx.items))
    ensures !wroteTerminal ==> send.room == old(send.room) - |DrainBytes(old(rx.items))|
  {
    ghost var before, room, done, all := send.written, send.room, [], DrainBytes(rx.items);
    ghost var fine := AllOk(rx.items);
    while true
      invariant AllSendableItems(rx.items) && all == done + DrainBytes(rx.items)
      invariant Through(send, before, room, done) && fine == AllOk(rx.items)
      decreases |rx.items|
    {
      DrainNext(rx.items, done);
      AllOkNext(rx.items);
      var item := rx.Recv();
      match item
      case None => return false;
      case Some(Ok(chunk)) =>
        var ok := WriteNext(send, ResponseChunk(chunk), before, room, done, DrainBytes(rx.items));
        if !ok { return true; }
        done := done + Encode(ResponseChunk(chunk));
      case Some(Err(err)) =>
        var _ := WriteNext(send, TerminalError(err), before, room, done, []);
        return true;
    }
  }

  lemma AllOkNext(items: seq<Item>)
    ensures items == [] ==> AllOk(items)
    ensures items != [] ==> (AllOk(items) <==> items[0].Ok? && AllOk(items[1..]))
  {
    if items != [] { assert items == [items[0]] + items[1..]; }
  }

  /** The frames after an accepting acknowledgement: what the drain writes and, unless an in-band failure
      closed the call, what the handler's result adds. */
  function ServedFrames(items: seq<Item>, result: HandlerResult): seq<Frame> {
    DrainFrames(items) + (if AllOk(items) then [FinalFrame(result)] else [])
  }

  function ServedBytes(items: seq<Item>, result: HandlerResult): seq<byte>
    requires AllSendableItems(items) && Sendable(FinalFrame(result))
  {
    DrainSendable(items);
    EncodeAll(ServedFrames(items, result))
  }

  lemma ServedSplit(items: seq<Item>, result: HandlerResult)
    requires AllSendableItems(items) && Sendable(FinalFrame(result))
    ensures ServedBytes(items, result) == DrainBytes(items) + (if AllOk(items) then Encode(FinalFrame(result)) else [])
  {
    DrainSendable(items);
    if AllOk(items) {
      EncodeAllSnoc(DrainFrames(items), FinalFrame(result));
    } else {
      assert DrainFrames(items) + [] == DrainFrames(items);
    }
  }

  method FinaliseStreaming(send: SendStream, result: HandlerResult)
    requires Sendable(FinalFrame(result))
    modifies send`written, send`room
    ensures send.written == old(send.written) + Took(Encode(FinalFrame(result)), old(send.room))
  {
    match result
    case ReturnedOk => var _ := WriteFrame(send, ResponseEnd);
    case ReturnedErr(e) => var _ := WriteFrame(send, TerminalError(e));
    case JoinFailed(cause) => var _ := WriteFrame(send, Error(StreamingError(JOIN_FAILURE + cause, true)));
  }

  lemma TookTwice(a: seq<byte>, b: seq<byte>, room: nat)
    ensures |a| > room ==> Took(a + b, room) == Took(a, room)
    ensures |a| <= room ==> Took(a + b, room) == a + Took(b, room - |a|)
  {
    if |a| > room {
      assert (a + b)[..room] == a[..room];
    } else if |a + b| > room {
      assert (a + b)[..room] == a + b[..room - |a|];
    }
  }

  /** What a transport takes of the whole answer, in its two parts. */
  lemma ServedTook(items: seq<Item>, result: HandlerResult, room: nat, before: seq<byte>)
    requires AllSendableItems(items) && Sendable(FinalFrame(result))
    ensures var d := DrainBytes(items);
            before + Took(ServedBytes(items, result), room) ==
            if |d| > room || !AllOk(items) then before + Took(d, room)
            else before + Took(d, room) + Took(Encode(FinalFrame(result)), room - |d|)
  {
    ServedSplit(items, result);
    TookParts(before, DrainBytes(items), Encode(FinalFrame(result)), AllOk(items), room);
  }

  lemma TookParts(before: seq<byte>, a: seq<byte>, b: seq<byte>, both: bool, room: nat)
    ensures before + Took(a + (if both then b else []), room) ==
            if |a| > room || !both then before + Took(a, room)
            else before + Took(a, room) + Took(b, room - |a|)
  {
    if both { TookTwice(a, b, room); } else { assert a + [] == a; }
  }

  /** The server's answer once the handler has sent all it will and returned: drained, closed by the result
      if nothing closed it before, and finished. */
  method AnswerStreaming(send: SendStream, rx: Receiver<Item>, result: HandlerResult)
    requires AllSendableItems(rx.items) && Sendable(FinalFrame(result))
    modifies send, rx
    ensures send.written == old(send.written) + Took(ServedBytes(old(rx.items), result), old(send.room))
    ensures send.finished
  {
    ServedTook(rx.items, result, send.room, send.written);
    var wroteTerminal := DrainHandlerResponses(send, rx);
    if !wroteTerminal {
      FinaliseStreaming(send, result);
    }
    send.Finish();
  }
}
