/** What the steps of a call must not leave out: full channels, failing transports, aborted pumps and callers and
    handlers that leave. */
module CallFaults {
  import opened Bytes
  import opened Quic
  import opened Streaming
  import opened FrameStreams
  import opened Pumps
  import opened Call
  import opened CallRuns

  // ---- the four channels

  lemma ChannelSizes(cfg: Config, s: State)
    requires Inv(cfg, s)
    ensures |s.req.queue| <= 16 && |s.req.inbox| <= 16 && |s.resp.queue| <= 16 && |s.resp.inbox| <= 16
  {
  }

  /** In every reachable state each of the four channels holds at most 16 items. */
  lemma ChannelsAreBounded(cfg: Config, s: State)
    requires ValidConfig(cfg) && Reachable(cfg, s)
    ensures |s.req.queue| <= 16 && |s.req.inbox| <= 16 && |s.resp.queue| <= 16 && |s.resp.inbox| <= 16
  {
    ReachableInv(cfg, s);
    ChannelSizes(cfg, s);
  }

  /** A request sender waits exactly while its channel is full. */
  lemma RequestSendersWait(cfg: Config, s: State, c: Chunk)
    ensures s.opening == Live && s.req.senderAlive && !s.req.writer.Done? && Sendable(RequestChunk(c)) ==>
              (Step(cfg, s, CallerSend(c)).Some? <==> |s.req.queue| < 16)
    ensures s.req.reader.Holding? && s.req.receiverAlive ==>
              (Step(cfg, s, RequestForward).Some? <==> |s.req.inbox| < 16)
  {
  }

  /** A response sender waits exactly while its channel is full. */
  lemma ResponseSendersWait(cfg: Config, s: State, item: Item)
    ensures HandlerRunning(s.resp) && !s.resp.task.Joining? && s.resp.senderAlive && SendableItem(item) ==>
              (Step(cfg, s, HandlerSend(item)).Some? <==> |s.resp.queue| < 16)
    ensures s.resp.reader.Holding? && s.resp.receiverAlive ==>
              (Step(cfg, s, ResponseForward).Some? <==> |s.resp.inbox| < 16)
  {
  }

  // ---- the transport

  /** At any moment any number of bytes in flight may arrive, in order, or the connection may break behind them. */
  lemma RequestBytesMove(cfg: Config, s: State, n: nat)
    requires n <= |s.req.wire.inFlight|
    ensures n > 0 ==>
              Step(cfg, s, DeliverRequest(n)).Some?
              && var w := Step(cfg, s, DeliverRequest(n)).value.req.wire;
                 w.arrived == s.req.wire.arrived + s.req.wire.inFlight[..n] && w.inFlight == s.req.wire.inFlight[n..]
    ensures Step(cfg, s, LoseRequest(n)).Some?
    ensures var w := Step(cfg, s, LoseRequest(n)).value.req.wire;
            w.inFlight == s.req.wire.inFlight[..n]
            && w.arrived == s.req.wire.arrived && w.end == Some(Lost) && !w.intact
  {
  }

  lemma ResponseBytesMove(cfg: Config, s: State, n: nat)
    requires n <= |s.resp.wire.inFlight|
    ensures n > 0 ==>
              Step(cfg, s, DeliverResponse(n)).Some?
              && var w := Step(cfg, s, DeliverResponse(n)).value.resp.wire;
                 w.arrived == s.resp.wire.arrived + s.resp.wire.inFlight[..n] && w.inFlight == s.resp.wire.inFlight[n..]
    ensures Step(cfg, s, LoseResponse(n)).Some?
    ensures var w := Step(cfg, s, LoseResponse(n)).value.resp.wire;
            w.inFlight == s.resp.wire.inFlight[..n]
            && w.arrived == s.resp.wire.arrived && w.end == Some(Lost) && !w.intact
  {
  }

  /** Any chunk the client writes may be cut at any byte, and its pump then stops. */
  lemma ClientWritesFail(cfg: Config, s: State, cut: nat, end: Ending)
    requires s.req.writer.Writing? && Sendable(RequestChunk(s.req.writer.chunk)) && s.req.wire.end.None?
    requires cut < |Encode(RequestChunk(s.req.writer.chunk))|
    ensures Step(cfg, s, WriterFail(cut, end)).Some?
    ensures var r := Step(cfg, s, WriterFail(cut, end)).value.req;
            r.writer == Done(WriteFailed) && r.wire.end == Some(end) && r.queue == []
            && r.wire.written == s.req.wire.written + Encode(RequestChunk(s.req.writer.chunk))[..cut]
  {
  }

  /** Any item the server writes may be cut at any byte, and it then writes nothing more. */
  lemma ServerWritesFail(cfg: Config, s: State, cut: nat, end: Ending)
    requires s.resp.task.Emitting? && SendableItem(s.resp.task.item) && s.resp.wire.end.None?
    requires cut < |Encode(ItemFrame(s.resp.task.item))|
    ensures Step(cfg, s, DrainFail(cut, end)).Some?
    ensures var p := Step(cfg, s, DrainFail(cut, end)).value.resp;
            p.task == Joining(Broken) && p.wire.end == Some(end) && p.queue == []
            && p.wire.written == s.resp.wire.written + Encode(ItemFrame(s.resp.task.item))[..cut]
  {
  }

  // ---- aborts and departures

  /** Once the responses have ended the client can abort its request pump, and once the answer is out the server
      its own; neither can before. */
  lemma PumpsAreAborted(cfg: Config, s: State, cut: nat)
    ensures Step(cfg, s, WriterCancel(cut)).Some? <==>
            s.opening == Live && s.resp.reader.Stopped? && !s.req.writer.Done?
    ensures Step(cfg, s, WriterCancel(cut)).Some? ==>
              Step(cfg, s, WriterCancel(cut)).value.req.writer == Done(Cancelled)
    ensures Step(cfg, s, RequestCancel).Some? <==> s.resp.task.Closed? && !s.req.reader.Stopped?
    ensures Step(cfg, s, RequestCancel).Some? ==> Step(cfg, s, RequestCancel).value.req.reader == Stopped(Aborted)
  {
  }

  /** A caller may drop its sender and its receiver whenever it holds them. */
  lemma CallersMayLeave(cfg: Config, s: State)
    ensures Step(cfg, s, CallerDropSender).Some? <==> s.opening == Live && s.req.senderAlive
    ensures Step(cfg, s, CallerDropReceiver).Some? <==> s.opening == Live && s.resp.receiverAlive
  {
  }

  /** And so may a running handler. */
  lemma HandlersMayLeave(cfg: Config, s: State)
    ensures Step(cfg, s, HandlerDropRequests).Some? <==> HandlerRunning(s.resp) && s.req.receiverAlive
    ensures Step(cfg, s, HandlerDropSender).Some? <==> HandlerRunning(s.resp) && s.resp.senderAlive
  {
  }

  /** A running handler may return anything that can be written, and the server may have to wait for it. */
  lemma HandlersReturn(cfg: Config, s: State, r: HandlerResult)
    ensures Step(cfg, s, HandlerReturn(r)).Some? <==> HandlerRunning(s.resp) && Sendable(FinalFrame(r))
    ensures Step(cfg, s, HandlerReturn(r)).Some? ==> Step(cfg, s, HandlerReturn(r)).value.resp.outcome == Some(r)
    ensures Step(cfg, s, Join).Some? <==> s.resp.task.Joining? && s.resp.outcome.Some?
  {
  }
}
