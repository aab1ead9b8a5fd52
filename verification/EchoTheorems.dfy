/** An echo call never gets stuck before it has delivered everything, and it cannot go on for ever. */
module EchoTheorems {
  import opened Bytes
  import opened Streaming
  import opened FrameStreams
  import opened CallWire
  import opened Pumps
  import opened Call
  import opened CallInvariants
  import opened CallResponse
  import opened CallRuns
  import opened CallTheorems
  import opened Echo
  import opened EchoRuns
  import opened EchoBounds

  /** No action of the client, the server, the transport, this caller or this handler is possible. */
  ghost predicate Stuck(cfg: Config, script: seq<Chunk>, s: State) {
    forall a :: EchoAction(script, s, a) ==> Step(cfg, s, a).None?
  }

  lemma Blocked(cfg: Config, script: seq<Chunk>, s: State, a: Action)
    requires Stuck(cfg, script, s) && EchoAction(script, s, a)
    ensures Step(cfg, s, a).None?
  {
  }

  // ---- a blocked reader has read everything, and its stream is still open

  predicate Drought(w: Wire) { w.got == w.log && w.inFlight == [] && w.end.None? }

  /** A reader that cannot read while nothing is in flight has read all there is. */
  lemma NothingUnread(w: Wire)
    requires WireInv(w) && w.intact && w.inFlight == [] && !CanRead(w)
    ensures Drought(w)
  {
    var unread := Unread(w);
    ParseOfPrefix(unread, w.arrived);
    FirstIsWhole(unread);
    assert w.arrived + w.inFlight == w.arrived;
  }

  lemma RequestsDelivered(cfg: Config, script: seq<Chunk>, s: State)
    requires Stuck(cfg, script, s)
    ensures s.req.wire.inFlight == []
  {
    if s.req.wire.inFlight != [] { Blocked(cfg, script, s, DeliverRequest(|s.req.wire.inFlight|)); }
  }

  lemma ResponsesDelivered(cfg: Config, script: seq<Chunk>, s: State)
    requires Stuck(cfg, script, s)
    ensures s.resp.wire.inFlight == []
  {
    if s.resp.wire.inFlight != [] { Blocked(cfg, script, s, DeliverResponse(|s.resp.wire.inFlight|)); }
  }

  // ---- the caller's end

  lemma CallerBlocked(cfg: Config, script: seq<Chunk>, s: State)
    requires Stuck(cfg, script, s) && EchoResponse(s.resp)
    ensures s.resp.inbox == [] && !s.resp.reader.Holding?
  {
    Blocked(cfg, script, s, CallerReceive);
    Blocked(cfg, script, s, ResponseForward);
  }

  lemma AckReadBlocked(cfg: Config, script: seq<Chunk>, s: State)
    requires Stuck(cfg, script, s)
    ensures s.opening == Pending ==> !CanRead(s.resp.wire)
  {
    Blocked(cfg, script, s, ClientAck);
  }

  lemma ClientBlocked(cfg: Config, script: seq<Chunk>, s: State)
    requires Stuck(cfg, script, s)
    ensures s.resp.reader == Reading ==> !CanRead(s.resp.wire)
  {
    Blocked(cfg, script, s, ResponseRead);
  }

  /** If the responses have not ended, the client has read all that the server wrote. */
  lemma ClientWaits(cfg: Config, script: seq<Chunk>, s: State)
    requires Stuck(cfg, script, s) && LinkInv(cfg, s) && EchoLink(s) && WireInv(s.resp.wire) && EchoResponse(s.resp)
    requires !s.resp.reader.Stopped?
    ensures Drought(s.resp.wire)
  {
    CallerBlocked(cfg, script, s);
    ClientBlocked(cfg, script, s);
    AckReadBlocked(cfg, script, s);
    ResponsesDelivered(cfg, script, s);
    assert s.resp.reader == Reading || s.opening == Pending;
    NothingUnread(s.resp.wire);
  }

  // ---- the server task and the handler

  lemma DrainBlocked(cfg: Config, script: seq<Chunk>, s: State)
    requires Stuck(cfg, script, s)
    ensures DrainTakeStep(s.resp).None? && DrainSeeEndStep(s.resp).None? && DrainWriteStep(s.resp).None?
  {
    Blocked(cfg, script, s, DrainTake);
    Blocked(cfg, script, s, DrainSeeEnd);
    Blocked(cfg, script, s, DrainWrite);
  }

  lemma TaskBlocked(cfg: Config, script: seq<Chunk>, s: State)
    requires Stuck(cfg, script, s)
    ensures JoinStep(s.resp).None? && FinaliseStep(s.resp).None?
  {
    Blocked(cfg, script, s, Join);
    Blocked(cfg, script, s, Finalise);
  }

  lemma AckBlocked(cfg: Config, script: seq<Chunk>, s: State)
    requires Stuck(cfg, script, s)
    ensures ServerAckStep(s.resp).None?
  {
    Blocked(cfg, script, s, ServerAck);
  }

  /** The drain's item is a chunk of the script, so it can be written. */
  lemma ItemsAreSendable(cfg: Config, script: seq<Chunk>, s: State)
    requires ValidEcho(cfg, script) && EchoInv(cfg, script, s)
    ensures s.resp.task.Emitting? ==> SendableItem(s.resp.task.item)
    ensures forall i :: 0 <= i < |s.req.taken| ==> s.req.taken[i].Ok? && SendableItem(s.req.taken[i])
  {
    ItemsWithin(cfg, script, s);
    forall i | 0 <= i < |s.req.taken| ensures s.req.taken[i].Ok? && SendableItem(s.req.taken[i]) {
      assert s.req.taken[i] == Oks(script)[i] == Ok(script[i]);
    }
    if s.resp.task.Emitting? {
      var k := |s.resp.drained| - 1;
      assert s.resp.drained[k] == s.resp.given[k] == s.req.taken[k];
    }
  }

  /** The server waits for the handler with nothing left to write. */
  predicate AwaitsHandler(p: Response) { p.task == Draining && p.queue == [] && p.outcome.None? && p.senderAlive }

  lemma OpenIsReadable(cfg: Config, r: Request)
    requires WireInv(r.wire) && r.wire.intact && r.wire.inFlight == [] && RequestLog(cfg, r.wire.log)
             && r.wire.got == []
    ensures CanRead(r.wire)
  {
    if !CanRead(r.wire) { NothingUnread(r.wire); }
  }

  lemma OpenBlocked(cfg: Config, script: seq<Chunk>, s: State)
    requires Stuck(cfg, script, s)
    ensures s.resp.task == AwaitOpen ==> !CanRead(s.req.wire)
  {
    Blocked(cfg, script, s, ServerOpen);
  }

  lemma OpenIsSent(cfg: Config, script: seq<Chunk>, s: State)
    requires EchoInv(cfg, script, s) && Stuck(cfg, script, s)
    ensures s.resp.task != AwaitOpen
  {
    RequestsDelivered(cfg, script, s);
    OpenBlocked(cfg, script, s);
    if s.resp.task == AwaitOpen { OpenIsReadable(cfg, s.req); }
  }

  lemma TaskWaits(cfg: Config, p: Response)
    requires ValidConfig(cfg) && TaskInv(cfg, p) && EchoResponse(p) && p.wire.end.None? && p.task != AwaitOpen
    requires DrainTakeStep(p).None? && DrainSeeEndStep(p).None? && DrainWriteStep(p).None?
    requires JoinStep(p).None? && FinaliseStep(p).None? && ServerAckStep(p).None?
    requires p.task.Emitting? ==> SendableItem(p.task.item)
    ensures AwaitsHandler(p)
  {
  }

  lemma ServerWaits(cfg: Config, script: seq<Chunk>, s: State)
    requires ValidEcho(cfg, script) && EchoInv(cfg, script, s) && Stuck(cfg, script, s) && s.resp.wire.end.None?
    ensures AwaitsHandler(s.resp)
  {
    OpenIsSent(cfg, script, s);
    DrainBlocked(cfg, script, s);
    TaskBlocked(cfg, script, s);
    AckBlocked(cfg, script, s);
    ItemsAreSendable(cfg, script, s);
    TaskWaits(cfg, s.resp);
  }

  lemma HandlerHasEchoed(cfg: Config, script: seq<Chunk>, s: State)
    requires Stuck(cfg, script, s) && EchoLink(s) && AwaitsHandler(s.resp)
    requires forall i :: 0 <= i < |s.req.taken| ==> s.req.taken[i].Ok? && SendableItem(s.req.taken[i])
    ensures |s.req.taken| == |s.resp.given|
  {
    if |s.req.taken| == |s.resp.given| + 1 { Blocked(cfg, script, s, HandlerSend(s.req.taken[|s.resp.given|])); }
  }

  /** The handler has echoed all it has taken and waits for a request that has not come. */
  lemma HandlerWaits(cfg: Config, script: seq<Chunk>, s: State)
    requires Stuck(cfg, script, s) && EchoLink(s) && AwaitsHandler(s.resp) && |s.req.taken| == |s.resp.given|
    ensures s.req.inbox == [] && !s.req.reader.Stopped? && !s.req.reader.Holding?
  {
    Blocked(cfg, script, s, HandlerTake);
    Blocked(cfg, script, s, RequestForward);
    if s.req.reader.Stopped? { Blocked(cfg, script, s, HandlerReturn(ReturnedOk)); }
  }

  lemma RequestReaderWaits(cfg: Config, script: seq<Chunk>, s: State)
    requires Stuck(cfg, script, s) && WireInv(s.req.wire) && EchoRequest(script, s.req) && s.req.reader == Reading
    ensures Drought(s.req.wire)
  {
    RequestsDelivered(cfg, script, s);
    Blocked(cfg, script, s, RequestRead);
    NothingUnread(s.req.wire);
  }

  // ---- the client's pump and the caller

  lemma WriterBlocked(cfg: Config, script: seq<Chunk>, s: State)
    requires Stuck(cfg, script, s)
    ensures WriterTakeStep(s.req).None? && WriterSeeEndStep(s.req).None? && WriterWriteStep(s.req).None?
    ensures WriterFinishStep(s.req).None?
  {
    Blocked(cfg, script, s, WriterTake);
    Blocked(cfg, script, s, WriterSeeEnd);
    Blocked(cfg, script, s, WriterWrite);
    Blocked(cfg, script, s, WriterFinish);
  }

  lemma HandIsSendable(script: seq<Chunk>, r: Request)
    requires ValidScript(script) && WriterInv(r) && EchoRequest(script, r) && r.writer.Writing?
    ensures Sendable(RequestChunk(r.writer.chunk))
  {
    var k := |RequestChunks(r.wire.log)|;
    assert r.writer.chunk == r.sent[k] == script[k];
  }

  lemma PumpWaits(r: Request)
    requires WriterInv(r) && r.writer != Unopened && r.wire.end.None?
    requires r.writer.Writing? ==> Sendable(RequestChunk(r.writer.chunk))
    requires WriterTakeStep(r).None? && WriterSeeEndStep(r).None? && WriterWriteStep(r).None?
             && WriterFinishStep(r).None?
    ensures r.writer == Waiting && r.queue == [] && r.senderAlive
  {
  }

  /** While the request stream is open, its pump or the caller can act. */
  lemma CallerActs(cfg: Config, script: seq<Chunk>, s: State)
    requires ValidScript(script) && WriterInv(s.req) && EchoRequest(script, s.req)
    requires s.opening == Live && s.req.writer != Unopened && s.req.wire.end.None?
    ensures !Stuck(cfg, script, s)
  {
    if Stuck(cfg, script, s) {
      WriterBlocked(cfg, script, s);
      if s.req.writer.Writing? { HandIsSendable(script, s.req); }
      PumpWaits(s.req);
      if |s.req.sent| < |script| {
        Blocked(cfg, script, s, CallerSend(script[|s.req.sent|]));
      } else {
        Blocked(cfg, script, s, CallerDropSender);
      }
    }
  }

  lemma AcknowledgedIsLive(cfg: Config, s: State)
    requires LinkInv(cfg, s) && EchoLink(s) && TaskInv(cfg, s.resp) && s.resp.task == Draining && Drought(s.resp.wire)
    ensures s.opening == Live && s.req.writer != Unopened && s.req.reader != Idle
  {
  }

  /** An echo call is stuck only when its caller has seen the end of the responses. */
  lemma StuckOnlyAtTheEnd(cfg: Config, script: seq<Chunk>, s: State)
    requires ValidEcho(cfg, script) && EchoInv(cfg, script, s) && Stuck(cfg, script, s)
    ensures s.resp.reader == Stopped(EndFrame) && s.resp.inbox == []
  {
    CallerBlocked(cfg, script, s);
    if !s.resp.reader.Stopped? {
      ClientWaits(cfg, script, s);
      ServerWaits(cfg, script, s);
      ItemsAreSendable(cfg, script, s);
      HandlerHasEchoed(cfg, script, s);
      HandlerWaits(cfg, script, s);
      AcknowledgedIsLive(cfg, s);
      RequestReaderWaits(cfg, script, s);
      CallerActs(cfg, script, s);
      assert false;
    }
  }

  // ---- runs

  /** The state after some actions of an echo call, if each was possible. */
  function EchoRun(cfg: Config, script: seq<Chunk>, s: State, actions: seq<Action>): Option<State>
    decreases |actions|
  {
    if actions == [] then Some(s)
    else if !EchoAction(script, s, actions[0]) then None
    else match Step(cfg, s, actions[0])
      case None => None
      case Some(t) => EchoRun(cfg, script, t, actions[1..])
  }

  lemma {:induction false} EchoRunKeeps(cfg: Config, script: seq<Chunk>, s: State, actions: seq<Action>)
    requires ValidEcho(cfg, script) && EchoInv(cfg, script, s) && EchoRun(cfg, script, s, actions).Some?
    ensures var t := EchoRun(cfg, script, s, actions).value;
            EchoInv(cfg, script, t) && Progress(t) >= Progress(s) + |actions|
    decreases |actions|
  {
    if actions != [] {
      var t := Step(cfg, s, actions[0]).value;
      EchoStep(cfg, script, s, actions[0], t);
      EchoRunKeeps(cfg, script, t, actions[1..]);
    }
  }

  lemma EchoInit(cfg: Config, script: seq<Chunk>)
    requires ValidEcho(cfg, script)
    ensures EchoInv(cfg, script, Init(cfg)) && Progress(Init(cfg)) >= 0
  {
    InitInv(cfg);
  }

  lemma StuckIsExact(cfg: Config, script: seq<Chunk>, t: State)
    requires ValidEcho(cfg, script) && EchoInv(cfg, script, t) && Stuck(cfg, script, t)
    ensures t.resp.received == Oks(script) && t.resp.reader == Stopped(EndFrame)
    ensures t.resp.outcome == Some(ReturnedOk) && t.req.taken == Oks(script)
  {
    StuckOnlyAtTheEnd(cfg, script, t);
    EndExact(cfg, t.resp);
    ItemsWithin(cfg, script, t);
  }

  /** Every run of an echo call has at most `Bound` steps, and when it can go no further the caller has
      received exactly the chunks it sent, in order, and then the end. */
  lemma EchoTerminatesExactly(cfg: Config, script: seq<Chunk>, actions: seq<Action>)
    requires ValidEcho(cfg, script) && EchoRun(cfg, script, Init(cfg), actions).Some?
    ensures |actions| <= Bound(cfg, script)
    ensures var t := EchoRun(cfg, script, Init(cfg), actions).value;
            Stuck(cfg, script, t) ==>
              t.resp.received == Oks(script) && t.resp.reader == Stopped(EndFrame)
              && t.resp.outcome == Some(ReturnedOk) && t.req.taken == Oks(script)
  {
    var t := EchoRun(cfg, script, Init(cfg), actions).value;
    EchoInit(cfg, script);
    EchoRunKeeps(cfg, script, Init(cfg), actions);
    ProgressBounded(cfg, script, t);
    if Stuck(cfg, script, t) { StuckIsExact(cfg, script, t); }
  }
}
