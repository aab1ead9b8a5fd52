/** Echo calls terminate and are exact: every run is bounded, none gets stuck, and one that can go no further
    has delivered exactly the chunks that were sent. */
module EchoRuns {
  import opened Bytes
  import opened Streaming
  import opened CallWire
  import opened Pumps
  import opened Call
  import opened CallInvariants
  import opened CallResponse
  import opened CallRuns
  import opened CallTheorems
  import opened Echo

  // ---- what ties the two directions together

  lemma TakenAllOk(script: seq<Chunk>, r: Request)
    requires ReaderInv(r) && EchoRequest(script, r) && r.taken <= r.forwarded
    ensures AllOk(r.taken) && AllOk(r.forwarded)
  {
    forall i | 0 <= i < |r.taken| ensures r.taken[i].Ok? { assert r.taken[i] == r.forwarded[i]; }
  }

  lemma LinkUntouched(s: State, t: State)
    requires EchoLink(s)
    requires t.opening == s.opening && t.resp.given == s.resp.given && t.resp.outcome == s.resp.outcome
    requires t.req.taken == s.req.taken && t.req.forwarded == s.req.forwarded
    requires t.req.receiverAlive == s.req.receiverAlive && t.req.reader == s.req.reader
    ensures EchoLink(t)
  {
  }

  lemma InboundLinkKept(script: seq<Chunk>, s: State, a: Action, n: Request)
    requires EchoLink(s) && EchoAction(script, s, a) && Allowed(s, a) && InboundStep(s.req, a) == Some(n)
    requires !a.RequestCancel? && !a.RequestRefused?
    ensures EchoLink(s.(req := n))
  {
  }

  lemma EmitLinkKept(script: seq<Chunk>, s: State, a: Action, n: Response)
    requires EchoLink(s) && EchoAction(script, s, a) && EmitStep(s.resp, a) == Some(n)
    ensures EchoLink(s.(resp := n))
  {
  }

  lemma EndedWriter(r: Request)
    requires ReaderInv(r) && WriterInv(r) && r.reader == Stopped(EndFrame)
    ensures r.writer == Done(Ended)
  {
  }

  /** Once the responses have ended, so has everything before them. */
  lemma EndedCall(cfg: Config, s: State)
    requires ReaderInv(s.req) && WriterInv(s.req) && TaskInv(cfg, s.resp) && ClientInv(cfg, s.resp)
    requires EchoResponse(s.resp) && EchoLink(s)
    ensures s.resp.reader.Stopped? ==> s.resp.outcome.Some?
    ensures s.resp.outcome.Some? ==> s.req.reader == Stopped(EndFrame) && s.req.writer == Done(Ended)
  {
    if s.resp.reader.Stopped? { EndExact(cfg, s.resp); }
    if s.resp.outcome.Some? { EndedWriter(s.req); }
  }

  predicate Cancels(a: Action) { a.WriterCancel? || a.RequestCancel? || a.RequestRefused? || a.ResponseRefused? }

  /** The client's and the server's cancellations find nothing left to cancel, and nobody is refused. */
  lemma NothingToCancel(cfg: Config, s: State, a: Action)
    requires EchoResponse(s.resp) && EchoLink(s) && Step(cfg, s, a).Some?
    requires s.resp.reader.Stopped? ==> s.resp.outcome.Some?
    requires s.resp.outcome.Some? ==> s.req.reader == Stopped(EndFrame) && s.req.writer == Done(Ended)
    ensures !Cancels(a)
  {
    match a
    case WriterCancel(_) =>
    case RequestCancel =>
    case RequestRefused =>
    case ResponseRefused =>
    case _ =>
  }

  // ---- every step of an echo call

  /** What a step keeps and gains, for the parts of the echo invariant. */
  ghost predicate EchoStepped(script: seq<Chunk>, s: State, t: State) {
    EchoRequest(script, t.req) && EchoResponse(t.resp) && EchoLink(t) && Progress(t) > Progress(s)
  }

  lemma EchoRequestSide(cfg: Config, script: seq<Chunk>, s: State, a: Action, t: State)
    requires EchoInv(cfg, script, s) && EchoAction(script, s, a) && Step(cfg, s, a) == Some(t) && !Cancels(a)
    requires IsWriter(a) || IsInbound(a) || IsOutbound(a)
    ensures EchoStepped(script, s, t)
  {
    if IsWriter(a) {
      EchoWriterKept(script, s.req, a);
      WriterProgress(s.req, a);
      WriterKeepsLink(s.req, a);
      LinkUntouched(s, t);
    } else if IsInbound(a) {
      EchoInboundKept(cfg, script, s.req, a);
      InboundProgress(cfg, script, s.req, a);
      InboundLinkKept(script, s, a, t.req);
    } else {
      EchoOutboundKept(script, s, a);
      OutboundProgress(s.req, a);
      OutboundKeepsLink(s.req, a);
      LinkUntouched(s, t);
    }
  }

  lemma WriterKeepsLink(r: Request, a: Action)
    requires WriterStep(r, a).Some?
    ensures var n := WriterStep(r, a).value;
            n.taken == r.taken && n.forwarded == r.forwarded && n.receiverAlive == r.receiverAlive
            && n.reader == r.reader
  {
  }

  lemma OutboundKeepsLink(r: Request, a: Action)
    requires OutboundStep(r, a).Some?
    ensures var n := OutboundStep(r, a).value;
            n.taken == r.taken && n.forwarded == r.forwarded && n.receiverAlive == r.receiverAlive
            && n.reader == r.reader
  {
  }

  lemma TaskKeepsLink(p: Response, a: Action)
    requires TaskStep(p, a).Some?
    ensures TaskStep(p, a).value.given == p.given && TaskStep(p, a).value.outcome == p.outcome
  {
  }

  lemma ReceiveKeepsLink(p: Response, a: Action)
    requires ReceiveStep(p, a).Some?
    ensures ReceiveStep(p, a).value.given == p.given && ReceiveStep(p, a).value.outcome == p.outcome
  {
  }

  lemma EchoTaskSide(cfg: Config, script: seq<Chunk>, s: State, a: Action, t: State)
    requires TaskInv(cfg, s.resp) && EchoRequest(script, s.req) && EchoResponse(s.resp) && EchoLink(s)
    requires EchoAction(script, s, a) && IsTask(a) && Step(cfg, s, a) == Some(t)
    ensures EchoStepped(script, s, t)
  {
    EchoTaskKept(cfg, s.resp, a);
    EmittingIsOk(cfg, s.resp);
    TaskProgress(s.resp, a);
    TaskKeepsLink(s.resp, a);
    LinkUntouched(s, t);
  }

  lemma EmittingIsOk(cfg: Config, p: Response)
    requires TaskInv(cfg, p) && EchoResponse(p)
    ensures p.task.Emitting? ==> p.task.item.Ok?
  {
    if p.task.Emitting? { assert p.drained[|p.drained| - 1] == p.given[|p.drained| - 1]; }
  }

  /** What a step of the response direction alone keeps and gains is all there is to keep and gain. */
  lemma ResponseSide(script: seq<Chunk>, s: State, n: Response)
    requires EchoRequest(script, s.req) && EchoResponse(n) && EchoLink(s)
    requires n.given == s.resp.given && n.outcome == s.resp.outcome && ResponseProgress(n) > ResponseProgress(s.resp)
    ensures EchoStepped(script, s, s.(resp := n))
  {
  }

  lemma EchoReceived(cfg: Config, p: Response, a: Action)
    requires ResponseInv(cfg, p) && EchoResponse(p) && ReceiveStep(p, a).Some?
    requires !a.CallerDropReceiver? && !a.ResponseRefused?
    ensures var n := ReceiveStep(p, a).value;
            EchoResponse(n) && ResponseProgress(n) > ResponseProgress(p) && n.given == p.given && n.outcome == p.outcome
  {
    EchoReceiveKept(cfg, p, a, ReceiveStep(p, a).value);
    ReceiveKeepsLink(p, a);
  }

  lemma ReceiveIsStep(cfg: Config, script: seq<Chunk>, s: State, a: Action, t: State)
    requires EchoAction(script, s, a) && IsReceive(a) && Step(cfg, s, a) == Some(t)
    ensures ReceiveStep(s.resp, a) == Some(t.resp) && t == s.(resp := t.resp) && !a.CallerDropReceiver?
  {
  }

  lemma EchoReceiveSide(cfg: Config, script: seq<Chunk>, s: State, a: Action, t: State)
    requires ResponseInv(cfg, s.resp) && EchoRequest(script, s.req) && EchoResponse(s.resp) && EchoLink(s)
    requires EchoAction(script, s, a) && IsReceive(a) && Step(cfg, s, a) == Some(t) && !Cancels(a)
    ensures EchoStepped(script, s, t)
  {
    ReceiveIsStep(cfg, script, s, a, t);
    assert !a.ResponseRefused?;
    EchoReceived(cfg, s.resp, a);
    ResponseSide(script, s, t.resp);
  }

  lemma EchoEmitSide(cfg: Config, script: seq<Chunk>, s: State, a: Action, t: State)
    requires EchoRequest(script, s.req) && EchoResponse(s.resp) && EchoLink(s)
    requires EchoAction(script, s, a) && IsEmit(a) && Step(cfg, s, a) == Some(t)
    ensures EchoStepped(script, s, t)
  {
    EchoEmitKept(script, s, a);
    EmitProgress(s.resp, a);
    EmitLinkKept(script, s, a, t.resp);
  }

  /** The echoing handler returns only when all requests are taken and echoed. */
  lemma EchoReturnSide(cfg: Config, script: seq<Chunk>, s: State, r: HandlerResult, t: State)
    requires ReaderInv(s.req) && InboxInv(s.req) && EchoRequest(script, s.req) && EchoResponse(s.resp) && EchoLink(s)
    requires EchoReturns(s, r) && ReturnStep(s, r) == Some(t)
    ensures EchoStepped(script, s, t)
  {
    TakenAllOk(script, s.req);
    assert r == ReturnedOk && s.req.taken == s.resp.given;
    assert s.req.taken + s.req.inbox == s.req.taken;
  }

  lemma EchoAckSide(cfg: Config, script: seq<Chunk>, s: State, t: State)
    requires TaskInv(cfg, s.resp) && Accepted(cfg)
    requires EchoRequest(script, s.req) && EchoResponse(s.resp) && EchoLink(s) && s.req.reader == Idle
    requires AckStep(s) == Some(t)
    ensures EchoStepped(script, s, t)
  {
    assert Quiet(s.resp);
  }

  lemma EchoOpenSide(cfg: Config, script: seq<Chunk>, s: State, t: State)
    requires WireInv(s.req.wire) && s.req.wire.got == [] && s.req.wire.log != []
             && s.req.wire.log[0] == OpenRequest(cfg.open)
    requires EchoRequest(script, s.req) && EchoResponse(s.resp) && EchoLink(s)
    requires ServerOpenStep(cfg, s) == Some(t)
    ensures EchoStepped(script, s, t)
  {
    FindsFrame(s.req.wire);
  }

  lemma EchoClientSide(cfg: Config, script: seq<Chunk>, s: State, t: State)
    requires WireInv(s.resp.wire) && TaskInv(cfg, s.resp) && Accepted(cfg) && s.resp.wire.got == []
    requires EchoRequest(script, s.req) && EchoResponse(s.resp) && EchoLink(s) && s.req.writer == Unopened
    requires s.resp.reader == Idle
    requires ClientAckStep(s) == Some(t)
    ensures EchoStepped(script, s, t)
  {
    if s.resp.wire.end.Some? { EndedWithResponseEnd(cfg, s.resp); }
    FindsFrame(s.resp.wire);
    FirstIsAck(cfg, s.resp);
    AckDecides(cfg);
  }

  lemma EchoJointSide(cfg: Config, script: seq<Chunk>, s: State, a: Action, t: State)
    requires ValidEcho(cfg, script) && EchoInv(cfg, script, s) && EchoAction(script, s, a)
             && JointStep(cfg, s, a) == Some(t)
    ensures EchoStepped(script, s, t)
  {
    match a
    case ServerOpen => EchoOpenSide(cfg, script, s, t);
    case ClientAck => EchoClientSide(cfg, script, s, t);
    case ServerAck => EchoAckSide(cfg, script, s, t);
    case HandlerReturn(r) => EchoReturnSide(cfg, script, s, r, t);
  }

  /** Every step keeps the echo invariant and raises the count. */
  lemma EchoStep(cfg: Config, script: seq<Chunk>, s: State, a: Action, t: State)
    requires ValidEcho(cfg, script) && EchoInv(cfg, script, s) && EchoAction(script, s, a) && Step(cfg, s, a) == Some(t)
    ensures EchoInv(cfg, script, t) && Progress(t) > Progress(s)
  {
    StepInv(cfg, s, a, t);
    EndedCall(cfg, s);
    NothingToCancel(cfg, s, a);
    if IsWriter(a) || IsInbound(a) || IsOutbound(a) { EchoRequestSide(cfg, script, s, a, t); }
    else if IsTask(a) { EchoTaskSide(cfg, script, s, a, t); }
    else if IsReceive(a) { EchoReceiveSide(cfg, script, s, a, t); }
    else if IsEmit(a) { EchoEmitSide(cfg, script, s, a, t); }
    else { EchoJointSide(cfg, script, s, a, t); }
  }
}
