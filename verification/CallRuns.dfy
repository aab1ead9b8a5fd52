/** The invariants of both directions hold in every reachable state of a streaming call. */
module CallRuns {
  import opened Bytes
  import opened Errors
  import opened Streaming
  import opened CallWire
  import opened Pumps
  import opened Call
  import opened CallInvariants
  import opened CallResponse
  import opened CallResponseSteps

  /** How the two directions and the opening handshake hang together. */
  predicate LinkInv(cfg: Config, s: State) {
    && (s.opening == Pending <==> s.req.writer == Unopened)
    && (s.opening == Live <==> s.resp.reader != Idle)
    && (s.opening == Pending ==> s.resp.wire.got == [])
    && (s.opening.Failed? ==> OpenFailure(cfg, s.resp.wire.got, s.opening.error))
    && (s.resp.task == AwaitOpen ==> s.req.wire.got == [])
    && (s.resp.task.Acking? || s.resp.task == TurnedAway ==> s.req.wire.got != [])
    && (RunningTask(s.resp.task) || s.resp.task == Closed(true) ==> s.req.reader != Idle)
    && (s.req.reader != Idle ==> RunningTask(s.resp.task) || s.resp.task.Closed?)
  }

  /** Why `call_streaming` fails: the method is unknown to the server, or the transport failed. */
  predicate OpenFailure(cfg: Config, got: seq<Frame>, e: RpcError) {
    || (got == [Acknowledgement(cfg)] && !Accepted(cfg) && e == UnknownMethod(cfg.open.methodName))
    || (got == [] && (e == READ_FAILED || e == UNEXPECTED_FRAME))
  }

  ghost predicate Inv(cfg: Config, s: State) {
    RequestInv(cfg, s.req) && ResponseInv(cfg, s.resp) && LinkInv(cfg, s)
  }

  lemma InitRequestAccounts(cfg: Config, r: Request)
    requires r.senderAlive && r.sent == [] && r.queue == [] && r.writer == Unopened && r.reader == Idle
    requires r.wire.log == [OpenRequest(cfg.open)] && r.wire.got == [] && r.wire.end.None?
    requires r.forwarded == [] && r.inbox == [] && r.receiverAlive && r.taken == []
    ensures RequestAccounts(cfg, r)
  {
    RequestChunksSnoc([], OpenRequest(cfg.open));
    assert [] + [OpenRequest(cfg.open)] == r.wire.log;
    assert RequestChunks(r.wire.log) == [];
  }

  lemma InitInv(cfg: Config)
    requires ValidConfig(cfg)
    ensures Inv(cfg, Init(cfg))
  {
    FreshInv();
    OfferInv(FRESH, OpenRequest(cfg.open));
    assert Init(cfg).req.wire.log == [OpenRequest(cfg.open)];
    InitRequestAccounts(cfg, Init(cfg).req);
  }

  // ---- the steps that touch both directions

  /** The server reads the open request the client wrote, or nothing at all. */
  lemma ServerReadsOpen(cfg: Config, r: Request)
    requires RequestInv(cfg, r) && r.wire.got == [] && CanRead(r.wire)
    ensures WireInv(AfterRead(r.wire))
    ensures AfterRead(r.wire) == r.wire.(arrived := AfterRead(r.wire).arrived, got := AfterRead(r.wire).got)
    ensures var read := ReadNow(r.wire);
            if read.Ok? && read.value.Some?
            then read.value.value == OpenRequest(cfg.open) && AfterRead(r.wire).got == [OpenRequest(cfg.open)]
            else AfterRead(r.wire).got == []
  {
    ReadInv(r.wire);
  }

  lemma ServerOpenRequest(cfg: Config, r: Request)
    requires RequestInv(cfg, r) && r.wire.got == [] && r.reader == Idle && CanRead(r.wire)
    ensures RequestInv(cfg, r.(wire := AfterRead(r.wire)))
  {
    ServerReadsOpen(cfg, r);
    OpenReadAccounts(cfg, r, r.(wire := AfterRead(r.wire)));
  }

  lemma ServerOpenResponse(cfg: Config, p: Response)
    requires ResponseInv(cfg, p) && p.task == AwaitOpen
    ensures ResponseInv(cfg, p.(task := Acking(Acknowledgement(cfg))))
    ensures ResponseInv(cfg, p.(wire := Close(p.wire), task := Closed(false)))
  {
    AckPrepared(cfg, p, p.(task := Acking(Acknowledgement(cfg))));
    CloseInv(p.wire);
    OpenFails(cfg, p, p.(wire := Close(p.wire), task := Closed(false)));
  }

  /** The two outcomes of reading the open request. */
  lemma ServerOpenOutcome(cfg: Config, s: State, t: State)
    requires RequestInv(cfg, s.req) && s.req.wire.got == [] && ServerOpenStep(cfg, s) == Some(t)
    ensures t == s.(req := s.req.(wire := AfterRead(s.req.wire)), resp := t.resp)
    ensures (t.resp == s.resp.(task := Acking(Acknowledgement(cfg))) && t.req.wire.got != [])
            || t.resp == s.resp.(wire := Close(s.resp.wire), task := Closed(false))
  {
    ServerReadsOpen(cfg, s.req);
  }

  lemma ServerOpenLink(cfg: Config, s: State, t: State)
    requires LinkInv(cfg, s) && ServerOpenStep(cfg, s) == Some(t)
    requires t.resp.task.Acking? ==> t.req.wire.got != []
    ensures LinkInv(cfg, t)
  {
  }

  lemma ServerOpenInv(cfg: Config, s: State, t: State)
    requires Inv(cfg, s) && ServerOpenStep(cfg, s) == Some(t)
    ensures Inv(cfg, t)
  {
    assert s.req.wire.got == [] && s.req.reader == Idle;
    ServerOpenOutcome(cfg, s, t);
    ServerOpenRequest(cfg, s.req);
    ServerOpenResponse(cfg, s.resp);
    ServerOpenLink(cfg, s, t);
  }

  lemma OpenReadAccounts(cfg: Config, r: Request, n: Request)
    requires RequestAccounts(cfg, r) && r.reader == Idle && r.wire.got == []
    requires n == r.(wire := r.wire.(arrived := n.wire.arrived, got := n.wire.got)) && |n.wire.got| <= 1
    ensures RequestAccounts(cfg, n)
  {
  }

  lemma AckPrepared(cfg: Config, p: Response, n: Response)
    requires ResponseInv(cfg, p) && p.task == AwaitOpen && n == p.(task := Acking(Acknowledgement(cfg)))
    ensures ResponseInv(cfg, n)
  {
    ClientUntouched(cfg, p, n);
  }

  lemma OpenFails(cfg: Config, p: Response, n: Response)
    requires ResponseAccounts(cfg, p) && p.task == AwaitOpen
    requires n == p.(wire := Close(p.wire), task := Closed(false))
    ensures ResponseAccounts(cfg, n)
  {
    ClientUntouched(cfg, p, n);
  }

  lemma FirstIsAck(cfg: Config, p: Response)
    requires TaskInv(cfg, p) && p.wire.log != []
    ensures p.wire.log[0] == Acknowledgement(cfg)
    ensures Accepted(cfg) <==> Acknowledgement(cfg).openResponse.status.StatusOk?
  {
    assert Word(cfg, p.drained)[0] == Acknowledgement(cfg);
  }

  /** What `call_streaming` makes of the acknowledgement: a refusal names exactly the method asked for. */
  lemma AckDecides(cfg: Config)
    ensures OpenError(Ok(Some(Acknowledgement(cfg)))) ==
            if Accepted(cfg) then None else Some(UnknownMethod(cfg.open.methodName))
  {
    var reason := UNKNOWN_STREAMING + cfg.open.methodName;
    assert reason[|UNKNOWN_STREAMING|..] == cfg.open.methodName;
  }

  lemma ClientReadsAck(cfg: Config, p: Response)
    requires ResponseInv(cfg, p) && p.wire.got == [] && CanRead(p.wire)
    ensures WireInv(AfterRead(p.wire))
    ensures AfterRead(p.wire) == p.wire.(arrived := AfterRead(p.wire).arrived, got := AfterRead(p.wire).got)
    ensures OpenError(ReadNow(p.wire)).None? ==> Accepted(cfg) && AfterRead(p.wire).got == [Acknowledgement(cfg)]
    ensures OpenError(ReadNow(p.wire)).Some? ==>
              OpenFailure(cfg, AfterRead(p.wire).got, OpenError(ReadNow(p.wire)).value)
  {
    var read := ReadNow(p.wire);
    ReadInv(p.wire);
    if read.Ok? && read.value.Some? {
      FirstIsAck(cfg, p);
      AckDecides(cfg);
      assert AfterRead(p.wire).got == [Acknowledgement(cfg)];
    }
  }

  lemma ClientAckResponse(cfg: Config, s: State, t: State)
    requires ResponseInv(cfg, s.resp) && s.resp.wire.got == [] && s.resp.reader == Idle && ClientAckStep(s) == Some(t)
    ensures ResponseInv(cfg, t.resp)
    ensures t.opening.Failed? ==> OpenFailure(cfg, t.resp.wire.got, t.opening.error)
  {
    ClientReadsAck(cfg, s.resp);
    AckReadAccounts(cfg, s.resp, t.resp);
  }

  lemma ClientAckRequest(cfg: Config, s: State, t: State)
    requires RequestInv(cfg, s.req) && s.req.writer == Unopened && ClientAckStep(s) == Some(t)
    ensures RequestInv(cfg, t.req)
  {
    if OpenError(ReadNow(s.resp.wire)).Some? {
      CloseInv(s.req.wire);
      WriterStops(cfg, s.req, t.req);
    } else {
      WriterOpens(cfg, s.req, t.req);
    }
  }

  lemma ClientAckLink(cfg: Config, s: State, t: State)
    requires LinkInv(cfg, s) && ClientAckStep(s) == Some(t)
    requires t.opening.Failed? ==> OpenFailure(cfg, t.resp.wire.got, t.opening.error)
    ensures LinkInv(cfg, t)
  {
  }

  lemma ClientAckInv(cfg: Config, s: State, t: State)
    requires Inv(cfg, s) && ClientAckStep(s) == Some(t)
    ensures Inv(cfg, t)
  {
    assert s.req.writer == Unopened && s.resp.wire.got == [] && s.resp.reader == Idle;
    ClientAckResponse(cfg, s, t);
    ClientAckRequest(cfg, s, t);
    ClientAckLink(cfg, s, t);
  }

  lemma WriterOpens(cfg: Config, r: Request, n: Request)
    requires RequestAccounts(cfg, r) && r.writer == Unopened && n == r.(writer := Waiting)
    ensures RequestAccounts(cfg, n)
  {
  }

  lemma AckReadClient(cfg: Config, p: Response)
    requires p.reader == Reading && Accepted(cfg) && p.wire.got == [Acknowledgement(cfg)] && p.forwarded == []
    ensures ClientInv(cfg, p)
  {
    assert DecodedItems([]) == [];
    DecodedItemsSnoc([], Acknowledgement(cfg));
    assert [] + [Acknowledgement(cfg)] == [Acknowledgement(cfg)];
  }

  lemma AckReadAccounts(cfg: Config, p: Response, n: Response)
    requires ResponseAccounts(cfg, p) && p.reader == Idle && p.wire.got == []
    requires n == p.(reader := n.reader, wire := p.wire.(arrived := n.wire.arrived, got := n.wire.got))
    requires n.reader == Idle || (n.reader == Reading && Accepted(cfg) && n.wire.got == [Acknowledgement(cfg)])
    requires |n.wire.got| <= 1
    ensures ResponseAccounts(cfg, n)
  {
    TaskUntouched(cfg, p, n);
    if n.reader == Reading { AckReadClient(cfg, n); }
  }

  lemma StartAccounts(cfg: Config, r: Request, n: Request)
    requires RequestAccounts(cfg, r) && r.reader == Idle && r.wire.got == [OpenRequest(cfg.open)]
    requires n == r.(reader := Reading)
    ensures RequestAccounts(cfg, n)
  {
    RequestChunksSnoc([], OpenRequest(cfg.open));
    assert [] + [OpenRequest(cfg.open)] == r.wire.got;
  }

  lemma ReaderStarts(cfg: Config, r: Request)
    requires RequestInv(cfg, r) && r.reader == Idle && r.wire.got != []
    ensures RequestInv(cfg, r.(reader := Reading))
  {
    assert r.wire.got[0] == r.wire.log[0];
    StartAccounts(cfg, r, r.(reader := Reading));
  }

  // ---- every step

  lemma WriterStepInv(cfg: Config, r: Request, a: Action)
    requires RequestInv(cfg, r) && WriterStep(r, a).Some?
    ensures RequestInv(cfg, WriterStep(r, a).value)
  {
    match a
    case WriterTake => WriterTakeInv(cfg, r);
    case WriterSeeEnd => WriterSeeEndInv(cfg, r);
    case WriterWrite => WriterWriteInv(cfg, r);
    case WriterFail(cut, end) => WriterFailInv(cfg, r, cut, end);
    case WriterFinish => WriterFinishInv(cfg, r);
    case WriterCancel(cut) => WriterCancelInv(cfg, r, cut);
  }

  lemma InboundStepInv(cfg: Config, r: Request, a: Action)
    requires RequestInv(cfg, r) && InboundStep(r, a).Some?
    ensures RequestInv(cfg, InboundStep(r, a).value)
  {
    match a
    case RequestRead => RequestReadInv(cfg, r);
    case RequestForward => RequestForwardInv(cfg, r);
    case RequestRefused => RequestRefusedInv(cfg, r);
    case RequestCancel => RequestCancelInv(cfg, r);
    case HandlerTake => HandlerTakeInv(cfg, r);
    case HandlerDropRequests => DropRequestsInv(cfg, r);
  }

  lemma OutboundStepInv(cfg: Config, r: Request, a: Action)
    requires RequestInv(cfg, r) && OutboundStep(r, a).Some?
    ensures RequestInv(cfg, OutboundStep(r, a).value)
  {
    match a
    case CallerSend(c) => CallerSendInv(cfg, r, c);
    case CallerDropSender => DropSenderInv(cfg, r);
    case DeliverRequest(n) => RequestWireInv(cfg, r, n);
    case LoseRequest(n) => RequestWireInv(cfg, r, n);
  }

  lemma TaskStepInv(cfg: Config, p: Response, a: Action)
    requires ResponseInv(cfg, p) && TaskStep(p, a).Some?
    ensures ResponseInv(cfg, TaskStep(p, a).value)
  {
    match a
    case DrainTake => DrainTakeInv(cfg, p);
    case DrainSeeEnd => SeeEndInv(cfg, p);
    case DrainWrite => DrainWriteInv(cfg, p);
    case DrainFail(cut, end) => DrainFailInv(cfg, p, cut, end);
    case Join => JoinInv(cfg, p);
    case Finalise => FinaliseInv(cfg, p);
  }

  lemma ReceiveStepInv(cfg: Config, p: Response, a: Action)
    requires ResponseInv(cfg, p) && ReceiveStep(p, a).Some?
    ensures ResponseInv(cfg, ReceiveStep(p, a).value)
  {
    match a
    case ResponseRead => ResponseReadInv(cfg, p);
    case ResponseForward => ResponseForwardInv(cfg, p);
    case ResponseRefused => ResponseRefusedInv(cfg, p);
    case CallerReceive => CallerReceiveInv(cfg, p);
    case CallerDropReceiver => ReceiverDropInv(cfg, p);
  }

  lemma EmitStepInv(cfg: Config, p: Response, a: Action)
    requires ResponseInv(cfg, p) && EmitStep(p, a).Some?
    ensures ResponseInv(cfg, EmitStep(p, a).value)
  {
    match a
    case HandlerSend(item) => HandlerSendInv(cfg, p, item);
    case HandlerDropSender => SenderDropInv(cfg, p);
    case DeliverResponse(n) => ResponseWireInv(cfg, p, n);
    case LoseResponse(n) => ResponseWireInv(cfg, p, n);
  }

  lemma AckLink(cfg: Config, s: State, t: State)
    requires LinkInv(cfg, s) && AckStep(s) == Some(t)
    ensures LinkInv(cfg, t)
    ensures s.req.reader == Idle && s.req.wire.got != []
  {
  }

  lemma AckStepInv(cfg: Config, s: State, t: State)
    requires Inv(cfg, s) && AckStep(s) == Some(t)
    ensures Inv(cfg, t)
  {
    AckLink(cfg, s, t);
    ServerAckInv(cfg, s.resp);
    ReaderStarts(cfg, s.req);
  }

  lemma ReturnStepInv(cfg: Config, s: State, r: HandlerResult, t: State)
    requires Inv(cfg, s) && ReturnStep(s, r) == Some(t)
    ensures Inv(cfg, t)
  {
    HandlerReturnInv(cfg, s.resp, r);
    DropRequestsInv(cfg, s.req);
  }

  /** What the handshake knows of the request direction. */
  predicate SameRequestLink(r: Request, n: Request) {
    && (n.writer == Unopened <==> r.writer == Unopened)
    && (r.reader == Idle ==> n.wire.got == r.wire.got && (n.reader == Idle || n.reader == Stopped(Aborted)))
    && (r.reader != Idle ==> n.reader != Idle)
    && (r.wire.got != [] ==> n.wire.got != [])
  }

  lemma WriterLink(r: Request, a: Action)
    requires WriterStep(r, a).Some? && (a.WriterCancel? ==> r.writer != Unopened)
    ensures SameRequestLink(r, WriterStep(r, a).value) && WriterStep(r, a).value.reader == r.reader
  {
  }

  lemma InboundLink(r: Request, a: Action)
    requires InboundStep(r, a).Some?
    ensures SameRequestLink(r, InboundStep(r, a).value)
    ensures !a.RequestCancel? && r.reader == Idle ==> InboundStep(r, a).value.reader == Idle || r.reader.Holding?
  {
  }

  lemma OutboundLink(r: Request, a: Action)
    requires OutboundStep(r, a).Some?
    ensures SameRequestLink(r, OutboundStep(r, a).value) && OutboundStep(r, a).value.reader == r.reader
  {
  }

  lemma RequestLinkKept(cfg: Config, s: State, n: Request)
    requires LinkInv(cfg, s) && SameRequestLink(s.req, n)
    requires s.req.reader == Idle && n.reader != Idle ==> s.resp.task.Closed?
    ensures LinkInv(cfg, s.(req := n))
  {
  }

  /** What the handshake knows of the response direction. */
  predicate SameLink(p: Response, n: Response) {
    && (n.reader == Idle <==> p.reader == Idle) && (p.wire.got == [] ==> p.reader == Idle ==> n.wire.got == [])
    && (p.reader == Idle ==> n.wire.got == p.wire.got)
    && (n.task == p.task || (RunningTask(p.task) && (RunningTask(n.task) || n.task.Closed?))
        || (p.task.Acking? && n.task == Closed(false)))
  }

  lemma TaskLink(p: Response, a: Action)
    requires TaskStep(p, a).Some?
    ensures SameLink(p, TaskStep(p, a).value)
  {
  }

  lemma ReceiveLink(p: Response, a: Action)
    requires ReceiveStep(p, a).Some?
    ensures SameLink(p, ReceiveStep(p, a).value)
  {
  }

  lemma EmitLink(p: Response, a: Action)
    requires EmitStep(p, a).Some?
    ensures SameLink(p, EmitStep(p, a).value)
  {
  }

  lemma ResponseLinkKept(cfg: Config, s: State, n: Response)
    requires LinkInv(cfg, s) && SameLink(s.resp, n)
    ensures LinkInv(cfg, s.(resp := n))
  {
  }

  lemma WriterSideInv(cfg: Config, s: State, a: Action, n: Request)
    requires Inv(cfg, s) && IsWriter(a) && Allowed(s, a) && WriterStep(s.req, a) == Some(n)
    ensures Inv(cfg, s.(req := n))
  {
    WriterStepInv(cfg, s.req, a);
    WriterLink(s.req, a);
    RequestLinkKept(cfg, s, n);
  }

  lemma InboundSideInv(cfg: Config, s: State, a: Action, n: Request)
    requires Inv(cfg, s) && IsInbound(a) && Allowed(s, a) && InboundStep(s.req, a) == Some(n)
    ensures Inv(cfg, s.(req := n))
  {
    InboundStepInv(cfg, s.req, a);
    InboundLink(s.req, a);
    RequestLinkKept(cfg, s, n);
  }

  lemma OutboundSideInv(cfg: Config, s: State, a: Action, n: Request)
    requires Inv(cfg, s) && IsOutbound(a) && Allowed(s, a) && OutboundStep(s.req, a) == Some(n)
    ensures Inv(cfg, s.(req := n))
  {
    OutboundStepInv(cfg, s.req, a);
    OutboundLink(s.req, a);
    RequestLinkKept(cfg, s, n);
  }

  lemma TaskSideInv(cfg: Config, s: State, a: Action, n: Response)
    requires Inv(cfg, s) && IsTask(a) && Allowed(s, a) && TaskStep(s.resp, a) == Some(n)
    ensures Inv(cfg, s.(resp := n))
  {
    TaskStepInv(cfg, s.resp, a);
    TaskLink(s.resp, a);
    ResponseLinkKept(cfg, s, n);
  }

  lemma ReceiveSideInv(cfg: Config, s: State, a: Action, n: Response)
    requires Inv(cfg, s) && IsReceive(a) && Allowed(s, a) && ReceiveStep(s.resp, a) == Some(n)
    ensures Inv(cfg, s.(resp := n))
  {
    ReceiveStepInv(cfg, s.resp, a);
    ReceiveLink(s.resp, a);
    ResponseLinkKept(cfg, s, n);
  }

  lemma EmitSideInv(cfg: Config, s: State, a: Action, n: Response)
    requires Inv(cfg, s) && IsEmit(a) && Allowed(s, a) && EmitStep(s.resp, a) == Some(n)
    ensures Inv(cfg, s.(resp := n))
  {
    EmitStepInv(cfg, s.resp, a);
    EmitLink(s.resp, a);
    ResponseLinkKept(cfg, s, n);
  }

  lemma JointSideInv(cfg: Config, s: State, a: Action, t: State)
    requires Inv(cfg, s) && JointStep(cfg, s, a) == Some(t)
    ensures Inv(cfg, t)
  {
    match a
    case ServerOpen => ServerOpenInv(cfg, s, t);
    case ClientAck => ClientAckInv(cfg, s, t);
    case ServerAck => AckStepInv(cfg, s, t);
    case HandlerReturn(r) => ReturnStepInv(cfg, s, r, t);
  }

  /** Every step keeps the invariants, whatever the interleaving and whatever fails. */
  lemma StepInv(cfg: Config, s: State, a: Action, t: State)
    requires Inv(cfg, s) && Step(cfg, s, a) == Some(t)
    ensures Inv(cfg, t)
  {
    if IsWriter(a) { WriterSideInv(cfg, s, a, t.req); }
    else if IsInbound(a) { InboundSideInv(cfg, s, a, t.req); }
    else if IsOutbound(a) { OutboundSideInv(cfg, s, a, t.req); }
    else if IsTask(a) { TaskSideInv(cfg, s, a, t.resp); }
    else if IsReceive(a) { ReceiveSideInv(cfg, s, a, t.resp); }
    else if IsEmit(a) { EmitSideInv(cfg, s, a, t.resp); }
    else { JointSideInv(cfg, s, a, t); }
  }

  /** Every run keeps the invariants, whatever the interleaving and whatever fails. */
  lemma {:induction false} RunInv(cfg: Config, s: State, actions: seq<Action>)
    requires Inv(cfg, s) && Run(cfg, s, actions).Some?
    ensures Inv(cfg, Run(cfg, s, actions).value)
    decreases |actions|
  {
    if actions != [] {
      var t := Step(cfg, s, actions[0]).value;
      StepInv(cfg, s, actions[0], t);
      RunInv(cfg, t, actions[1..]);
    }
  }

  lemma ReachableInv(cfg: Config, s: State)
    requires ValidConfig(cfg) && Reachable(cfg, s)
    ensures Inv(cfg, s)
  {
    var actions :| Run(cfg, Init(cfg), actions) == Some(s);
    InitInv(cfg);
    RunInv(cfg, Init(cfg), actions);
  }
}
