/** An echoing handler under a caller that sends its chunks, drops its sender and keeps draining, with no
    transport failure: what such a call always keeps. */
module Echo {
  import opened Bytes
  import opened Quic
  import opened Streaming
  import opened FrameStreams
  import opened CallWire
  import opened Pumps
  import opened Call
  import opened CallInvariants
  import opened CallResponse
  import opened CallResponseSteps
  import opened CallRuns
  import opened CallTheorems

  predicate ValidScript(script: seq<Chunk>) {
    forall i :: 0 <= i < |script| ==> Sendable(RequestChunk(script[i])) && Sendable(ResponseChunk(script[i]))
  }

  predicate ValidEcho(cfg: Config, script: seq<Chunk>) { ValidConfig(cfg) && Accepted(cfg) && ValidScript(script) }

  /** What the echoing handler returns when it next looks at its channels, if it returns: it returns cleanly at
      the end of the requests or when its responses are refused, and passes a failed request on. */
  predicate EchoReturns(s: State, r: HandlerResult) {
    var taken, given := s.req.taken, s.resp.given;
    || (|taken| == |given| && s.req.inbox == [] && s.req.reader.Stopped? && r == ReturnedOk)
    || (|taken| > |given| && taken[|taken| - 1].Err? && r == ReturnedErr(taken[|taken| - 1].error))
    || (|taken| > |given| && s.resp.task.Joining? && r == ReturnedOk)
  }

  /** The choices of this caller and this handler; the transport does not fail. */
  predicate EchoAction(script: seq<Chunk>, s: State, a: Action) {
    match a
    case CallerSend(c) => |s.req.sent| < |script| && c == script[|s.req.sent|]
    case CallerDropSender => |s.req.sent| == |script|
    case CallerDropReceiver => false
    case WriterFail(_, _) => false
    case DrainFail(_, _) => false
    case LoseRequest(_) => false
    case LoseResponse(_) => false
    case HandlerTake => |s.req.taken| == |s.resp.given|
    case HandlerDropRequests => false
    case HandlerSend(item) =>
      |s.req.taken| == |s.resp.given| + 1 && item.Ok? && item == s.req.taken[|s.resp.given|]
    case HandlerDropSender => false
    case HandlerReturn(r) => EchoReturns(s, r)
    case _ => true
  }

  predicate EchoRequest(script: seq<Chunk>, r: Request) {
    && r.wire.intact && r.wire.end != Some(Lost)
    && r.sent <= script && (!r.senderAlive ==> r.sent == script)
    && (r.writer.Done? ==> r.writer.how == Ended)
    && (r.reader.Stopped? ==> r.reader.why == EndFrame)
    && (r.reader.Holding? ==> r.reader.item.Ok? && r.reader.after == None)
  }

  predicate EchoResponse(p: Response) {
    && p.wire.intact && p.wire.end != Some(Lost)
    && p.receiverAlive && AllOk(p.given)
    && (p.outcome.Some? ==> p.outcome.value == ReturnedOk)
    && (p.senderAlive <==> p.outcome.None?)
    && (p.reader.Stopped? ==> p.reader.why == EndFrame)
    && (p.reader.Holding? ==> p.reader.item.Ok? && p.reader.after == None)
    && p.task != TurnedAway && p.task != Closed(false)
    && (p.task.Joining? ==> p.task.wrote == NotYet)
    && (p.task.Joining? || p.task.Finalising? || p.task.Closed? ==> p.outcome.Some?)
  }

  predicate EchoLink(s: State) {
    && !s.opening.Failed?
    && s.resp.given <= s.req.taken && |s.req.taken| <= |s.resp.given| + 1
    && (s.resp.outcome.None? ==> s.req.receiverAlive)
    && (s.resp.outcome.Some? ==> s.req.reader == Stopped(EndFrame) && s.resp.given == s.req.taken == s.req.forwarded)
  }

  ghost predicate EchoInv(cfg: Config, script: seq<Chunk>, s: State) {
    Inv(cfg, s) && EchoRequest(script, s.req) && EchoResponse(s.resp) && EchoLink(s)
  }

  // ---- how far the call has come

  function WriterRank(w: Writer): nat {
    match w case Unopened => 0 case Waiting => 1 case Writing(_) => 1 case Ending => 2 case Done(_) => 3
  }

  function TaskRank(t: Task): nat {
    match t
    case AwaitOpen => 0
    case Acking(_) => 1
    case Draining => 2
    case Emitting(_) => 2
    case Joining(_) => 3
    case Finalising(_) => 4
    case TurnedAway => 5
    case Closed(_) => 5
  }

  function RequestProgress(r: Request): int {
    2 * |r.sent| - |r.queue| + (if r.senderAlive then 0 else 1) + WriterRank(r.writer) + |r.wire.log|
    + (|r.wire.written| - |r.wire.inFlight|) + |r.wire.got| + |r.forwarded| + |r.taken|
  }

  function ResponseProgress(p: Response): int {
    |p.given| + (if p.outcome.Some? then 1 else 0) + |p.drained| + |p.wire.log| + TaskRank(p.task)
    + (|p.wire.written| - |p.wire.inFlight|) + |p.wire.got| + |p.forwarded| + |p.received|
  }

  /** A count that every step of an echo call raises. */
  function Progress(s: State): int { RequestProgress(s.req) + ResponseProgress(s.resp) }

  /** A reader finds a frame when nothing was lost and its stream cannot have ended yet. */
  lemma FindsFrame(w: Wire)
    requires WireInv(w) && CanRead(w) && w.intact && w.end != Some(Lost) && (w.end.Some? ==> w.got != w.log)
    ensures w.got < w.log
    ensures ReadNow(w) == Ok(Some(w.log[|w.got|]))
    ensures AfterRead(w) == w.(arrived := AfterRead(w).arrived, got := w.got + [w.log[|w.got|]])
  {
    ReadInv(w);
  }

  // ---- the request direction

  /** The request stream ends only after its end frame. */
  lemma EndedWithEnd(script: seq<Chunk>, r: Request)
    requires WriterInv(r) && EchoRequest(script, r) && r.wire.end.Some?
    ensures EndsWithEnd(r.wire.log) && r.writer == Done(Ended)
  {
  }

  lemma EchoWriterKept(script: seq<Chunk>, r: Request, a: Action)
    requires WriterInv(r) && EchoRequest(script, r) && WriterStep(r, a).Some? && !a.WriterFail? && !a.WriterCancel?
    ensures EchoRequest(script, WriterStep(r, a).value)
  {
  }

  lemma EchoOutboundKept(script: seq<Chunk>, s: State, a: Action)
    requires EchoRequest(script, s.req) && EchoAction(script, s, a) && OutboundStep(s.req, a).Some?
    ensures EchoRequest(script, OutboundStep(s.req, a).value)
  {
  }

  lemma EchoReadKept(cfg: Config, script: seq<Chunk>, r: Request)
    requires RequestInv(cfg, r) && EchoRequest(script, r) && RequestReadStep(r).Some?
    ensures EchoRequest(script, RequestReadStep(r).value)
    ensures RequestReadStep(r).value.wire.got == r.wire.got + [r.wire.log[|r.wire.got|]]
  {
    if r.wire.end.Some? { EndedWithEnd(script, r); }
    assert !EndsWithEnd(r.wire.got);
    FindsFrame(r.wire);
    assert r.wire.log[|r.wire.got|].RequestChunk? || r.wire.log[|r.wire.got|].RequestEnd?;
  }

  lemma EchoInboundKept(cfg: Config, script: seq<Chunk>, r: Request, a: Action)
    requires RequestInv(cfg, r) && EchoRequest(script, r) && InboundStep(r, a).Some?
    requires !a.RequestCancel? && !a.RequestRefused?
    ensures EchoRequest(script, InboundStep(r, a).value)
  {
    if a.RequestRead? { EchoReadKept(cfg, script, r); }
  }

  // ---- the response direction

  /** The response stream ends only after the end frame. */
  lemma EndedWithResponseEnd(cfg: Config, p: Response)
    requires TaskInv(cfg, p) && EchoResponse(p) && p.wire.end.Some?
    ensures p.task == Closed(true) && EndsTerminal(p.wire.log)
  {
    NoErrorInLog(cfg, p);
  }

  lemma NoFailureDrained(p: Response)
    requires AllOk(p.given) && p.drained <= p.given
    ensures !OnlyLastFails(p.drained)
  {
    if p.drained != [] { assert p.drained[|p.drained| - 1] == p.given[|p.drained| - 1]; }
  }

  /** The only terminal frame an echo call can log is the end frame. */
  lemma NoErrorInLog(cfg: Config, p: Response)
    requires TaskInv(cfg, p) && EchoResponse(p)
    ensures EndsTerminal(p.wire.log) ==> p.wire.log[|p.wire.log| - 1].ResponseEnd?
    ensures p.task == Closed(true) ==> EndsTerminal(p.wire.log)
  {
    if p.drained <= p.given { NoFailureDrained(p); }
    if EndsTerminal(p.wire.log) { TerminalLog(cfg, p); }
  }

  lemma EchoNextFrame(cfg: Config, p: Response)
    requires TaskInv(cfg, p) && EchoResponse(p) && p.wire.got != [] && p.wire.got < p.wire.log
    ensures p.wire.log[|p.wire.got|].ResponseChunk? || p.wire.log[|p.wire.got|].ResponseEnd?
  {
    NextFrame(cfg, p);
    NoErrorInLog(cfg, p);
  }

  lemma ResponseReadFinds(cfg: Config, p: Response)
    requires WireInv(p.wire) && TaskInv(cfg, p) && EchoResponse(p) && CanRead(p.wire)
    requires p.wire.got != [] && !EndsTerminal(p.wire.got)
    ensures p.wire.got < p.wire.log && ReadNow(p.wire) == Ok(Some(p.wire.log[|p.wire.got|]))
    ensures AfterRead(p.wire) ==
            p.wire.(arrived := AfterRead(p.wire).arrived, got := p.wire.got + [p.wire.log[|p.wire.got|]])
  {
    if p.wire.end.Some? { EndedWithResponseEnd(cfg, p); }
    FindsFrame(p.wire);
  }

  lemma ReadingInv(cfg: Config, p: Response)
    requires ClientInv(cfg, p) && p.reader == Reading
    ensures p.wire.got != [] && !EndsTerminal(p.wire.got)
  {
  }

  lemma ReadGains(p: Response, n: Response, f: Frame)
    requires EchoResponse(p) && (f.ResponseChunk? || f.ResponseEnd?)
    requires n == p.(reader := OnFrame(Client, f), wire := n.wire)
    requires n.wire == p.wire.(arrived := n.wire.arrived, got := p.wire.got + [f])
    ensures EchoResponse(n) && ResponseProgress(n) > ResponseProgress(p)
  {
  }

  lemma EchoResponseReadKept(cfg: Config, p: Response, n: Response)
    requires ResponseInv(cfg, p) && EchoResponse(p) && ResponseReadStep(p) == Some(n)
    ensures EchoResponse(n) && ResponseProgress(n) > ResponseProgress(p)
  {
    ReadingInv(cfg, p);
    ResponseReadFinds(cfg, p);
    EchoNextFrame(cfg, p);
    ReadGains(p, n, p.wire.log[|p.wire.got|]);
  }

  lemma EchoTaskKept(cfg: Config, p: Response, a: Action)
    requires TaskInv(cfg, p) && EchoResponse(p) && TaskStep(p, a).Some? && !a.DrainFail?
    ensures EchoResponse(TaskStep(p, a).value)
  {
    if a.DrainWrite? {
      assert p.drained[|p.drained| - 1] == p.given[|p.drained| - 1];
    }
  }

  lemma EchoOtherReceive(p: Response, a: Action)
    requires EchoResponse(p) && ReceiveStep(p, a).Some? && !a.CallerDropReceiver? && !a.ResponseRead?
    ensures EchoResponse(ReceiveStep(p, a).value)
    ensures a.ResponseRefused? || ResponseProgress(ReceiveStep(p, a).value) > ResponseProgress(p)
  {
  }

  lemma EchoReceiveKept(cfg: Config, p: Response, a: Action, n: Response)
    requires ResponseInv(cfg, p) && EchoResponse(p) && ReceiveStep(p, a) == Some(n)
    requires !a.CallerDropReceiver? && !a.ResponseRefused?
    ensures EchoResponse(n) && ResponseProgress(n) > ResponseProgress(p)
  {
    if a.ResponseRead? { EchoResponseReadKept(cfg, p, n); } else { EchoOtherReceive(p, a); }
  }

  lemma EchoEmitKept(script: seq<Chunk>, s: State, a: Action)
    requires EchoResponse(s.resp) && EchoAction(script, s, a) && EmitStep(s.resp, a).Some?
    ensures EchoResponse(EmitStep(s.resp, a).value)
  {
  }

  lemma WriterProgress(r: Request, a: Action)
    requires WriterStep(r, a).Some? && !a.WriterFail? && !a.WriterCancel?
    ensures RequestProgress(WriterStep(r, a).value) > RequestProgress(r)
  {
  }

  lemma OutboundProgress(r: Request, a: Action)
    requires OutboundStep(r, a).Some? && !a.LoseRequest?
    ensures RequestProgress(OutboundStep(r, a).value) > RequestProgress(r)
  {
  }

  lemma InboundProgress(cfg: Config, script: seq<Chunk>, r: Request, a: Action)
    requires RequestInv(cfg, r) && EchoRequest(script, r) && InboundStep(r, a).Some?
    requires !a.RequestCancel? && !a.RequestRefused? && !a.HandlerDropRequests?
    ensures RequestProgress(InboundStep(r, a).value) > RequestProgress(r)
  {
    if a.RequestRead? { EchoReadKept(cfg, script, r); }
  }

  lemma TaskProgress(p: Response, a: Action)
    requires TaskStep(p, a).Some? && !a.DrainFail? && (p.task.Joining? ==> p.task.wrote == NotYet)
    requires p.task.Emitting? ==> p.task.item.Ok?
    ensures ResponseProgress(TaskStep(p, a).value) > ResponseProgress(p)
  {
  }

  lemma EmitProgress(p: Response, a: Action)
    requires EmitStep(p, a).Some? && !a.LoseResponse? && !a.HandlerDropSender?
    ensures ResponseProgress(EmitStep(p, a).value) > ResponseProgress(p)
  {
  }
}
