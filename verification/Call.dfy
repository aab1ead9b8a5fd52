/** One streaming call as interleaved steps: the caller, the client's two pumps, the two byte streams, the
    server task with its request pump, and the handler, joined by bounded channels. Every action is one
    await of one task, and any task may take the next one. */
module Call {
  import opened Bytes
  import opened Errors
  import opened Quic
  import opened Streaming
  import opened FrameStreams
  import opened CallWire
  import opened Pumps

  const CAPACITY: nat := 16

  const UNKNOWN_STREAMING: Text := Ascii("unknown streaming method: ")

  /** The opened call: the open request, and the names the registry resolves to streaming handlers. */
  datatype Config = Config(open: StreamingOpenRequest, streaming: set<Text>)

  function AckFrame(known: bool, name: Text, id: nat): Frame {
    OpenResponse(StreamingOpenResponse(if known then StatusOk else StatusErr(UNKNOWN_STREAMING + name), id))
  }

  function Ack(cfg: Config, name: Text, id: nat): Frame { AckFrame(name in cfg.streaming, name, id) }

  predicate ValidConfig(cfg: Config) {
    Sendable(OpenRequest(cfg.open)) && Sendable(Ack(cfg, cfg.open.methodName, cfg.open.requestId))
  }

  // ---- the request direction: caller, client pump, wire, server pump, handler

  datatype WriterEnd = Ended | WriteFailed | Cancelled

  datatype Writer =
    | Unopened
    | Waiting
    | Writing(chunk: Chunk)
    | Ending
    | Done(how: WriterEnd)

  datatype Request = Request(
    senderAlive: bool,           // the caller still holds the request sender
    sent: seq<Chunk>,            // history: the chunks the caller sent
    queue: seq<Chunk>,           // the client's channel
    writer: Writer,              // `pump_outbound_requests`
    wire: Wire,
    reader: Reader,              // `pump_inbound_requests`
    forwarded: seq<Item>,        // history: the items that pump handed over
    inbox: seq<Item>,            // the server's channel
    receiverAlive: bool,         // the handler still holds the request stream
    taken: seq<Item>)            // history: the items the handler took

  // ---- the response direction: handler, server task, wire, client pump, caller

  datatype Drained = NotYet | InBand | Broken

  /** `handle_streaming_substream` between two awaits. */
  datatype Task =
    | AwaitOpen
    | Acking(ack: Frame)
    | Draining
    | Emitting(item: Item)
    | Joining(wrote: Drained)
    | Finalising(result: HandlerResult)
    | TurnedAway
    | Closed(complete: bool)

  datatype Response = Response(
    senderAlive: bool,           // the handler still holds the response sender
    given: seq<Item>,            // history: the items the handler sent
    queue: seq<Item>,            // the server's channel
    drained: seq<Item>,          // history: the items the drain took
    outcome: Option<HandlerResult>,
    task: Task,
    wire: Wire,
    reader: Reader,              // `pump_inbound_responses`
    forwarded: seq<Item>,        // history: the items that pump handed over
    inbox: seq<Item>,            // the client's channel
    receiverAlive: bool,         // the caller still holds the response stream
    received: seq<Item>)         // history: the items the caller received

  datatype Opening = Pending | Live | Failed(error: RpcError)

  datatype State = State(req: Request, resp: Response, opening: Opening)

  datatype Action =
    // the caller
    | CallerSend(chunk: Chunk)
    | CallerDropSender
    | CallerReceive
    | CallerDropReceiver
    // the client
    | ClientAck
    | WriterTake
    | WriterSeeEnd
    | WriterWrite
    | WriterFail(cut: nat, end: Ending)
    | WriterFinish
    | WriterCancel(cut: nat)
    | ResponseRead
    | ResponseForward
    | ResponseRefused
    // the transport
    | DeliverRequest(n: nat)
    | DeliverResponse(n: nat)
    | LoseRequest(n: nat)
    | LoseResponse(n: nat)
    // the server
    | ServerOpen
    | ServerAck
    | RequestRead
    | RequestForward
    | RequestRefused
    | RequestCancel
    | DrainTake
    | DrainSeeEnd
    | DrainWrite
    | DrainFail(cut: nat, end: Ending)
    | Join
    | Finalise
    // the handler
    | HandlerTake
    | HandlerDropRequests
    | HandlerSend(item: Item)
    | HandlerDropSender
    | HandlerReturn(result: HandlerResult)

  function Init(cfg: Config): State
    requires ValidConfig(cfg)
  {
    State(
      Request(true, [], [], Unopened, Offer(FRESH, OpenRequest(cfg.open)), Idle, [], [], true, []),
      Response(true, [], [], [], None, AwaitOpen, FRESH, Idle, [], [], true, []),
      Pending)
  }

  /** A frame write that fails: the transport takes a proper prefix, or nothing of a stream already lost. */
  function Cut(w: Wire, f: Frame, cut: nat, end: Ending): Wire
    requires Sendable(f)
  {
    if w.end.Some? then w
    else if cut < |Encode(f)| then OfferPart(w, f, cut, end)
    else w.(intact := false, end := Some(end))
  }

  // ---- steps of the request direction

  function CallerSendStep(r: Request, c: Chunk): Option<Request> {
    if r.senderAlive && !r.writer.Done? && |r.queue| < CAPACITY && Sendable(RequestChunk(c))
    then Some(r.(sent := r.sent + [c], queue := r.queue + [c]))
    else None
  }

  function WriterTakeStep(r: Request): Option<Request> {
    if r.writer == Waiting && r.queue != []
    then Some(r.(writer := Writing(r.queue[0]), queue := r.queue[1..]))
    else None
  }

  function WriterSeeEndStep(r: Request): Option<Request> {
    if r.writer == Waiting && r.queue == [] && !r.senderAlive then Some(r.(writer := Ending)) else None
  }

  function WriterWriteStep(r: Request): Option<Request> {
    if r.writer.Writing? && r.wire.end.None? && Sendable(RequestChunk(r.writer.chunk))
    then Some(r.(writer := Waiting, wire := Offer(r.wire, RequestChunk(r.writer.chunk))))
    else None
  }

  /** `write_request_chunk` or `write_request_end` fails; either way the pump returns. */
  function WriterFailStep(r: Request, cut: nat, end: Ending): Option<Request> {
    if r.writer.Writing? && Sendable(RequestChunk(r.writer.chunk))
    then Some(r.(writer := Done(WriteFailed), queue := [], wire := Cut(r.wire, RequestChunk(r.writer.chunk), cut, end)))
    else if r.writer == Ending
    then Some(r.(writer := Done(WriteFailed), queue := [],
                 wire := if r.wire.end.Some? then r.wire else r.wire.(intact := false, end := Some(end))))
    else None
  }

  function WriterFinishStep(r: Request): Option<Request> {
    if r.writer == Ending && r.wire.end.None?
    then Some(r.(writer := Done(Ended), wire := Close(Offer(r.wire, RequestEnd))))
    else None
  }

  /** The pump's task is aborted, possibly in the middle of a write; dropping the stream finishes it. */
  function WriterCancelStep(r: Request, cut: nat): Option<Request> {
    if r.writer.Done? then None
    else if r.writer.Writing? && Sendable(RequestChunk(r.writer.chunk)) && cut > 0
    then Some(r.(writer := Done(Cancelled), queue := [],
                 wire := Cut(r.wire, RequestChunk(r.writer.chunk), cut, Finished)))
    else Some(r.(writer := Done(Cancelled), queue := [], wire := Close(r.wire)))
  }

  function RequestReadStep(r: Request): Option<Request> {
    if r.reader == Reading && CanRead(r.wire)
    then Some(r.(reader := OnRead(Server, ReadNow(r.wire)), wire := AfterRead(r.wire)))
    else None
  }

  function RequestForwardStep(r: Request): Option<Request> {
    if r.reader.Holding? && r.receiverAlive && |r.inbox| < CAPACITY
    then Some(r.(reader := Forwarded(r.reader), forwarded := r.forwarded + [r.reader.item],
                 inbox := r.inbox + [r.reader.item]))
    else None
  }

  function RequestRefusedStep(r: Request): Option<Request> {
    if r.reader.Holding? && !r.receiverAlive then Some(r.(reader := Refused(r.reader))) else None
  }

  function HandlerTakeStep(r: Request): Option<Request> {
    if r.receiverAlive && r.inbox != []
    then Some(r.(taken := r.taken + [r.inbox[0]], inbox := r.inbox[1..]))
    else None
  }

  function DropRequests(r: Request): Request { r.(receiverAlive := false, inbox := []) }

  // ---- steps of the response direction

  /** The handler runs from the acknowledgement until it returns. */
  predicate HandlerRunning(p: Response) {
    p.outcome.None? && (p.task.Draining? || p.task.Emitting? || p.task.Joining?)
  }

  predicate SendableItem(item: Item) { Sendable(ItemFrame(item)) }

  function HandlerSendStep(p: Response, item: Item): Option<Response> {
    if HandlerRunning(p) && p.senderAlive && !p.task.Joining? && |p.queue| < CAPACITY && SendableItem(item)
    then Some(p.(given := p.given + [item], queue := p.queue + [item]))
    else None
  }

  function HandlerReturnStep(p: Response, r: HandlerResult): Option<Response> {
    if HandlerRunning(p) && Sendable(FinalFrame(r))
    then Some(p.(outcome := Some(r), senderAlive := false))
    else None
  }

  function ServerAckStep(p: Response): Option<Response> {
    if p.task.Acking? && p.wire.end.None? && Sendable(p.task.ack)
    then
      var w := Offer(p.wire, p.task.ack);
      if p.task.ack.OpenResponse? && p.task.ack.openResponse.status.StatusOk?
      then Some(p.(wire := w, task := Draining))
      else Some(p.(wire := Close(w), task := TurnedAway))
    else None
  }

  function DrainTakeStep(p: Response): Option<Response> {
    if p.task == Draining && p.queue != []
    then Some(p.(task := Emitting(p.queue[0]), queue := p.queue[1..], drained := p.drained + [p.queue[0]]))
    else None
  }

  function DrainSeeEndStep(p: Response): Option<Response> {
    if p.task == Draining && p.queue == [] && !p.senderAlive then Some(p.(task := Joining(NotYet))) else None
  }

  /** Writes the item in hand; an error is terminal, and leaving the loop drops the channel's receiver. */
  function DrainWriteStep(p: Response): Option<Response> {
    if p.task.Emitting? && p.wire.end.None? && SendableItem(p.task.item)
    then
      var w := Offer(p.wire, ItemFrame(p.task.item));
      if p.task.item.Ok? then Some(p.(wire := w, task := Draining))
      else Some(p.(wire := w, task := Joining(InBand), queue := []))
    else None
  }

  /** Any write of the server task fails. */
  function DrainFailStep(p: Response, cut: nat, end: Ending): Option<Response> {
    if p.task.Acking? && Sendable(p.task.ack)
    then Some(p.(wire := Cut(p.wire, p.task.ack, cut, end), task := Closed(false)))
    else if p.task.Emitting? && SendableItem(p.task.item)
    then Some(p.(wire := Cut(p.wire, ItemFrame(p.task.item), cut, end), task := Joining(Broken), queue := []))
    else if p.task.Finalising? && Sendable(FinalFrame(p.task.result))
    then Some(p.(wire := Cut(p.wire, FinalFrame(p.task.result), cut, end), task := Closed(false)))
    else None
  }

  /** Awaits the handler even when the sender is long gone: its result still decides the closing frame. */
  function JoinStep(p: Response): Option<Response> {
    if p.task.Joining? && p.outcome.Some?
    then
      match p.task.wrote
      case NotYet => Some(p.(task := Finalising(p.outcome.value)))
      case InBand => Some(p.(wire := Close(p.wire), task := Closed(true)))
      case Broken => Some(p.(wire := Close(p.wire), task := Closed(false)))
    else None
  }

  function FinaliseStep(p: Response): Option<Response> {
    if p.task.Finalising? && p.wire.end.None? && Sendable(FinalFrame(p.task.result))
    then Some(p.(wire := Close(Offer(p.wire, FinalFrame(p.task.result))), task := Closed(true)))
    else None
  }

  function ResponseReadStep(p: Response): Option<Response> {
    if p.reader == Reading && CanRead(p.wire)
    then Some(p.(reader := OnRead(Client, ReadNow(p.wire)), wire := AfterRead(p.wire)))
    else None
  }

  function ResponseForwardStep(p: Response): Option<Response> {
    if p.reader.Holding? && p.receiverAlive && |p.inbox| < CAPACITY
    then Some(p.(reader := Forwarded(p.reader), forwarded := p.forwarded + [p.reader.item],
                 inbox := p.inbox + [p.reader.item]))
    else None
  }

  function ResponseRefusedStep(p: Response): Option<Response> {
    if p.reader.Holding? && !p.receiverAlive then Some(p.(reader := Refused(p.reader))) else None
  }

  function CallerReceiveStep(p: Response): Option<Response> {
    if p.receiverAlive && p.inbox != []
    then Some(p.(received := p.received + [p.inbox[0]], inbox := p.inbox[1..]))
    else None
  }

  // ---- steps that join the two

  /** Reads the open request, looks the method up and prepares the acknowledgement. */
  function ServerOpenStep(cfg: Config, s: State): Option<State> {
    if s.resp.task == AwaitOpen && CanRead(s.req.wire)
    then
      var req := s.req.(wire := AfterRead(s.req.wire));
      match ReadNow(s.req.wire)
      case Ok(Some(OpenRequest(b))) =>
        Some(s.(req := req, resp := s.resp.(task := Acking(Ack(cfg, b.methodName, b.requestId)))))
      case _ => Some(s.(req := req, resp := s.resp.(wire := Close(s.resp.wire), task := Closed(false))))
    else None
  }

  /** What `call_streaming` returns on a refused or unexpected acknowledgement. */
  function OpenError(read: RpcResult<Option<Frame>>): Option<RpcError> {
    match read
    case Ok(Some(OpenResponse(b))) =>
      (match b.status
       case StatusOk => None
       case StatusErr(reason) =>
         Some(if StartsWith(reason, UNKNOWN_STREAMING) then UnknownMethod(reason[|UNKNOWN_STREAMING|..])
              else Handler(reason)))
    case Ok(_) => Some(UNEXPECTED_FRAME)
    case Err(e) => Some(e)
  }

  function ClientAckStep(s: State): Option<State> {
    if s.opening == Pending && CanRead(s.resp.wire)
    then
      var resp := s.resp.(wire := AfterRead(s.resp.wire));
      match OpenError(ReadNow(s.resp.wire))
      case None => Some(State(s.req.(writer := Waiting), resp.(reader := Reading), Live))
      case Some(e) =>
        Some(State(s.req.(writer := Done(Cancelled), wire := Close(s.req.wire), queue := []), resp, Failed(e)))
    else None
  }

  predicate RunningTask(t: Task) { t.Draining? || t.Emitting? || t.Joining? || t.Finalising? }

  /** The actions of the client's request pump. */
  function WriterStep(r: Request, a: Action): Option<Request> {
    match a
    case WriterTake => WriterTakeStep(r)
    case WriterSeeEnd => WriterSeeEndStep(r)
    case WriterWrite => WriterWriteStep(r)
    case WriterFail(cut, end) => WriterFailStep(r, cut, end)
    case WriterFinish => WriterFinishStep(r)
    case WriterCancel(cut) => WriterCancelStep(r, cut)
    case _ => None
  }

  /** The actions of the server's request pump and of the handler's request stream. */
  function InboundStep(r: Request, a: Action): Option<Request> {
    match a
    case RequestRead => RequestReadStep(r)
    case RequestForward => RequestForwardStep(r)
    case RequestRefused => RequestRefusedStep(r)
    case RequestCancel => if r.reader.Stopped? then None else Some(r.(reader := Stopped(Aborted)))
    case HandlerTake => HandlerTakeStep(r)
    case HandlerDropRequests => if r.receiverAlive then Some(DropRequests(r)) else None
    case _ => None
  }

  /** The actions of the caller's request sender and of the transport under it. */
  function OutboundStep(r: Request, a: Action): Option<Request> {
    match a
    case CallerSend(c) => CallerSendStep(r, c)
    case CallerDropSender => if r.senderAlive then Some(r.(senderAlive := false)) else None
    case DeliverRequest(n) => if 0 < n <= |r.wire.inFlight| then Some(r.(wire := Deliver(r.wire, n))) else None
    case LoseRequest(n) => if n <= |r.wire.inFlight| then Some(r.(wire := Lose(r.wire, n))) else None
    case _ => None
  }

  /** The actions of the server task after the acknowledgement. */
  function TaskStep(p: Response, a: Action): Option<Response> {
    match a
    case DrainTake => DrainTakeStep(p)
    case DrainSeeEnd => DrainSeeEndStep(p)
    case DrainWrite => DrainWriteStep(p)
    case DrainFail(cut, end) => DrainFailStep(p, cut, end)
    case Join => JoinStep(p)
    case Finalise => FinaliseStep(p)
    case _ => None
  }

  /** The actions of the client's response pump and of the caller's response stream. */
  function ReceiveStep(p: Response, a: Action): Option<Response> {
    match a
    case ResponseRead => ResponseReadStep(p)
    case ResponseForward => ResponseForwardStep(p)
    case ResponseRefused => ResponseRefusedStep(p)
    case CallerReceive => CallerReceiveStep(p)
    case CallerDropReceiver => if p.receiverAlive then Some(p.(receiverAlive := false, inbox := [])) else None
    case _ => None
  }

  /** The actions of the handler's response sender and of the transport under the server. */
  function EmitStep(p: Response, a: Action): Option<Response> {
    match a
    case HandlerSend(item) => HandlerSendStep(p, item)
    case HandlerDropSender => if HandlerRunning(p) && p.senderAlive then Some(p.(senderAlive := false)) else None
    case DeliverResponse(n) => if 0 < n <= |p.wire.inFlight| then Some(p.(wire := Deliver(p.wire, n))) else None
    case LoseResponse(n) => if n <= |p.wire.inFlight| then Some(p.(wire := Lose(p.wire, n))) else None
    case _ => None
  }

  predicate IsWriter(a: Action) {
    a.WriterTake? || a.WriterSeeEnd? || a.WriterWrite? || a.WriterFail? || a.WriterFinish? || a.WriterCancel?
  }

  predicate IsInbound(a: Action) {
    a.RequestRead? || a.RequestForward? || a.RequestRefused? || a.RequestCancel? || a.HandlerTake?
      || a.HandlerDropRequests?
  }

  predicate IsOutbound(a: Action) { a.CallerSend? || a.CallerDropSender? || a.DeliverRequest? || a.LoseRequest? }

  predicate IsTask(a: Action) {
    a.DrainTake? || a.DrainSeeEnd? || a.DrainWrite? || a.DrainFail? || a.Join? || a.Finalise?
  }

  predicate IsReceive(a: Action) {
    a.ResponseRead? || a.ResponseForward? || a.ResponseRefused? || a.CallerReceive? || a.CallerDropReceiver?
  }

  predicate IsEmit(a: Action) { a.HandlerSend? || a.HandlerDropSender? || a.DeliverResponse? || a.LoseResponse? }

  /** What an action on one direction needs of the other: the caller's handles exist only after the
      acknowledgement; the client's request pump is aborted once the responses have ended, the server's once
      the closing frame is out; and the handler acts only while it runs. */
  predicate Allowed(s: State, a: Action) {
    match a
    case CallerSend(_) => s.opening == Live
    case CallerDropSender => s.opening == Live
    case CallerDropReceiver => s.opening == Live
    case WriterCancel(_) => s.opening == Live && s.resp.reader.Stopped?
    case RequestCancel => s.resp.task.Closed?
    case HandlerTake => HandlerRunning(s.resp)
    case HandlerDropRequests => HandlerRunning(s.resp)
    case _ => true
  }

  function OnRequest(s: State, r: Option<Request>): Option<State> {
    match r case None => None case Some(x) => Some(s.(req := x))
  }

  function OnResponse(s: State, p: Option<Response>): Option<State> {
    match p case None => None case Some(x) => Some(s.(resp := x))
  }

  /** The acknowledgement starts the server's request pump and the handler. */
  function AckStep(s: State): Option<State> {
    match ServerAckStep(s.resp)
    case None => None
    case Some(p) => Some(s.(resp := p, req := if p.task.Draining? then s.req.(reader := Reading) else s.req))
  }

  /** The handler's return drops both its channel ends. */
  function ReturnStep(s: State, r: HandlerResult): Option<State> {
    match HandlerReturnStep(s.resp, r)
    case None => None
    case Some(p) => Some(s.(resp := p, req := DropRequests(s.req)))
  }

  function JointStep(cfg: Config, s: State, a: Action): Option<State> {
    match a
    case ServerOpen => ServerOpenStep(cfg, s)
    case ServerAck => AckStep(s)
    case ClientAck => ClientAckStep(s)
    case HandlerReturn(r) => ReturnStep(s, r)
    case _ => None
  }

  /** One step; `None` if the action is not possible now. */
  function Step(cfg: Config, s: State, a: Action): Option<State> {
    if !Allowed(s, a) then None
    else if IsWriter(a) then OnRequest(s, WriterStep(s.req, a))
    else if IsInbound(a) then OnRequest(s, InboundStep(s.req, a))
    else if IsOutbound(a) then OnRequest(s, OutboundStep(s.req, a))
    else if IsTask(a) then OnResponse(s, TaskStep(s.resp, a))
    else if IsReceive(a) then OnResponse(s, ReceiveStep(s.resp, a))
    else if IsEmit(a) then OnResponse(s, EmitStep(s.resp, a))
    else JointStep(cfg, s, a)
  }

  /** The state after a run of actions, if every one of them was possible. */
  function Run(cfg: Config, s: State, actions: seq<Action>): Option<State>
    decreases |actions|
  {
    if actions == [] then Some(s)
    else match Step(cfg, s, actions[0])
      case None => None
      case Some(t) => Run(cfg, t, actions[1..])
  }

  ghost predicate Reachable(cfg: Config, s: State)
    requires ValidConfig(cfg)
  {
    exists actions :: Run(cfg, Init(cfg), actions) == Some(s)
  }
}
