/** What the pumps of both sides do with one frame or one failed read, shared by the loops of `PumpLoops`
    and the interleaved call of `Call`. */
module Pumps {
  import opened Bytes
  import opened Errors
  import opened ErrorTexts
  import opened Streaming

  /** What travels through the channels between pumps and application code. */
  type Item = RpcResult<Chunk>

  datatype Side = Server | Client

  datatype Why = EndFrame | EndOfBytes | ErrorFrame | ReceiverGone | ReadFailure | Unexpected | Aborted

  /** A reading pump between two awaits: about to read, waiting to hand an item over (and then stopping, if
      `after` says why), or done. */
  datatype Reader =
    | Idle
    | Reading
    | Holding(item: Item, after: Option<Why>)
    | Stopped(why: Why)

  const UNEXPECTED_FRAME: RpcError := MalformedFrame(Ascii("unexpected frame"))

  /** About to pass on that a frame was unexpected, and to stop. */
  const REJECTED: Reader := Holding(Err(UNEXPECTED_FRAME), Some(Unexpected))

  function OnFrame(side: Side, f: Frame): Reader {
    match f
    case RequestChunk(c) => if side == Server then Holding(Ok(c), None) else REJECTED
    case ResponseChunk(c) => if side == Client then Holding(Ok(c), None) else REJECTED
    case RequestEnd => if side == Server then Stopped(EndFrame) else REJECTED
    case ResponseEnd => if side == Client then Stopped(EndFrame) else REJECTED
    case Error(e) => Holding(Err(Handler(e.message)), if e.terminal then Some(ErrorFrame) else None)
    case _ => REJECTED
  }

  function OnRead(side: Side, read: RpcResult<Option<Frame>>): Reader {
    match read
    case Ok(Some(f)) => OnFrame(side, f)
    case Ok(None) => Stopped(EndOfBytes)
    case Err(e) => Holding(Err(e), Some(ReadFailure))
  }

  /** The item was handed over. */
  function Forwarded(r: Reader): Reader
    requires r.Holding?
  {
    match r.after case None => Reading case Some(why) => Stopped(why)
  }

  /** The other end of the channel is gone: a chunk stops the pump, a failure is dropped. */
  function Refused(r: Reader): Reader
    requires r.Holding?
  {
    if r.item.Ok? then Stopped(ReceiverGone) else Forwarded(r)
  }

  /** The result of awaiting the handler task. */
  datatype HandlerResult = ReturnedOk | ReturnedErr(error: RpcError) | JoinFailed(cause: Text)

  const JOIN_FAILURE: Text := Ascii("streaming handler join failure: ")

  function TerminalError(e: RpcError): Frame { Error(StreamingError(Display(e), true)) }

  /** How one item of the handler is written. */
  function ItemFrame(item: Item): Frame {
    match item case Ok(c) => ResponseChunk(c) case Err(e) => TerminalError(e)
  }

  /** The closing frame for a handler that left no in-band error. */
  function FinalFrame(r: HandlerResult): Frame {
    match r
    case ReturnedOk => ResponseEnd
    case ReturnedErr(e) => TerminalError(e)
    case JoinFailed(cause) => Error(StreamingError(JOIN_FAILURE + cause, true))
  }

  /** The frames of some request chunks. */
  function ChunkFrames(chunks: seq<Chunk>): (fs: seq<Frame>)
    ensures |fs| == |chunks| && forall i :: 0 <= i < |chunks| ==> fs[i] == RequestChunk(chunks[i])
  {
    seq(|chunks|, i requires 0 <= i < |chunks| => RequestChunk(chunks[i]))
  }

  /** The items before the first failure. */
  function BeforeFailure(items: seq<Item>): seq<Item> {
    if items == [] || items[0].Err? then [] else [items[0]] + BeforeFailure(items[1..])
  }

  function FirstFailure(items: seq<Item>): Option<RpcError> {
    if items == [] then None else if items[0].Err? then Some(items[0].error) else FirstFailure(items[1..])
  }

  /** `message` is the text that closes a call of these items and this result: the whole rendering of the first
      in-band failure if there is one, or else of how the handler ended. */
  predicate Closes(items: seq<Item>, result: HandlerResult, message: Text) {
    match FirstFailure(items)
    case Some(e) => Shows(e, message)
    case None =>
      match result
      case ReturnedOk => false
      case ReturnedErr(e) => Shows(e, message)
      case JoinFailed(cause) => message == Ascii("streaming handler join failure: ") + cause
  }

  /** What the server writes as that text. */
  function ClosingText(items: seq<Item>, result: HandlerResult): Option<Text> {
    match FirstFailure(items)
    case Some(e) => Some(Display(e))
    case None =>
      match result
      case ReturnedOk => None
      case ReturnedErr(e) => Some(Display(e))
      case JoinFailed(cause) => Some(JOIN_FAILURE + cause)
  }

  lemma ClosingTextCloses(items: seq<Item>, result: HandlerResult)
    ensures ClosingText(items, result).Some? ==> Closes(items, result, ClosingText(items, result).value)
  {
    match FirstFailure(items)
    case Some(e) => DisplayShows(e);
    case None => if result.ReturnedErr? { DisplayShows(result.error); }
  }

  function Chunks(items: seq<Item>): seq<Chunk> {
    if items == [] then []
    else Chunks(items[..|items| - 1]) + (if items[|items| - 1].Ok? then [items[|items| - 1].value] else [])
  }

  /** The request chunks among some frames. */
  function RequestChunks(fs: seq<Frame>): seq<Chunk> {
    if fs == [] then []
    else RequestChunks(fs[..|fs| - 1])
         + (if fs[|fs| - 1].RequestChunk? then [fs[|fs| - 1].request] else [])
  }
}
