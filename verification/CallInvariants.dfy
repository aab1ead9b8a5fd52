/** What every step of a streaming call keeps, direction by direction. */
module CallInvariants {
  import opened Bytes
  import opened Errors
  import opened Quic
  import opened Streaming
  import opened FrameStreams
  import opened CallWire
  import opened Pumps
  import opened Call

  // ---- sequences that grow at the end

  lemma RequestChunksSnoc(fs: seq<Frame>, f: Frame)
    ensures RequestChunks(fs + [f]) == RequestChunks(fs) + (if f.RequestChunk? then [f.request] else [])
  {
    assert (fs + [f])[..|fs|] == fs;
  }

  lemma {:induction false} RequestChunksPrefix(fs: seq<Frame>, gs: seq<Frame>)
    requires fs <= gs
    ensures RequestChunks(fs) <= RequestChunks(gs)
  {
    if |fs| == |gs| {
      assert fs == gs;
    } else {
      assert fs <= gs[..|gs| - 1];
      RequestChunksPrefix(fs, gs[..|gs| - 1]);
      assert gs == gs[..|gs| - 1] + [gs[|gs| - 1]];
      RequestChunksSnoc(gs[..|gs| - 1], gs[|gs| - 1]);
    }
  }

  lemma ChunksSnoc(items: seq<Item>, item: Item)
    ensures Chunks(items + [item]) == Chunks(items) + (if item.Ok? then [item.value] else [])
  {
    assert (items + [item])[..|items|] == items;
  }

  lemma {:induction false} ChunksPrefix(xs: seq<Item>, ys: seq<Item>)
    requires xs <= ys
    ensures Chunks(xs) <= Chunks(ys)
  {
    if |xs| == |ys| {
      assert xs == ys;
    } else {
      assert xs <= ys[..|ys| - 1];
      ChunksPrefix(xs, ys[..|ys| - 1]);
      assert ys == ys[..|ys| - 1] + [ys[|ys| - 1]];
      ChunksSnoc(ys[..|ys| - 1], ys[|ys| - 1]);
    }
  }

  predicate AllOk(items: seq<Item>) { forall i :: 0 <= i < |items| ==> items[i].Ok? }

  predicate EndsWithEnd(fs: seq<Frame>) { fs != [] && fs[|fs| - 1].RequestEnd? }

  // ---- the request direction

  /** The client writes the open request, then chunks, then perhaps the end frame. */
  predicate RequestLog(cfg: Config, log: seq<Frame>) {
    && log != [] && log[0] == OpenRequest(cfg.open)
    && forall i :: 1 <= i < |log| ==> log[i].RequestChunk? || (log[i].RequestEnd? && i == |log| - 1)
  }

  function Hand(w: Writer): seq<Chunk> { if w.Writing? then [w.chunk] else [] }

  /** Every chunk sent is on the wire, in the pump's hand or in the channel, in order; what is missing
      after a failure or a cancellation is missing at the end. */
  predicate WriterInv(r: Request) {
    && (!r.writer.Done? ==> r.sent == RequestChunks(r.wire.log) + Hand(r.writer) + r.queue
                            && !EndsWithEnd(r.wire.log) && (r.wire.end == None || r.wire.end == Some(Lost)))
    && (r.writer == Ending ==> r.queue == [] && !r.senderAlive)
    && (r.writer.Done? ==> r.wire.end.Some? && r.queue == [] && RequestChunks(r.wire.log) <= r.sent)
    && (r.writer.Done? && r.writer.how != Ended ==> !EndsWithEnd(r.wire.log))
    && (r.writer == Done(Ended) ==> r.sent == RequestChunks(r.wire.log) && EndsWithEnd(r.wire.log) && !r.senderAlive)
    && |r.queue| <= CAPACITY
  }

  /** The server's pump hands over exactly the chunks it has decoded, less the one in its hand; it meets
      neither an unexpected frame nor an error frame. */
  predicate ReaderInv(r: Request) {
    && (r.reader == Reading || r.reader.Holding? ==> r.wire.got != [])
    && match r.reader
       case Idle => |r.wire.got| <= 1 && r.forwarded == []
       case Reading => Chunks(r.forwarded) == RequestChunks(r.wire.got) && !EndsWithEnd(r.wire.got)
         && AllOk(r.forwarded)
       case Holding(Ok(c), after) =>
         after == None && Chunks(r.forwarded) + [c] == RequestChunks(r.wire.got) && !EndsWithEnd(r.wire.got)
         && AllOk(r.forwarded)
       case Holding(Err(e), after) =>
         e == READ_FAILED && after == Some(ReadFailure) && Chunks(r.forwarded) == RequestChunks(r.wire.got)
         && AllOk(r.forwarded) && (r.wire.intact ==> r.wire.end == Some(Lost))
       case Stopped(why) =>
         && Chunks(r.forwarded) <= RequestChunks(r.wire.got)
         && why != Unexpected && why != ErrorFrame
         && (why == EndFrame ==> r.wire.got == r.wire.log && EndsWithEnd(r.wire.got) && AllOk(r.forwarded)
                                 && Chunks(r.forwarded) == RequestChunks(r.wire.got))
  }

  predicate InboxInv(r: Request) {
    && r.taken <= r.forwarded
    && (r.receiverAlive ==> r.taken + r.inbox == r.forwarded)
    && (!r.receiverAlive ==> r.inbox == [])
    && |r.inbox| <= CAPACITY
  }

  /** Everything about the request direction but its bytes. */
  predicate RequestAccounts(cfg: Config, r: Request) {
    RequestLog(cfg, r.wire.log) && WriterInv(r) && ReaderInv(r) && InboxInv(r)
  }

  ghost predicate RequestInv(cfg: Config, r: Request) { WireInv(r.wire) && RequestAccounts(cfg, r) }

  lemma LogGrows(cfg: Config, log: seq<Frame>, f: Frame)
    requires RequestLog(cfg, log) && !EndsWithEnd(log) && (f.RequestChunk? || f.RequestEnd?)
    ensures RequestLog(cfg, log + [f])
    ensures EndsWithEnd(log + [f]) <==> f.RequestEnd?
    ensures RequestChunks(log + [f]) == RequestChunks(log) + (if f.RequestChunk? then [f.request] else [])
  {
    RequestChunksSnoc(log, f);
  }

  /** The writer's side of `w` moved and the reader's side did not. */
  predicate OnlyWritten(w: Wire, n: Wire) { n.got == w.got && w.log <= n.log && (n.intact ==> w.intact) }

  lemma ReaderUntouched(r: Request, n: Request)
    requires ReaderInv(r) && OnlyWritten(r.wire, n.wire) && r.reader == n.reader && r.forwarded == n.forwarded
    requires r.reader == Stopped(EndFrame) ==> n.wire.log == r.wire.log
    requires n.wire.intact ==> r.wire.end == Some(Lost) ==> n.wire.end == r.wire.end
    ensures ReaderInv(n)
  {
  }

  /** A chunk in the pump's hand goes onto the wire. */
  lemma HandToLog(cfg: Config, r: Request, n: Request)
    requires RequestAccounts(cfg, r) && r.writer.Writing? && r.wire.end.None?
    requires n == r.(writer := Waiting, wire := n.wire)
    requires n.wire.log == r.wire.log + [RequestChunk(r.writer.chunk)] && n.wire.got == r.wire.got
    requires n.wire.end.None? && n.wire.intact == r.wire.intact && r.wire.got <= r.wire.log
    ensures RequestAccounts(cfg, n)
  {
    LogGrows(cfg, r.wire.log, RequestChunk(r.writer.chunk));
    assert RequestChunks(n.wire.log) + Hand(n.writer) == RequestChunks(r.wire.log) + Hand(r.writer);
    ReaderUntouched(r, n);
  }

  lemma WriterWriteInv(cfg: Config, r: Request)
    requires RequestInv(cfg, r) && WriterWriteStep(r).Some?
    ensures RequestInv(cfg, WriterWriteStep(r).value)
  {
    OfferInv(r.wire, RequestChunk(r.writer.chunk));
    HandToLog(cfg, r, WriterWriteStep(r).value);
  }

  lemma CutInv(w: Wire, f: Frame, cut: nat, end: Ending)
    requires WireInv(w) && Sendable(f)
    ensures WireInv(Cut(w, f, cut, end))
    ensures Cut(w, f, cut, end).end.Some? && OnlyWritten(w, Cut(w, f, cut, end))
    ensures Cut(w, f, cut, end).log == w.log || Cut(w, f, cut, end).log == w.log + [f]
    ensures w.end == Some(Lost) || (w.end.None? && !Cut(w, f, cut, end).intact) || Cut(w, f, cut, end) == w
  {
    if w.end.None? && cut < |Encode(f)| { OfferPartInv(w, f, cut, end); }
  }

  /** The pump stops before its end frame; at most the chunk in its hand is started on the wire. */
  lemma WriterStops(cfg: Config, r: Request, n: Request)
    requires RequestAccounts(cfg, r) && !r.writer.Done? && n.writer.Done? && n.writer.how != Ended
    requires n == r.(writer := n.writer, queue := [], wire := n.wire)
    requires OnlyWritten(r.wire, n.wire) && n.wire.end.Some? && (r.wire.end.Some? ==> n.wire.end == r.wire.end)
    requires n.wire.log == r.wire.log
             || (r.writer.Writing? && n.wire.log == r.wire.log + [RequestChunk(r.writer.chunk)])
    ensures RequestAccounts(cfg, n)
  {
    if n.wire.log != r.wire.log { LogGrows(cfg, r.wire.log, RequestChunk(r.writer.chunk)); }
    assert RequestChunks(n.wire.log) <= RequestChunks(r.wire.log) + Hand(r.writer) + r.queue;
    ReaderUntouched(r, n);
  }

  lemma WriterFailInv(cfg: Config, r: Request, cut: nat, end: Ending)
    requires RequestInv(cfg, r) && WriterFailStep(r, cut, end).Some?
    ensures RequestInv(cfg, WriterFailStep(r, cut, end).value)
  {
    if r.writer.Writing? { CutInv(r.wire, RequestChunk(r.writer.chunk), cut, end); }
    WriterStops(cfg, r, WriterFailStep(r, cut, end).value);
  }

  lemma WriterCancelInv(cfg: Config, r: Request, cut: nat)
    requires RequestInv(cfg, r) && WriterCancelStep(r, cut).Some?
    ensures RequestInv(cfg, WriterCancelStep(r, cut).value)
  {
    if r.writer.Writing? && Sendable(RequestChunk(r.writer.chunk)) && cut > 0 {
      CutInv(r.wire, RequestChunk(r.writer.chunk), cut, Finished);
    }
    WriterStops(cfg, r, WriterCancelStep(r, cut).value);
  }

  lemma WriterEnds(cfg: Config, r: Request, n: Request)
    requires RequestAccounts(cfg, r) && r.writer == Ending && r.wire.end.None?
    requires n == r.(writer := Done(Ended), wire := n.wire)
    requires n.wire.log == r.wire.log + [RequestEnd] && n.wire.got == r.wire.got && r.wire.got <= r.wire.log
    requires n.wire.end.Some? && n.wire.intact == r.wire.intact
    ensures RequestAccounts(cfg, n)
  {
    LogGrows(cfg, r.wire.log, RequestEnd);
    ReaderUntouched(r, n);
  }

  lemma WriterFinishInv(cfg: Config, r: Request)
    requires RequestInv(cfg, r) && WriterFinishStep(r).Some?
    ensures RequestInv(cfg, WriterFinishStep(r).value)
  {
    OfferInv(r.wire, RequestEnd);
    WriterEnds(cfg, r, WriterFinishStep(r).value);
  }

  /** The next logged frame is a chunk or the end; reading it moves exactly that. */
  lemma ReadsFrame(cfg: Config, r: Request, n: Request, f: Frame)
    requires RequestAccounts(cfg, r) && r.reader == Reading && r.wire.got < r.wire.log && f == r.wire.log[|r.wire.got|]
    requires n == r.(reader := OnFrame(Server, f), wire := n.wire)
    requires n.wire == r.wire.(arrived := n.wire.arrived, got := r.wire.got + [f])
    ensures RequestAccounts(cfg, n)
  {
    RequestChunksSnoc(r.wire.got, f);
    assert r.wire.got + [f] <= r.wire.log;
    if f.RequestEnd? { assert n.wire.got == r.wire.log; }
  }

  /** The read met the end of the bytes or a transport failure. */
  lemma ReadsNoFrame(cfg: Config, r: Request, n: Request, read: RpcResult<Option<Frame>>)
    requires RequestAccounts(cfg, r) && r.reader == Reading
    requires read == Ok(None) || read == Err(READ_FAILED)
    requires read.Err? ==> r.wire.end.Some? && (r.wire.intact ==> r.wire.end == Some(Lost))
    requires n == r.(reader := OnRead(Server, read), wire := r.wire.(arrived := n.wire.arrived))
    ensures RequestAccounts(cfg, n)
  {
  }

  lemma RequestReadInv(cfg: Config, r: Request)
    requires RequestInv(cfg, r) && RequestReadStep(r).Some?
    ensures RequestInv(cfg, RequestReadStep(r).value)
  {
    ReadInv(r.wire);
    var read, n := ReadNow(r.wire), RequestReadStep(r).value;
    if read.Ok? && read.value.Some? {
      ReadsFrame(cfg, r, n, read.value.value);
    } else {
      ReadsNoFrame(cfg, r, n, read);
    }
  }

  /** The item in the pump's hand goes into the channel. */
  lemma RequestForwardAccounts(cfg: Config, r: Request, n: Request)
    requires RequestAccounts(cfg, r) && r.reader.Holding? && r.receiverAlive && |r.inbox| < CAPACITY
    requires n == r.(reader := Forwarded(r.reader), forwarded := r.forwarded + [r.reader.item],
                     inbox := r.inbox + [r.reader.item])
    ensures RequestAccounts(cfg, n)
  {
    ChunksSnoc(r.forwarded, r.reader.item);
    assert WriterInv(n) && InboxInv(n);
  }

  lemma RequestForwardInv(cfg: Config, r: Request)
    requires RequestInv(cfg, r) && RequestForwardStep(r).Some?
    ensures RequestInv(cfg, RequestForwardStep(r).value)
  {
    RequestForwardAccounts(cfg, r, RequestForwardStep(r).value);
  }

  lemma RequestRefusedInv(cfg: Config, r: Request)
    requires RequestInv(cfg, r) && RequestRefusedStep(r).Some?
    ensures RequestInv(cfg, RequestRefusedStep(r).value)
  {
  }

  lemma RequestCancelInv(cfg: Config, r: Request)
    requires RequestInv(cfg, r) && !r.reader.Stopped?
    ensures RequestInv(cfg, r.(reader := Stopped(Aborted)))
  {
  }

  lemma DropRequestsInv(cfg: Config, r: Request)
    requires RequestInv(cfg, r)
    ensures RequestInv(cfg, DropRequests(r))
  {
  }

  lemma DropSenderInv(cfg: Config, r: Request)
    requires RequestInv(cfg, r)
    ensures RequestInv(cfg, r.(senderAlive := false))
  {
  }

  lemma WriterSeeEndInv(cfg: Config, r: Request)
    requires RequestInv(cfg, r) && WriterSeeEndStep(r).Some?
    ensures RequestInv(cfg, WriterSeeEndStep(r).value)
  {
  }

  lemma CallerSendInv(cfg: Config, r: Request, c: Chunk)
    requires RequestInv(cfg, r) && CallerSendStep(r, c).Some?
    ensures RequestInv(cfg, CallerSendStep(r, c).value)
  {
  }

  lemma Regroup<T>(a: seq<T>, b: seq<T>)
    requires b != []
    ensures a + [b[0]] + b[1..] == a + b
    ensures a + [b[0]] <= a + b
    ensures a + [] + b == a + b
  {
  }

  lemma WriterTakeInv(cfg: Config, r: Request)
    requires RequestInv(cfg, r) && WriterTakeStep(r).Some?
    ensures RequestInv(cfg, WriterTakeStep(r).value)
  {
    var n := WriterTakeStep(r).value;
    Regroup(RequestChunks(r.wire.log), r.queue);
    assert WriterInv(n) && ReaderInv(n);
  }

  lemma HandlerTakeInv(cfg: Config, r: Request)
    requires RequestInv(cfg, r) && HandlerTakeStep(r).Some?
    ensures RequestInv(cfg, HandlerTakeStep(r).value)
  {
    var n := HandlerTakeStep(r).value;
    Regroup(r.taken, r.inbox);
    assert InboxInv(n) && WriterInv(n) && ReaderInv(n);
  }

  /** Bytes move or are lost under everyone's feet. */
  lemma RequestWireInv(cfg: Config, r: Request, n: nat)
    requires RequestInv(cfg, r) && n <= |r.wire.inFlight|
    ensures RequestInv(cfg, r.(wire := Deliver(r.wire, n)))
    ensures RequestInv(cfg, r.(wire := Lose(r.wire, n)))
  {
    DeliverInv(r.wire, n);
    LoseInv(r.wire, n);
  }
}
