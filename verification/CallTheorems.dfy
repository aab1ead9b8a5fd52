/** The promises of a streaming call, in every state that any run can reach: request chunks are conserved,
    responses are exact, the server speaks its language, and refusals name the method. */
module CallTheorems {
  import opened Bytes
  import opened Errors
  import opened ErrorTexts
  import opened Quic
  import opened Streaming
  import opened FrameStreams
  import opened CallWire
  import opened Pumps
  import opened Call
  import opened CallInvariants
  import opened CallResponse
  import opened CallRuns
  import opened CallClosing

  // ---- splitting and filtering

  lemma {:induction false} RequestChunksConcat(fs: seq<Frame>, gs: seq<Frame>)
    ensures RequestChunks(fs + gs) == RequestChunks(fs) + RequestChunks(gs)
  {
    if gs == [] {
      assert fs + gs == fs;
    } else {
      var front, last := gs[..|gs| - 1], gs[|gs| - 1];
      RequestChunksConcat(fs, front);
      assert fs + gs == fs + front + [last];
      RequestChunksSnoc(fs + front, last);
    }
  }

  lemma {:induction false} ChunksConcat(xs: seq<Item>, ys: seq<Item>)
    ensures Chunks(xs + ys) == Chunks(xs) + Chunks(ys)
  {
    if ys == [] {
      assert xs + ys == xs;
    } else {
      var front, last := ys[..|ys| - 1], ys[|ys| - 1];
      ChunksConcat(xs, front);
      assert xs + ys == xs + front + [last];
      ChunksSnoc(xs + front, last);
    }
  }

  // ---- the request direction

  /** Nothing was cut, cancelled, dropped or refused on the way from the caller to the handler. */
  predicate NoRequestLoss(r: Request) {
    && r.wire.intact && r.receiverAlive
    && (r.writer.Done? ==> r.writer.how == Ended)
    && (r.reader.Stopped? ==> r.reader.why == EndFrame)
  }

  function ReaderHand(r: Reader): seq<Chunk> { if r.Holding? && r.item.Ok? then [r.item.value] else [] }

  /** The chunks in the bytes between the two pumps, as the reader will decode them. */
  function ChunksOnWire(w: Wire): seq<Chunk> { RequestChunks(ReadAll(w.arrived + w.inFlight, Finished).0) }

  lemma DecodesToUnread(fs: seq<Frame>, bytes: seq<byte>)
    requires AllSendable(fs) && bytes == EncodeAll(fs)
    ensures ReadAll(bytes, Finished).0 == fs
  {
    ReadsBackExactly(fs);
  }

  lemma LogChunks(log: seq<Frame>, got: seq<Frame>)
    requires got <= log
    ensures RequestChunks(log) == RequestChunks(got) + RequestChunks(log[|got|..])
  {
    assert log == got + log[|got|..];
    RequestChunksConcat(got, log[|got|..]);
  }

  lemma OnWire(w: Wire)
    requires WireInv(w) && w.intact
    ensures RequestChunks(w.log) == RequestChunks(w.got) + ChunksOnWire(w)
  {
    var unread := Unread(w);
    DecodesToUnread(unread, w.arrived + w.inFlight);
    LogChunks(w.log, w.got);
  }

  lemma ForwardedByReader(r: Request)
    requires ReaderInv(r) && NoRequestLoss(r) && (r.wire.got == [] || r.wire.got[0].OpenRequest?)
    ensures Chunks(r.forwarded) + ReaderHand(r.reader) == RequestChunks(r.wire.got)
  {
    if r.reader == Idle && r.wire.got != [] {
      RequestChunksSnoc([], r.wire.got[0]);
      assert [] + [r.wire.got[0]] == r.wire.got;
    }
  }

  /** Conservation: in every reachable state without loss, what the caller has sent is, in order, what the
      handler took, what waits in its channel, what the server's pump holds, what the bytes on the wire
      decode to, what the client's pump holds and what waits in its channel. */
  lemma RequestConservation(cfg: Config, s: State)
    requires ValidConfig(cfg) && Reachable(cfg, s) && NoRequestLoss(s.req)
    ensures s.req.sent == Chunks(s.req.taken) + Chunks(s.req.inbox) + ReaderHand(s.req.reader)
                          + ChunksOnWire(s.req.wire) + Hand(s.req.writer) + s.req.queue
  {
    ReachableInv(cfg, s);
    var r := s.req;
    OnWire(r.wire);
    ForwardedByReader(r);
    ChunksConcat(r.taken, r.inbox);
    assert r.sent == RequestChunks(r.wire.log) + Hand(r.writer) + r.queue;
  }

  lemma ForwardedWithinRead(r: Request)
    requires ReaderInv(r)
    ensures Chunks(r.forwarded) <= RequestChunks(r.wire.got)
  {
    if r.reader == Idle { assert Chunks(r.forwarded) == []; }
  }

  lemma LoggedWithinSent(r: Request)
    requires WriterInv(r)
    ensures RequestChunks(r.wire.log) <= r.sent
  {
  }

  /** In every reachable state, whatever failed, the handler has taken a prefix of the chunks sent. */
  lemma HandlerSeesPrefix(cfg: Config, s: State)
    requires ValidConfig(cfg) && Reachable(cfg, s)
    ensures Chunks(s.req.taken) <= s.req.sent
  {
    ReachableInv(cfg, s);
    var r := s.req;
    ChunksPrefix(r.taken, r.forwarded);
    ForwardedWithinRead(r);
    RequestChunksPrefix(r.wire.got, r.wire.log);
    LoggedWithinSent(r);
  }

  /** If the server's pump stopped on the end frame, it has handed over exactly all the chunks that were and
      ever will be sent. */
  lemma EndFrameMeansAll(cfg: Config, s: State)
    requires ValidConfig(cfg) && Reachable(cfg, s) && s.req.reader == Stopped(EndFrame)
    ensures AllOk(s.req.forwarded) && Chunks(s.req.forwarded) == s.req.sent
    ensures !s.req.senderAlive
  {
    ReachableInv(cfg, s);
  }

  lemma ServerPumpFailures(r: Request)
    requires ReaderInv(r)
    ensures r.reader.Holding? && r.reader.item.Err? ==>
              r.reader.item.error == READ_FAILED && r.reader.after == Some(ReadFailure)
    ensures r.reader != Stopped(Unexpected) && r.reader != Stopped(ErrorFrame)
  {
  }

  lemma ClientPumpFailures(cfg: Config, p: Response)
    requires ClientInv(cfg, p)
    ensures p.reader.Holding? && p.reader.item.Err? ==>
              p.reader.after == Some(ErrorFrame)
              || (p.reader.item.error == READ_FAILED && p.reader.after == Some(ReadFailure))
    ensures p.reader != Stopped(Unexpected)
  {
  }

  /** Between this client and this server no pump ever meets an unexpected frame or a non-terminal error:
      a failure they pass on is a transport failure or the server's terminal error. */
  lemma NoUnexpectedFrames(cfg: Config, s: State)
    requires ValidConfig(cfg) && Reachable(cfg, s)
    ensures s.req.reader.Holding? && s.req.reader.item.Err? ==>
              s.req.reader.item.error == READ_FAILED && s.req.reader.after == Some(ReadFailure)
    ensures s.resp.reader.Holding? && s.resp.reader.item.Err? ==>
              s.resp.reader.after == Some(ErrorFrame)
              || (s.resp.reader.item.error == READ_FAILED && s.resp.reader.after == Some(ReadFailure))
    ensures s.req.reader != Stopped(Unexpected) && s.resp.reader != Stopped(Unexpected)
    ensures s.req.reader != Stopped(ErrorFrame)
  {
    ReachableInv(cfg, s);
    ServerPumpFailures(s.req);
    ClientPumpFailures(cfg, s.resp);
  }

  // ---- the response direction

  lemma {:induction false} BeforeFailureOf(front: seq<Item>, back: seq<Item>)
    requires AllOk(front)
    ensures BeforeFailure(front + back) == front + BeforeFailure(back)
    ensures FirstFailure(front + back) == FirstFailure(back)
  {
    if front == [] {
      assert front + back == back;
    } else {
      assert (front + back)[1..] == front[1..] + back;
      BeforeFailureOf(front[1..], back);
    }
  }

  lemma AllOkBeforeFailure(items: seq<Item>)
    requires AllOk(items)
    ensures BeforeFailure(items) == items && FirstFailure(items) == None
  {
    BeforeFailureOf(items, []);
    assert items + [] == items;
  }

  /** A terminating failure among the items, and whatever the handler sent after it. */
  lemma FailureSplits(drained: seq<Item>, given: seq<Item>)
    requires OnlyLastFails(drained) && drained <= given
    ensures BeforeFailure(given) == Front(drained)
    ensures FirstFailure(given) == Some(drained[|drained| - 1].error)
  {
    var front, rest := Front(drained), given[|drained| - 1..];
    assert given == front + rest && rest[0] == drained[|drained| - 1];
    BeforeFailureOf(front, rest);
  }

  lemma DecodedOkFrame(word: seq<Frame>, item: Item)
    requires item.Ok?
    ensures DecodedItems(word + [ItemFrame(item)]) == DecodedItems(word) + [item]
  {
    DecodedItemsSnoc(word, ItemFrame(item));
  }

  lemma DecodedAck(cfg: Config)
    ensures DecodedItems([Acknowledgement(cfg)]) == []
  {
    DecodedItemsSnoc([], Acknowledgement(cfg));
    assert [] + [Acknowledgement(cfg)] == [Acknowledgement(cfg)];
  }

  lemma {:induction false} DecodedWord(cfg: Config, items: seq<Item>)
    requires AllOk(items)
    ensures DecodedItems(Word(cfg, items)) == items
  {
    if items == [] {
      DecodedAck(cfg);
      assert Word(cfg, items) == [Acknowledgement(cfg)];
    } else {
      var front, last := Front(items), items[|items| - 1];
      DecodedWord(cfg, front);
      assert items == front + [last];
      WordSnoc(cfg, front, last);
      DecodedOkFrame(Word(cfg, front), last);
    }
  }

  /** Where a log that ends in a terminal frame comes from. */
  lemma TerminalLog(cfg: Config, p: Response)
    requires TaskInv(cfg, p) && EndsTerminal(p.wire.log)
    ensures Accepted(cfg)
    ensures || (p.wire.log == Word(cfg, p.drained) && OnlyLastFails(p.drained) && p.drained <= p.given)
            || (p.outcome.Some? && p.wire.log == Word(cfg, p.drained) + [FinalFrame(p.outcome.value)]
                && AllOk(p.drained) && p.given == p.drained)
  {
    var log, d := p.wire.log, p.drained;
    if Accepted(cfg) && d != [] && AllOk(Front(d)) && log <= Word(cfg, d) {
      NoTerminalBefore(cfg, d, log);
    }
    if Accepted(cfg) && AllOk(d) && p.outcome.Some? && log <= Word(cfg, d) + [FinalFrame(p.outcome.value)]
       && log != Word(cfg, d) + [FinalFrame(p.outcome.value)] {
      assert log <= Word(cfg, d);
      OkWordNotTerminal(cfg, d, log);
    }
    if Accepted(cfg) && AllOk(d) && log == Word(cfg, d) { OkWordNotTerminal(cfg, d, log); }
    if d != [] && Accepted(cfg) && AllOk(Front(d)) && log == Word(cfg, Front(d)) {
      OkWordNotTerminal(cfg, Front(d), log);
    }
  }

  lemma OkWordNotTerminal(cfg: Config, items: seq<Item>, log: seq<Frame>)
    requires Accepted(cfg) && AllOk(items) && log <= Word(cfg, items)
    ensures !EndsTerminal(log)
  {
    if |log| > 1 { OkFrames(items, |log| - 2); }
  }

  lemma NoTerminalBefore(cfg: Config, items: seq<Item>, log: seq<Frame>)
    requires Accepted(cfg) && items != [] && AllOk(Front(items)) && log <= Word(cfg, items) && EndsTerminal(log)
    ensures log == Word(cfg, items) && items[|items| - 1].Err?
  {
    var front, last := Front(items), items[|items| - 1];
    assert items == front + [last];
    WordSnoc(cfg, front, last);
    if |log| <= |Word(cfg, front)| {
      assert log <= Word(cfg, front);
      OkWordNotTerminal(cfg, front, log);
    }
  }

  lemma EndExact(cfg: Config, p: Response)
    requires TaskInv(cfg, p) && StoppedInv(p, EndFrame)
    ensures p.outcome == Some(ReturnedOk)
    ensures AllOk(p.given) && p.forwarded == p.given
  {
    var d, log := p.drained, p.wire.log;
    TerminalLog(cfg, p);
    if OnlyLastFails(d) { LastOfWord(cfg, d); }
    assert log == Word(cfg, d) + [FinalFrame(p.outcome.value)];
    assert FinalFrame(p.outcome.value) == ResponseEnd;
    DecodedWord(cfg, d);
    DecodedItemsSnoc(Word(cfg, d), ResponseEnd);
  }

  /** If the client's pump stopped on the end frame, the handler returned `Ok` with no in-band error and the
      caller's channel was given exactly everything the handler sent. */
  lemma ResponseEndExact(cfg: Config, s: State)
    requires ValidConfig(cfg) && Reachable(cfg, s) && s.resp.reader == Stopped(EndFrame)
    ensures s.resp.outcome == Some(ReturnedOk)
    ensures AllOk(s.resp.given) && s.resp.forwarded == s.resp.given
  {
    ReachableInv(cfg, s);
    EndExact(cfg, s.resp);
  }

  lemma LastOfWord(cfg: Config, items: seq<Item>)
    requires items != []
    ensures var w := Word(cfg, items);
            w[|w| - 1] == ItemFrame(items[|items| - 1]) && Front(w) == Word(cfg, Front(items))
  {
    assert items == Front(items) + [items[|items| - 1]];
    WordSnoc(cfg, Front(items), items[|items| - 1]);
    assert Front(Word(cfg, items)) == Word(cfg, Front(items));
  }

  /** The text of the closing error: the whole rendering of the first in-band failure if there is one, or else of
      how the handler ended. */
  predicate ClosingError(p: Response, message: Text) {
    match FirstFailure(p.given)
    case Some(e) => Shows(e, message)
    case None => p.outcome.Some? && Closes(p.given, p.outcome.value, message)
  }

  /** The client's pump has passed on a closing error. */
  ghost predicate ErrorPassedOn(p: Response, message: Text) {
    && ClosingError(p, message)
    && Chunks(p.forwarded) == Chunks(BeforeFailure(p.given))
    && (p.receiverAlive ==> p.forwarded == BeforeFailure(p.given) + [Err(Handler(message))])
  }

  lemma InBandError(cfg: Config, p: Response, message: Text)
    requires StoppedInv(p, ErrorFrame) && p.reader == Stopped(ErrorFrame)
    requires p.wire.log == Word(cfg, p.drained) && OnlyLastFails(p.drained) && p.drained <= p.given
    requires message == p.wire.got[|p.wire.got| - 1].error.message
    ensures ErrorPassedOn(p, message)
  {
    LastOfWord(cfg, p.drained);
    DecodedWord(cfg, Front(p.drained));
    FailureSplits(p.drained, p.given);
    ErrorDecoded(p, Front(p.drained), message);
    DisplayShows(p.drained[|p.drained| - 1].error);
  }

  lemma ResultError(cfg: Config, p: Response, message: Text)
    requires StoppedInv(p, ErrorFrame) && p.reader == Stopped(ErrorFrame) && p.outcome.Some?
    requires p.wire.log == Word(cfg, p.drained) + [FinalFrame(p.outcome.value)]
    requires AllOk(p.drained) && p.given == p.drained
    requires message == p.wire.got[|p.wire.got| - 1].error.message
    ensures ErrorPassedOn(p, message)
  {
    assert Front(p.wire.got) == Word(cfg, p.drained);
    DecodedWord(cfg, p.drained);
    AllOkBeforeFailure(p.drained);
    ErrorDecoded(p, p.drained, message);
    ClosingTextCloses(p.given, p.outcome.value);
  }

  /** If the client's pump stopped on a terminal error, the caller's channel was given exactly the chunks the
      handler sent before its first in-band error, or all of them when the error is the handler's result or
      a join failure, and then, if the caller still listens, that error with its full text. */
  lemma ErrorExact(cfg: Config, s: State)
    requires ValidConfig(cfg) && Reachable(cfg, s) && s.resp.reader == Stopped(ErrorFrame)
    ensures Chunks(s.resp.forwarded) == Chunks(BeforeFailure(s.resp.given))
    ensures exists message :: ClosingError(s.resp, message)
              && (s.resp.receiverAlive ==> s.resp.forwarded == BeforeFailure(s.resp.given) + [Err(Handler(message))])
  {
    ReachableInv(cfg, s);
    var message := ErrorPasses(cfg, s.resp);
    assert ErrorPassedOn(s.resp, message);
  }

  lemma ErrorPasses(cfg: Config, p: Response) returns (message: Text)
    requires TaskInv(cfg, p) && ClientInv(cfg, p) && p.reader == Stopped(ErrorFrame)
    ensures ErrorPassedOn(p, message)
  {
    assert StoppedInv(p, ErrorFrame);
    message := p.wire.got[|p.wire.got| - 1].error.message;
    TerminalLog(cfg, p);
    if p.wire.log == Word(cfg, p.drained) && OnlyLastFails(p.drained) && p.drained <= p.given {
      InBandError(cfg, p, message);
    } else {
      ResultError(cfg, p, message);
    }
  }

  lemma ErrorDecoded(p: Response, before: seq<Item>, message: Text)
    requires p.reader == Stopped(ErrorFrame) && StoppedInv(p, ErrorFrame)
    requires DecodedItems(Front(p.wire.got)) == before && message == p.wire.got[|p.wire.got| - 1].error.message
    ensures Chunks(p.forwarded) == Chunks(before)
    ensures p.receiverAlive ==> p.forwarded == before + [Err(Handler(message))]
  {
    ChunksSnoc(before, Err(Handler(message)));
  }

  // ---- prefixes, whatever fails

  lemma {:induction false} DecodedPrefix(fs: seq<Frame>, gs: seq<Frame>)
    requires fs <= gs
    ensures DecodedItems(fs) <= DecodedItems(gs)
  {
    if |fs| == |gs| {
      assert fs == gs;
    } else {
      assert fs <= Front(gs);
      DecodedPrefix(fs, Front(gs));
    }
  }

  lemma OkPrefixKept(d: seq<Item>, given: seq<Item>)
    requires AllOk(d) && d <= given
    ensures d <= BeforeFailure(given)
  {
    assert given == d + given[|d|..];
    BeforeFailureOf(d, given[|d|..]);
  }

  lemma ChunksOfWord(cfg: Config, d: seq<Item>, f: Frame)
    requires AllOk(d) && !f.ResponseChunk?
    ensures Chunks(DecodedItems(Word(cfg, d) + [f])) == Chunks(d)
  {
    DecodedWord(cfg, d);
    DecodedItemsSnoc(Word(cfg, d), f);
    if f.Error? { ChunksSnoc(d, Err(Handler(f.error.message))); } else { assert d + [] == d; }
  }

  /** What a log decodes to, when it is no longer than the items allow. */
  lemma DecodedWithin(cfg: Config, log: seq<Frame>, d: seq<Item>, f: Frame, given: seq<Item>)
    requires AllOk(d) && d <= given && log <= Word(cfg, d) + [f] && !f.ResponseChunk?
    ensures Chunks(DecodedItems(log)) <= Chunks(BeforeFailure(given))
  {
    ChunksOfWord(cfg, d, f);
    DecodedPrefix(log, Word(cfg, d) + [f]);
    ChunksPrefix(DecodedItems(log), DecodedItems(Word(cfg, d) + [f]));
    OkPrefixKept(d, given);
    ChunksPrefix(d, BeforeFailure(given));
  }

  lemma LogWithinGiven(cfg: Config, p: Response)
    requires TaskInv(cfg, p)
    ensures Chunks(DecodedItems(p.wire.log)) <= Chunks(BeforeFailure(p.given))
  {
    var d, log := p.drained, p.wire.log;
    if log == [] || log == [Acknowledgement(cfg)] {
      DecodedWithin(cfg, log, [], ResponseEnd, p.given);
    } else if AllOk(d) {
      var f := if p.outcome.Some? then FinalFrame(p.outcome.value) else ResponseEnd;
      if d != [] { assert Word(cfg, Front(d)) <= Word(cfg, d) by { LastOfWord(cfg, d); } }
      DecodedWithin(cfg, log, d, f, p.given);
    } else {
      LastOfWord(cfg, d);
      assert AllOk(Front(d)) && d[|d| - 1].Err?;
      DecodedWithin(cfg, log, Front(d), ItemFrame(d[|d| - 1]), p.given);
    }
  }

  /** In every reachable state, whatever failed, the chunks the caller has received are a prefix of those the
      handler sent before its first in-band error. */
  lemma CallerSeesPrefix(cfg: Config, s: State)
    requires ValidConfig(cfg) && Reachable(cfg, s)
    ensures Chunks(s.resp.received) <= Chunks(BeforeFailure(s.resp.given))
  {
    ReachableInv(cfg, s);
    var p := s.resp;
    ChunksPrefix(p.received, p.forwarded);
    ForwardedWithinGot(cfg, p);
    DecodedPrefix(p.wire.got, p.wire.log);
    ChunksPrefix(DecodedItems(p.wire.got), DecodedItems(p.wire.log));
    LogWithinGiven(cfg, p);
  }

  lemma ForwardedWithinGot(cfg: Config, p: Response)
    requires ClientInv(cfg, p)
    ensures Chunks(p.forwarded) <= Chunks(DecodedItems(p.wire.got))
  {
    var got := p.wire.got;
    match p.reader
    case Idle =>
    case Reading =>
    case Holding(item, _) => if p.forwarded != DecodedItems(got) { ChunksSnoc(p.forwarded, item); }
    case Stopped(why) =>
      if p.forwarded == DecodedItems(got) + [Err(READ_FAILED)] {
        ChunksSnoc(DecodedItems(got), Err(READ_FAILED));
      } else if why == ErrorFrame {
        DecodedPrefix(Front(got), got);
        ChunksPrefix(p.forwarded, DecodedItems(got));
      } else {
        ChunksPrefix(p.forwarded, DecodedItems(got));
      }
  }

  // ---- the server's language and the handshake

  /** Over every run the bytes the server has written begin a word of its language - one refusal, or an
      acceptance, chunks and one terminal frame with nothing after it. Once its task is over they are exactly
      one such word, unless a write failed or bytes were lost, or it never read the open request. */
  lemma ServerLanguage(cfg: Config, s: State)
    requires ValidConfig(cfg) && Reachable(cfg, s)
    ensures AllSendable(s.resp.wire.log) && s.resp.wire.written <= EncodeAll(s.resp.wire.log)
    ensures PrefixOfWord(s.resp.wire.log) && PrefixOfWord(ReadAll(s.resp.wire.written, Finished).0)
    ensures Over(s.resp.task) && s.resp.wire.intact && s.resp.wire.log != [] ==> WholeAnswer(s.resp.wire)
  {
    ReachableClosing(cfg, s);
    OutputLanguage(cfg, s.resp);
    SelfDelimiting(s.resp.wire.log, s.resp.wire.written);
    PrefixesOfWords(ReadAll(s.resp.wire.written, Finished).0, s.resp.wire.log);
    if Over(s.resp.task) && s.resp.wire.intact && s.resp.wire.log != [] { OverIsWhole(cfg, s.resp); }
  }

  lemma AckEchoesId(cfg: Config, p: Response)
    requires TaskInv(cfg, p) && p.wire.got <= p.wire.log && p.wire.got != []
    ensures p.wire.got[0].OpenResponse? && p.wire.got[0].openResponse.requestId == cfg.open.requestId
  {
    FirstIsAck(cfg, p);
    assert p.wire.got[0] == Acknowledgement(cfg);
  }

  /** `call_streaming` succeeds only for a method the server knows, and a refusal that arrives is
      `UnknownMethod` with exactly the name asked for. */
  lemma OpeningIsTyped(cfg: Config, s: State)
    requires ValidConfig(cfg) && Reachable(cfg, s)
    ensures s.opening == Live ==> cfg.open.methodName in cfg.streaming
    ensures s.resp.wire.got != [] ==>
              s.resp.wire.got[0].OpenResponse? && s.resp.wire.got[0].openResponse.requestId == cfg.open.requestId
    ensures s.opening.Failed? && s.resp.wire.got != [] ==>
              s.opening.error == UnknownMethod(cfg.open.methodName) && cfg.open.methodName !in cfg.streaming
    ensures s.opening.Failed? && s.resp.wire.got == [] ==>
              s.opening.error == READ_FAILED || s.opening.error == UNEXPECTED_FRAME
  {
    ReachableInv(cfg, s);
    if s.resp.wire.got != [] { AckEchoesId(cfg, s.resp); }
  }
}
