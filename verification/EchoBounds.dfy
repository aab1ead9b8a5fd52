/** What the two byte streams of an echo call can ever carry, and the bound this puts on its runs. */
module EchoBounds {
  import opened Bytes
  import opened Streaming
  import opened FrameStreams
  import opened CallWire
  import opened Pumps
  import opened Call
  import opened CallInvariants
  import opened CallResponse
  import opened CallTheorems
  import opened Echo

  function Oks(script: seq<Chunk>): seq<Item> { seq(|script|, i requires 0 <= i < |script| => Ok(script[i])) }

  /** All that the client can write, and all that the server can. */
  function FullRequest(cfg: Config, script: seq<Chunk>): seq<Frame> {
    [OpenRequest(cfg.open)] + ChunkFrames(script) + [RequestEnd]
  }

  function FullResponse(cfg: Config, script: seq<Chunk>): seq<Frame> { Word(cfg, Oks(script)) + [ResponseEnd] }

  lemma {:induction false} OksFrames(script: seq<Chunk>, items: seq<Item>)
    requires ValidScript(script) && items <= Oks(script)
    ensures AllSendable(ItemFrames(items))
  {
    if items != [] {
      OksFrames(script, Front(items));
      assert ItemFrame(items[|items| - 1]) == ResponseChunk(script[|items| - 1]);
    }
  }

  lemma FullSendable(cfg: Config, script: seq<Chunk>)
    requires ValidEcho(cfg, script)
    ensures AllSendable(FullRequest(cfg, script)) && AllSendable(FullResponse(cfg, script))
  {
    OksFrames(script, Oks(script));
  }

  // ---- the request stream

  lemma {:induction false} LogIsChunks(cfg: Config, log: seq<Frame>)
    requires RequestLog(cfg, log) && !EndsWithEnd(log)
    ensures log == [OpenRequest(cfg.open)] + ChunkFrames(RequestChunks(log))
  {
    var front, last := log[..|log| - 1], log[|log| - 1];
    if front == [] {
      assert RequestChunks(front) == [];
    } else {
      LogIsChunks(cfg, front);
    }
  }

  lemma UnendedWithin(cfg: Config, script: seq<Chunk>, log: seq<Frame>)
    requires RequestLog(cfg, log) && !EndsWithEnd(log) && RequestChunks(log) <= script
    ensures log <= [OpenRequest(cfg.open)] + ChunkFrames(script)
    ensures RequestChunks(log) == script ==> log == [OpenRequest(cfg.open)] + ChunkFrames(script)
  {
    LogIsChunks(cfg, log);
  }

  lemma EndSplits(cfg: Config, log: seq<Frame>)
    requires RequestLog(cfg, log) && EndsWithEnd(log)
    ensures var front := log[..|log| - 1];
            RequestLog(cfg, front) && !EndsWithEnd(front) && log == front + [RequestEnd]
            && RequestChunks(front) == RequestChunks(log)
  {
    var front := log[..|log| - 1];
    assert front + [RequestEnd] == log;
    RequestChunksSnoc(front, RequestEnd);
  }

  lemma RequestLogWithin(cfg: Config, script: seq<Chunk>, log: seq<Frame>)
    requires RequestLog(cfg, log) && RequestChunks(log) <= script && (EndsWithEnd(log) ==> RequestChunks(log) == script)
    ensures log <= FullRequest(cfg, script)
  {
    if EndsWithEnd(log) {
      EndSplits(cfg, log);
      UnendedWithin(cfg, script, log[..|log| - 1]);
    } else {
      UnendedWithin(cfg, script, log);
    }
  }

  lemma RequestWithin(cfg: Config, script: seq<Chunk>, r: Request)
    requires RequestAccounts(cfg, r) && EchoRequest(script, r)
    ensures r.wire.log <= FullRequest(cfg, script)
  {
    RequestLogWithin(cfg, script, r.wire.log);
  }

  // ---- the items

  lemma {:induction false} OksOfChunks(items: seq<Item>)
    requires AllOk(items)
    ensures items == Oks(Chunks(items))
  {
    if items != [] { OksOfChunks(Front(items)); }
  }

  lemma OksPrefix(cs: seq<Chunk>, ds: seq<Chunk>)
    requires cs <= ds
    ensures Oks(cs) <= Oks(ds)
  {
  }

  /** What the server's pump has handed over is the start of the script. */
  lemma ForwardedWithin(cfg: Config, script: seq<Chunk>, r: Request)
    requires RequestAccounts(cfg, r) && EchoRequest(script, r) && r.wire.got <= r.wire.log
    ensures AllOk(r.forwarded) && r.forwarded <= Oks(script)
    ensures r.reader == Stopped(EndFrame) ==> r.forwarded == Oks(script)
  {
    ForwardedAllOk(script, r);
    OksOfChunks(r.forwarded);
    assert Chunks(r.forwarded) <= RequestChunks(r.wire.got) by {
      if r.reader == Idle { assert Chunks(r.forwarded) == []; }
    }
    RequestChunksPrefix(r.wire.got, r.wire.log);
    assert RequestChunks(r.wire.log) <= script;
    OksPrefix(Chunks(r.forwarded), script);
  }

  lemma ForwardedAllOk(script: seq<Chunk>, r: Request)
    requires ReaderInv(r) && EchoRequest(script, r)
    ensures AllOk(r.forwarded)
  {
  }

  /** Everything the echo has taken, sent and drained is the start of the script. */
  lemma ItemsWithin(cfg: Config, script: seq<Chunk>, s: State)
    requires EchoInv(cfg, script, s)
    ensures s.resp.drained <= s.resp.given <= s.req.taken <= s.req.forwarded <= Oks(script)
    ensures s.resp.outcome.Some? ==> s.resp.given == Oks(script)
  {
    ForwardedWithin(cfg, script, s.req);
    DrainedWithinGiven(cfg, s.resp);
  }

  lemma DrainedWithinGiven(cfg: Config, p: Response)
    requires TaskInv(cfg, p) && EchoResponse(p)
    ensures p.drained <= p.given
  {
  }

  // ---- the response stream

  lemma {:induction false} ItemFramesPrefix(xs: seq<Item>, ys: seq<Item>)
    requires xs <= ys
    ensures ItemFrames(xs) <= ItemFrames(ys)
  {
    if |xs| == |ys| {
      assert xs == ys;
    } else {
      assert xs <= Front(ys);
      ItemFramesPrefix(xs, Front(ys));
    }
  }

  /** The server has written the frames of some items it drained, and the end frame at most after all of them. */
  lemma EchoLog(cfg: Config, p: Response)
    requires TaskInv(cfg, p) && EchoResponse(p)
    ensures p.wire.log == [] || p.wire.log <= Word(cfg, p.drained)
            || (p.outcome.Some? && p.drained == p.given && p.wire.log == Word(cfg, p.drained) + [ResponseEnd])
  {
    if p.drained <= p.given { NoFailureDrained(p); }
    if p.task.Emitting? { LastOfWord(cfg, p.drained); }
  }

  lemma WordsWithin(cfg: Config, log: seq<Frame>, d: seq<Item>, all: seq<Item>)
    requires d <= all
    requires log == [] || log <= Word(cfg, d) || (d == all && log == Word(cfg, d) + [ResponseEnd])
    ensures log <= Word(cfg, all) + [ResponseEnd]
  {
    ItemFramesPrefix(d, all);
    assert Word(cfg, d) <= Word(cfg, all);
  }

  lemma LogWithin(cfg: Config, p: Response, all: seq<Item>)
    requires TaskInv(cfg, p) && EchoResponse(p)
    requires p.drained <= all && (p.outcome.Some? ==> p.given == all)
    ensures p.wire.log <= Word(cfg, all) + [ResponseEnd]
  {
    EchoLog(cfg, p);
    WordsWithin(cfg, p.wire.log, p.drained, all);
  }

  lemma ResponseWithin(cfg: Config, script: seq<Chunk>, s: State)
    requires EchoInv(cfg, script, s)
    ensures s.resp.wire.log <= FullResponse(cfg, script)
  {
    ItemsWithin(cfg, script, s);
    LogWithin(cfg, s.resp, Oks(script));
  }

  // ---- the bound

  lemma PrefixBytes(fs: seq<Frame>, gs: seq<Frame>)
    requires AllSendable(gs) && fs <= gs
    ensures AllSendable(fs) && EncodeAll(fs) <= EncodeAll(gs)
  {
    var more := gs[|fs|..];
    assert gs == fs + more;
    assert AllSendable(fs);
    EncodeAllConcat(fs, more);
  }

  function RequestBound(cfg: Config, script: seq<Chunk>): nat
    requires ValidEcho(cfg, script)
  {
    FullSendable(cfg, script);
    4 * |script| + 4 + 2 * |FullRequest(cfg, script)| + |EncodeAll(FullRequest(cfg, script))|
  }

  function ResponseBound(cfg: Config, script: seq<Chunk>): nat
    requires ValidEcho(cfg, script)
  {
    FullSendable(cfg, script);
    2 * |script| + 6 + 4 * |FullResponse(cfg, script)| + |EncodeAll(FullResponse(cfg, script))|
  }

  function Bound(cfg: Config, script: seq<Chunk>): nat
    requires ValidEcho(cfg, script)
  {
    RequestBound(cfg, script) + ResponseBound(cfg, script)
  }

  lemma WireWithin(w: Wire, full: seq<Frame>)
    requires WireInv(w) && w.log <= full && AllSendable(full)
    ensures |w.got| <= |w.log| <= |full| && |w.written| - |w.inFlight| <= |EncodeAll(full)|
  {
    PrefixBytes(w.log, full);
  }

  /** Counting alone. */
  lemma RequestCount(r: Request, n: nat, frames: nat, bytes: nat)
    requires |r.sent| <= n && |r.wire.got| <= |r.wire.log| <= frames && |r.wire.written| - |r.wire.inFlight| <= bytes
    requires |r.taken| <= n && |r.forwarded| <= n
    ensures RequestProgress(r) <= 4 * n + 4 + 2 * frames + bytes
  {
  }

  lemma RequestBounded(cfg: Config, script: seq<Chunk>, s: State)
    requires ValidEcho(cfg, script) && EchoInv(cfg, script, s)
    ensures RequestProgress(s.req) <= RequestBound(cfg, script)
  {
    FullSendable(cfg, script);
    RequestWithin(cfg, script, s.req);
    WireWithin(s.req.wire, FullRequest(cfg, script));
    ItemsWithin(cfg, script, s);
    RequestCount(s.req, |script|, |FullRequest(cfg, script)|, |EncodeAll(FullRequest(cfg, script))|);
  }

  lemma {:induction false} DecodedCount(fs: seq<Frame>)
    ensures |DecodedItems(fs)| <= |fs|
  {
    if fs != [] { DecodedCount(Front(fs)); }
  }

  lemma ReceivedCount(cfg: Config, p: Response)
    requires ClientInv(cfg, p) && EchoResponse(p)
    ensures |p.forwarded| <= |p.wire.got|
  {
    DecodedCount(p.wire.got);
  }

  lemma ResponseCount(p: Response, n: nat, frames: nat, bytes: nat)
    requires |p.given| <= n && |p.drained| <= n && |p.wire.got| <= |p.wire.log| <= frames
    requires |p.wire.written| - |p.wire.inFlight| <= bytes && |p.received| <= |p.forwarded| <= |p.wire.got|
    ensures ResponseProgress(p) <= 2 * n + 6 + 4 * frames + bytes
  {
  }

  lemma ResponseBounded(cfg: Config, script: seq<Chunk>, s: State)
    requires ValidEcho(cfg, script) && EchoInv(cfg, script, s)
    ensures ResponseProgress(s.resp) <= ResponseBound(cfg, script)
  {
    FullSendable(cfg, script);
    ResponseWithin(cfg, script, s);
    WireWithin(s.resp.wire, FullResponse(cfg, script));
    ItemsWithin(cfg, script, s);
    ReceivedCount(cfg, s.resp);
    ResponseCount(s.resp, |script|, |FullResponse(cfg, script)|, |EncodeAll(FullResponse(cfg, script))|);
  }

  lemma ProgressBounded(cfg: Config, script: seq<Chunk>, s: State)
    requires ValidEcho(cfg, script) && EchoInv(cfg, script, s)
    ensures Progress(s) <= Bound(cfg, script)
  {
    RequestBounded(cfg, script, s);
    ResponseBounded(cfg, script, s);
  }
}
