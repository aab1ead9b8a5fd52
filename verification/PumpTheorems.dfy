/** A writing loop on one side against the reading loop on the other, and the loops against the interleaved
    call. */
module PumpTheorems {
  import opened Bytes
  import opened Errors
  import opened Quic
  import opened Streaming
  import opened FrameStreams
  import opened Pumps
  import opened Call
  import opened CallInvariants
  import opened CallResponse
  import opened CallRuns
  import opened CallTheorems
  import opened EchoBounds
  import opened PumpLoops

  // ---- requests: the client's loop, any truncation, the server's loop

  /** What the server's loop makes of a truncation of what the client's loop writes: `whole` if nothing is
      missing. */
  predicate Arrived(chunks: seq<Chunk>, whole: bool, room: nat, items: seq<Item>, why: Why) {
    && |items| <= room && Chunks(items) <= chunks
    && (why == EndFrame <==> whole && room >= |chunks|)
    && (why == EndFrame ==> items == Oks(chunks))
    && (why == ReceiverGone ==> room < |chunks| && items == Oks(chunks[..room]))
    && (why == EndFrame || why == ReceiverGone || why == EndOfBytes || why == ReadFailure)
    && (why != ReadFailure ==> AllOk(items))
    && (forall i :: 0 <= i < |items| && items[i].Err? ==> i == |items| - 1 && items[i] == Err(READ_FAILED))
  }

  lemma ArrivedCons(chunks: seq<Chunk>, whole: bool, room: nat, items: seq<Item>, why: Why)
    requires chunks != [] && room > 0 && Arrived(chunks[1..], whole, room - 1, items, why)
    ensures Arrived(chunks, whole, room, [Ok(chunks[0])] + items, why)
  {
    var head, all := [Ok(chunks[0])], [Ok(chunks[0])] + items;
    ChunksConcat(head, items);
    assert Chunks(head) == [chunks[0]] by { ChunksSnoc([], Ok(chunks[0])); assert [] + head == head; }
    assert Chunks(all) <= chunks;
    assert Oks(chunks) == head + Oks(chunks[1..]);
    if why == ReceiverGone { assert chunks[..room][1..] == chunks[1..][..room - 1]; }
  }

  function ChunkTo(side: Side, c: Chunk): Frame { if side == Server then RequestChunk(c) else ResponseChunk(c) }

  lemma HandOverChunk(side: Side, c: Chunk, more: seq<Frame>, last: RpcResult<()>, room: nat)
    ensures room == 0 ==> HandOver(side, [ChunkTo(side, c)] + more, last, room) == ([], ReceiverGone)
    ensures room > 0 ==> HandOver(side, [ChunkTo(side, c)] + more, last, room)
                         == ([Ok(c)] + HandOver(side, more, last, room - 1).0, HandOver(side, more, last, room - 1).1)
  {
    assert ([ChunkTo(side, c)] + more)[1..] == more;
  }

  lemma NoFramesArrive(chunks: seq<Chunk>, last: RpcResult<()>, room: nat)
    requires last.Ok? || last.error == READ_FAILED
    ensures Arrived(chunks, false, room, HandOver(Server, [], last, room).0, HandOver(Server, [], last, room).1)
    ensures HandOver(Server, [], last, room).1 == EndOfBytes ==> last.Ok?
  {
    ChunksSnoc([], Err(READ_FAILED));
  }

  /** A truncation of a sequence, after its first element. */
  lemma PrefixTail<T>(f: T, more: seq<T>, got: seq<T>)
    requires got <= [f] + more && got != []
    ensures got == [f] + got[1..] && got[1..] <= more
    ensures got[1..] == more <==> got == [f] + more
  {
    assert ([f] + more)[1..] == more;
    assert got[0] == f;
  }

  lemma OutboundSplits(chunks: seq<Chunk>)
    ensures chunks == [] ==> Outbound(chunks) == [RequestEnd]
    ensures chunks != [] ==> Outbound(chunks) == [ChunkTo(Server, chunks[0])] + Outbound(chunks[1..])
  {
  }

  /** What a reading loop makes of some frames of the requests. */
  ghost predicate ArrivesWith(chunks: seq<Chunk>, got: seq<Frame>, last: RpcResult<()>, room: nat) {
    var items := HandOver(Server, got, last, room);
    && Arrived(chunks, got == Outbound(chunks), room, items.0, items.1)
    && (items.1 == EndOfBytes ==> last.Ok?)
  }

  lemma EndArrives(last: RpcResult<()>, room: nat)
    ensures ArrivesWith([], [RequestEnd], last, room)
  {
    OutboundSplits([]);
    assert [RequestEnd][0] == RequestEnd;
    assert OnFrame(Server, RequestEnd) == Stopped(EndFrame);
  }

  lemma ChunkArrivesFirst(chunks: seq<Chunk>, got: seq<Frame>, last: RpcResult<()>, room: nat)
    requires chunks != [] && got != [] && got <= Outbound(chunks)
    requires room > 0 ==> ArrivesWith(chunks[1..], got[1..], last, room - 1)
    ensures ArrivesWith(chunks, got, last, room)
  {
    OutboundSplits(chunks);
    PrefixTail(ChunkTo(Server, chunks[0]), Outbound(chunks[1..]), got);
    HandOverChunk(Server, chunks[0], got[1..], last, room);
    if room > 0 {
      var more := HandOver(Server, got[1..], last, room - 1);
      ArrivedCons(chunks, got == Outbound(chunks), room, more.0, more.1);
    }
  }

  /** What a reading loop hands over of a truncation that ends on a frame boundary or inside a frame. */
  lemma {:induction false} FramesArrive(chunks: seq<Chunk>, got: seq<Frame>, last: RpcResult<()>, room: nat)
    requires got <= Outbound(chunks) && (last.Ok? || last.error == READ_FAILED)
    ensures ArrivesWith(chunks, got, last, room)
    decreases |got|
  {
    OutboundSplits(chunks);
    if got == [] {
      NoFramesArrive(chunks, last, room);
    } else if chunks == [] {
      assert got == [RequestEnd];
      EndArrives(last, room);
    } else {
      PrefixTail(ChunkTo(Server, chunks[0]), Outbound(chunks[1..]), got);
      if room > 0 { FramesArrive(chunks[1..], got[1..], last, room - 1); }
      ChunkArrivesFirst(chunks, got, last, room);
    }
  }

  /** How the stream ends shows only in what the last read returns. */
  lemma {:induction false} EndingShowsLast(bs: seq<byte>, ending: Ending)
    ensures ReadAll(bs, ending).0 == ReadAll(bs, Finished).0
    ensures ReadAll(bs, Finished).1.Err? || ending != Lost ==> ReadAll(bs, ending).1 == ReadAll(bs, Finished).1
    ensures ReadAll(bs, Finished).1.Ok? && ending == Lost ==> ReadAll(bs, ending).1 == Err(READ_FAILED)
    decreases |bs|
  {
    ReadAllStep(bs, ending);
    ReadAllStep(bs, Finished);
    if ParseFrame(bs).Got? { EndingShowsLast(ParseFrame(bs).rest, ending); }
  }

  lemma ReadsPrefix(fs: seq<Frame>, p: seq<byte>, ending: Ending)
    requires AllSendable(fs) && p <= EncodeAll(fs)
    ensures var all := ReadAll(p, ending);
            && all.0 <= fs && (all.1.Ok? || all.1.error == READ_FAILED)
            && (ending == Lost ==> all.1.Err?) && (p == EncodeAll(fs) <==> all.0 == fs)
  {
    SelfDelimiting(fs, p);
    EndingShowsLast(p, ending);
    if p == EncodeAll(fs) { WholeSurvives(fs, ReadAll(p, Finished).0); }
  }

  lemma RequestReads(chunks: seq<Chunk>, p: seq<byte>, ending: Ending)
    requires AllSendable(ChunkFrames(chunks)) && p <= OutboundBytes(chunks)
    ensures var all := ReadAll(p, ending);
            && all.0 <= Outbound(chunks) && (all.1.Ok? || all.1.error == READ_FAILED)
            && (ending == Lost ==> all.1.Err?) && (p == OutboundBytes(chunks) <==> all.0 == Outbound(chunks))
  {
    ReadsPrefix(Outbound(chunks), p, ending);
  }

  /** The two request loops end to end: whatever prefix of the client's writes arrives, however the stream then
      ends and however many items the handler takes, it is handed the chunks in order; it is handed all of
      them, and then the end, exactly when everything arrived and it took everything; anything else is a
      prefix, and a cut inside a frame or a loss shows as one trailing transport failure. */
  lemma RequestLoopsCompose(chunks: seq<Chunk>, p: seq<byte>, ending: Ending, room: nat)
    requires AllSendable(ChunkFrames(chunks)) && p <= OutboundBytes(chunks)
    ensures var items := Pumped(Server, p, ending, room);
            && Arrived(chunks, p == OutboundBytes(chunks), room, items.0, items.1)
            && (ending == Lost ==> items.1 != EndOfBytes)
  {
    RequestReads(chunks, p, ending);
    FramesArrive(chunks, ReadAll(p, ending).0, ReadAll(p, ending).1, room);
  }

  // ---- responses: the server's drain and closing frame, the client's loop

  /** What a caller that listens to the end is handed. */
  function Handed(items: seq<Item>, result: HandlerResult): (seq<Item>, Why) {
    match ClosingText(items, result)
    case None => (BeforeFailure(items), EndFrame)
    case Some(text) => (BeforeFailure(items) + [Err(Handler(text))], ErrorFrame)
  }

  lemma ServedTail(items: seq<Item>, result: HandlerResult)
    requires AllSendableItems(items) && Sendable(FinalFrame(result))
    ensures items == [] ==> ServedFrames(items, result) == [FinalFrame(result)]
    ensures items != [] && items[0].Err? ==> ServedFrames(items, result) == [ItemFrame(items[0])]
    ensures items != [] && items[0].Ok? ==>
              AllSendableItems(items[1..])
              && ServedFrames(items, result) == [ItemFrame(items[0])] + ServedFrames(items[1..], result)
  {
    AllOkNext(items);
  }

  lemma ServedSendable(items: seq<Item>, result: HandlerResult)
    requires AllSendableItems(items) && Sendable(FinalFrame(result))
    ensures AllSendable(ServedFrames(items, result))
  {
    DrainSendable(items);
  }

  /** What the client's loop makes of a truncation of the server's answer: `whole` if nothing is missing. */
  predicate Answered(items: seq<Item>, result: HandlerResult, whole: bool, room: nat, got: seq<Item>, why: Why) {
    var before, text := BeforeFailure(items), ClosingText(items, result);
    && |got| <= room && Chunks(got) <= Chunks(before)
    && (why == EndFrame <==> whole && text.None? && room >= |before|)
    && (why == ErrorFrame <==> whole && text.Some? && room >= |before|)
    && (why == EndFrame || why == ErrorFrame ==> got == if room > |before| then Handed(items, result).0 else before)
    && (why == ReceiverGone ==> room < |before| && got == before[..room])
    && (why == EndFrame || why == ErrorFrame || why == ReceiverGone || why == EndOfBytes || why == ReadFailure)
    && (why == EndOfBytes ==> AllOk(got))
    && (why == ReadFailure ==>
          forall i :: 0 <= i < |got| && got[i].Err? ==> i == |got| - 1 && got[i] == Err(READ_FAILED))
  }

  lemma HandOverClosing(f: Frame, last: RpcResult<()>, room: nat)
    requires f.ResponseEnd? || (f.Error? && f.error.terminal)
    ensures HandOver(Client, [f], last, room) ==
            if f.ResponseEnd? then ([], EndFrame)
            else (if room == 0 then [] else [Err(Handler(f.error.message))], ErrorFrame)
  {
    var fs, item: Item := [f], if f.ResponseEnd? then Ok([]) else Err(Handler(f.error.message));
    assert fs[0] == f;
    assert OnFrame(Client, f) == if f.ResponseEnd? then Stopped(EndFrame) else Holding(item, Some(ErrorFrame));
    assert OneTurn(OnFrame(Client, f), room) ==
           if f.ResponseEnd? then Turn([], Some(EndFrame))
           else Turn(if room == 0 then [] else [item], Some(ErrorFrame));
  }

  /** The frame that closes an answer with no chunk before it. */
  function ClosingFrame(items: seq<Item>, result: HandlerResult): Frame
    requires items == [] || items[0].Err?
  {
    if items == [] then FinalFrame(result) else ItemFrame(items[0])
  }

  lemma ClosingFrameTells(items: seq<Item>, result: HandlerResult)
    requires items == [] || items[0].Err?
    ensures var f, text := ClosingFrame(items, result), ClosingText(items, result);
            && (text.None? ==> f == ResponseEnd)
            && (text.Some? ==> f == Error(StreamingError(text.value, true)))
    ensures BeforeFailure(items) == []
    ensures ClosingText(items, result).Some? ==>
              Handed(items, result).0 == [Err(Handler(ClosingText(items, result).value))]
    ensures ClosingText(items, result).None? ==> Handed(items, result).0 == []
  {
    var text := ClosingText(items, result);
    if text.Some? {
      var error: Item := Err(Handler(text.value));
      assert [] + [error] == [error];
    }
  }

  lemma AnsweredAtOnce(items: seq<Item>, result: HandlerResult, room: nat, got: seq<Item>, why: Why)
    requires BeforeFailure(items) == []
    requires why == if ClosingText(items, result).None? then EndFrame else ErrorFrame
    requires got == if room > 0 then Handed(items, result).0 else []
    requires Handed(items, result).0 == [] || (|Handed(items, result).0| == 1 && Handed(items, result).0[0].Err?)
    ensures Answered(items, result, true, room, got, why)
  {
    if got != [] {
      ChunksSnoc([], got[0]);
      assert [] + [got[0]] == got;
    }
  }

  lemma ClosingAnswered(items: seq<Item>, result: HandlerResult, last: RpcResult<()>, room: nat)
    requires items == [] || items[0].Err?
    ensures var got := HandOver(Client, [ClosingFrame(items, result)], last, room);
            Answered(items, result, true, room, got.0, got.1)
  {
    var f := ClosingFrame(items, result);
    ClosingFrameTells(items, result);
    HandOverClosing(f, last, room);
    var got := HandOver(Client, [f], last, room);
    AnsweredAtOnce(items, result, room, got.0, got.1);
  }

  lemma NothingAnswered(items: seq<Item>, result: HandlerResult, last: RpcResult<()>, room: nat)
    requires last.Ok? || last.error == READ_FAILED
    ensures var got := HandOver(Client, [], last, room);
            Answered(items, result, false, room, got.0, got.1) && (got.1 == EndOfBytes ==> last.Ok?)
  {
    var failed: Item := Err(READ_FAILED);
    ChunksSnoc([], failed);
    assert [] + [failed] == [failed];
  }

  lemma BeforeFailureCons(items: seq<Item>, result: HandlerResult)
    requires items != [] && items[0].Ok?
    ensures BeforeFailure(items) == [items[0]] + BeforeFailure(items[1..])
    ensures ClosingText(items, result) == ClosingText(items[1..], result)
    ensures Handed(items, result).0 == [items[0]] + Handed(items[1..], result).0
    ensures Chunks(BeforeFailure(items)) == [items[0].value] + Chunks(BeforeFailure(items[1..]))
  {
    ChunksConcat([items[0]], BeforeFailure(items[1..]));
    OneChunk(items[0]);
  }

  lemma OneChunk(item: Item)
    requires item.Ok?
    ensures Chunks([item]) == [item.value]
  {
    ChunksSnoc([], item);
    assert [] + [item] == [item];
  }

  lemma AnsweredCons(items: seq<Item>, result: HandlerResult, whole: bool, room: nat, got: seq<Item>, why: Why)
    requires items != [] && items[0].Ok? && room > 0 && Answered(items[1..], result, whole, room - 1, got, why)
    ensures Answered(items, result, whole, room, [items[0]] + got, why)
  {
    BeforeFailureCons(items, result);
    ChunksConcat([items[0]], got);
    OneChunk(items[0]);
    if why == ReceiverGone {
      assert BeforeFailure(items)[..room] == [items[0]] + BeforeFailure(items[1..])[..room - 1];
    }
  }

  lemma GoneAnswered(items: seq<Item>, result: HandlerResult, whole: bool)
    requires items != [] && items[0].Ok?
    ensures Answered(items, result, whole, 0, [], ReceiverGone)
  {
    BeforeFailureCons(items, result);
  }

  /** The answer, or what arrives of it, after its first chunk. */
  lemma AnswerTail(items: seq<Item>, result: HandlerResult, fs: seq<Frame>)
    requires AllSendableItems(items) && Sendable(FinalFrame(result)) && items != [] && items[0].Ok?
    requires fs <= ServedFrames(items, result) && fs != []
    ensures AllSendableItems(items[1..]) && fs == [ChunkTo(Client, items[0].value)] + fs[1..]
    ensures fs[1..] <= ServedFrames(items[1..], result)
    ensures fs[1..] == ServedFrames(items[1..], result) <==> fs == ServedFrames(items, result)
  {
    ServedTail(items, result);
    PrefixTail(ChunkTo(Client, items[0].value), ServedFrames(items[1..], result), fs);
  }

  /** What the client's loop makes of some frames of an answer. */
  ghost predicate AnswersWith(items: seq<Item>, result: HandlerResult, fs: seq<Frame>, last: RpcResult<()>, room: nat)
    requires AllSendableItems(items) && Sendable(FinalFrame(result))
  {
    var got := HandOver(Client, fs, last, room);
    && Answered(items, result, fs == ServedFrames(items, result), room, got.0, got.1)
    && (got.1 == EndOfBytes ==> last.Ok?)
  }

  lemma ClosingArrives(items: seq<Item>, result: HandlerResult, fs: seq<Frame>, last: RpcResult<()>, room: nat)
    requires AllSendableItems(items) && Sendable(FinalFrame(result)) && (items == [] || items[0].Err?)
    requires fs <= ServedFrames(items, result) && fs != []
    ensures AnswersWith(items, result, fs, last, room)
  {
    ServedTail(items, result);
    assert fs == ServedFrames(items, result) == [ClosingFrame(items, result)];
    ClosingAnswered(items, result, last, room);
    ClosingFrameTells(items, result);
    HandOverClosing(ClosingFrame(items, result), last, room);
  }

  lemma ChunkArrives(items: seq<Item>, result: HandlerResult, fs: seq<Frame>, last: RpcResult<()>, room: nat)
    requires AllSendableItems(items) && Sendable(FinalFrame(result)) && items != [] && items[0].Ok?
    requires fs <= ServedFrames(items, result) && fs != []
    requires AllSendableItems(items[1..]) && (room > 0 ==> AnswersWith(items[1..], result, fs[1..], last, room - 1))
    ensures AnswersWith(items, result, fs, last, room)
  {
    AnswerTail(items, result, fs);
    HandOverChunk(Client, items[0].value, fs[1..], last, room);
    if room == 0 {
      GoneAnswered(items, result, fs == ServedFrames(items, result));
    } else {
      var got := HandOver(Client, fs[1..], last, room - 1);
      AnsweredCons(items, result, fs == ServedFrames(items, result), room, got.0, got.1);
    }
  }

  lemma ServedNotEmpty(items: seq<Item>, result: HandlerResult)
    ensures ServedFrames(items, result) != []
  {
  }

  lemma {:induction false} AnswerArrives(items: seq<Item>, result: HandlerResult, fs: seq<Frame>,
                                         last: RpcResult<()>, room: nat)
    requires AllSendableItems(items) && Sendable(FinalFrame(result))
    requires fs <= ServedFrames(items, result) && (last.Ok? || last.error == READ_FAILED)
    ensures AnswersWith(items, result, fs, last, room)
    decreases |fs|
  {
    if fs == [] {
      ServedNotEmpty(items, result);
      NothingAnswered(items, result, last, room);
    } else if items == [] || items[0].Err? {
      ClosingArrives(items, result, fs, last, room);
    } else {
      AnswerTail(items, result, fs);
      if room > 0 { AnswerArrives(items[1..], result, fs[1..], last, room - 1); }
      ChunkArrives(items, result, fs, last, room);
    }
  }

  /** The two response loops end to end: whatever prefix of the server's answer arrives, however the stream then
      ends and however many items the caller takes, it is handed in order what the handler sent before its
      first in-band failure; it is handed all of that, and then the end or one error with the full text,
      exactly when everything arrived and it took everything. */
  lemma ResponseLoopsCompose(items: seq<Item>, result: HandlerResult, p: seq<byte>, ending: Ending, room: nat)
    requires AllSendableItems(items) && Sendable(FinalFrame(result)) && p <= ServedBytes(items, result)
    ensures var got := Pumped(Client, p, ending, room);
            && Answered(items, result, p == ServedBytes(items, result), room, got.0, got.1)
            && (ending == Lost ==> got.1 != EndOfBytes)
            && (got.1 == ErrorFrame && room > |BeforeFailure(items)| ==>
                  exists text :: Closes(items, result, text) && got.0 == BeforeFailure(items) + [Err(Handler(text))])
  {
    ClosingTextCloses(items, result);
    ServedSendable(items, result);
    var all := ReadAll(p, ending);
    ReadsPrefix(ServedFrames(items, result), p, ending);
    AnswerArrives(items, result, all.0, all.1, room);
  }

  // ---- the loops and the interleaved call

  lemma {:induction false} DrainConcat(front: seq<Item>, back: seq<Item>)
    requires AllOk(front)
    ensures DrainFrames(front + back) == DrainFrames(front) + DrainFrames(back)
  {
    if front == [] {
      assert front + back == back;
    } else {
      assert (front + back)[1..] == front[1..] + back;
      DrainConcat(front[1..], back);
    }
  }

  /** Without a failure the drain writes every item. */
  lemma {:induction false} DrainsAll(items: seq<Item>)
    requires AllOk(items)
    ensures DrainFrames(items) == ItemFrames(items)
    decreases |items|
  {
    if items != [] {
      var front, last := Front(items), items[|items| - 1];
      DrainsAll(front);
      DrainConcat(front, [last]);
      assert items == front + [last] && DrainFrames([last]) == [ItemFrame(last)];
    }
  }

  lemma DrainsUpTo(d: seq<Item>, given: seq<Item>)
    requires OnlyLastFails(d) && d <= given
    ensures DrainFrames(given) == ItemFrames(d) && !AllOk(given)
  {
    var last, rest := d[|d| - 1], given[|d| - 1..];
    DrainsAll(Front(d));
    DrainConcat(Front(d), rest);
    assert given == Front(d) + rest && rest[0] == last && given[|d| - 1] == last;
    assert DrainFrames(rest) == [ItemFrame(last)];
  }

  lemma ServedWord(given: seq<Item>, d: seq<Item>, result: HandlerResult)
    ensures AllOk(given) ==> ServedFrames(given, result) == ItemFrames(given) + [FinalFrame(result)]
    ensures OnlyLastFails(d) && d <= given ==> ServedFrames(given, result) == ItemFrames(d)
  {
    if AllOk(given) { DrainsAll(given); }
    if OnlyLastFails(d) && d <= given { DrainsUpTo(d, given); }
  }

  lemma CompleteIsServed(cfg: Config, p: Response)
    requires CompleteLog(cfg, p)
    ensures p.wire.log == [Acknowledgement(cfg)] + ServedFrames(p.given, p.outcome.value)
  {
    ServedWord(p.given, p.drained, p.outcome.value);
  }

  lemma ClosedIsComplete(cfg: Config, p: Response)
    requires TaskInv(cfg, p) && p.task == Closed(true)
    ensures CompleteLog(cfg, p)
  {
  }

  /** Whatever the interleaving was, a server task that closed in order has written the acknowledgement and
      then exactly what the drain and finalise loops, run alone on everything the handler sent and returned,
      would have written. */
  lemma InterleavedLikeTheLoops(cfg: Config, s: State)
    requires ValidConfig(cfg) && Reachable(cfg, s) && s.resp.task == Closed(true)
    ensures s.resp.outcome.Some?
    ensures s.resp.wire.log == [Acknowledgement(cfg)] + ServedFrames(s.resp.given, s.resp.outcome.value)
  {
    ReachableInv(cfg, s);
    ClosedIsComplete(cfg, s.resp);
    CompleteIsServed(cfg, s.resp);
  }
}
