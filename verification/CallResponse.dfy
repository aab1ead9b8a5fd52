/** What every step keeps of the response direction of a streaming call: the server writes a word of a
    small language, and the client decodes exactly that word. */
module CallResponse {
  import opened Bytes
  import opened Errors
  import opened Quic
  import opened Streaming
  import opened CallWire
  import opened Pumps
  import opened Call
  import opened CallInvariants

  function Acknowledgement(cfg: Config): Frame { Ack(cfg, cfg.open.methodName, cfg.open.requestId) }

  predicate Accepted(cfg: Config) { cfg.open.methodName in cfg.streaming }

  /** The frames of the handler's items. */
  function ItemFrames(items: seq<Item>): (fs: seq<Frame>)
    ensures |fs| == |items|
  {
    if items == [] then [] else ItemFrames(items[..|items| - 1]) + [ItemFrame(items[|items| - 1])]
  }

  lemma ItemFramesSnoc(items: seq<Item>, item: Item)
    ensures ItemFrames(items + [item]) == ItemFrames(items) + [ItemFrame(item)]
  {
    assert (items + [item])[..|items|] == items;
  }

  /** The frames of an accepted call up to some items. */
  function Word(cfg: Config, items: seq<Item>): seq<Frame> { [Acknowledgement(cfg)] + ItemFrames(items) }

  lemma WordSnoc(cfg: Config, items: seq<Item>, item: Item)
    ensures Word(cfg, items + [item]) == Word(cfg, items) + [ItemFrame(item)]
  {
    ItemFramesSnoc(items, item);
  }

  function Front<T>(s: seq<T>): seq<T>
    requires s != []
  {
    s[..|s| - 1]
  }

  predicate OnlyLastFails(items: seq<Item>) { items != [] && AllOk(Front(items)) && items[|items| - 1].Err? }

  /** Nothing of the call has happened yet on this side. */
  predicate Quiet(p: Response) { p.given == [] && p.queue == [] && p.drained == [] && p.outcome.None? }

  predicate StillOpen(w: Wire) { w.end == None || w.end == Some(Lost) }

  /** What the server task has written at each of its awaits, in terms of what the handler sent. */
  predicate TaskInv(cfg: Config, p: Response) {
    var log := p.wire.log;
    match p.task
    case AwaitOpen => log == [] && Quiet(p) && StillOpen(p.wire)
    case Acking(ack) => log == [] && Quiet(p) && StillOpen(p.wire) && ack == Acknowledgement(cfg)
    case TurnedAway => log == [Acknowledgement(cfg)] && Quiet(p) && p.wire.end.Some? && !Accepted(cfg)
    case Draining =>
      Accepted(cfg) && log == Word(cfg, p.drained) && AllOk(p.drained) && p.given == p.drained + p.queue
      && StillOpen(p.wire)
    case Emitting(item) =>
      Accepted(cfg) && p.drained != [] && p.drained[|p.drained| - 1] == item && log == Word(cfg, Front(p.drained))
      && AllOk(Front(p.drained)) && p.given == p.drained + p.queue && StillOpen(p.wire)
    case Joining(wrote) => Accepted(cfg) && JoiningInv(cfg, p, wrote)
    case Finalising(result) =>
      Accepted(cfg) && JoiningInv(cfg, p, NotYet) && p.outcome == Some(result)
    case Closed(complete) => p.wire.end.Some? && (if complete then CompleteLog(cfg, p) else BrokenLog(cfg, p))
  }

  predicate JoiningInv(cfg: Config, p: Response, wrote: Drained) {
    var log := p.wire.log;
    match wrote
    case NotYet => log == Word(cfg, p.drained) && AllOk(p.drained) && p.given == p.drained && p.queue == []
                   && !p.senderAlive && StillOpen(p.wire)
    case InBand => log == Word(cfg, p.drained) && OnlyLastFails(p.drained) && p.drained <= p.given
                   && StillOpen(p.wire)
    case Broken => log <= Word(cfg, p.drained) && p.drained != [] && AllOk(Front(p.drained))
                   && p.drained <= p.given && p.wire.end.Some?
  }

  /** The whole word is written: an in-band failure closes it, or else the handler's result does. */
  predicate CompleteLog(cfg: Config, p: Response) {
    && Accepted(cfg) && p.outcome.Some?
    && ((p.wire.log == Word(cfg, p.drained) && OnlyLastFails(p.drained) && p.drained <= p.given)
        || (p.wire.log == Word(cfg, p.drained) + [FinalFrame(p.outcome.value)] && AllOk(p.drained)
            && p.given == p.drained))
  }

  /** A write failed: what was started is a prefix of a word. */
  predicate BrokenLog(cfg: Config, p: Response) {
    || p.wire.log == []
    || p.wire.log == [Acknowledgement(cfg)]
    || (Accepted(cfg) && p.drained != [] && AllOk(Front(p.drained)) && p.drained <= p.given
        && p.wire.log <= Word(cfg, p.drained))
    || (Accepted(cfg) && AllOk(p.drained) && p.given == p.drained && p.outcome.Some?
        && p.wire.log <= Word(cfg, p.drained) + [FinalFrame(p.outcome.value)])
  }

  predicate IsTerminal(f: Frame) { f.ResponseEnd? || (f.Error? && f.error.terminal) }

  /** The language of the server: a refusal, or an acceptance, chunks and at most one terminal frame. */
  predicate PrefixOfWord(fs: seq<Frame>) {
    || fs == []
    || (fs[0].OpenResponse? && fs[0].openResponse.status.StatusErr? && |fs| == 1)
    || (fs[0].OpenResponse? && fs[0].openResponse.status.StatusOk?
        && forall i :: 1 <= i < |fs| ==> fs[i].ResponseChunk? || (i == |fs| - 1 && IsTerminal(fs[i])))
  }

  predicate CompleteWord(fs: seq<Frame>) {
    fs != [] && PrefixOfWord(fs) && (fs[0].openResponse.status.StatusErr? || (|fs| > 1 && IsTerminal(fs[|fs| - 1])))
  }

  // ---- the reading side

  function DecodedItem(f: Frame): seq<Item> {
    match f
    case ResponseChunk(c) => [Ok(c)]
    case Error(e) => [Err(Handler(e.message))]
    case _ => []
  }

  /** What the client's pump makes of the frames it has decoded. */
  function DecodedItems(fs: seq<Frame>): seq<Item> {
    if fs == [] then [] else DecodedItems(Front(fs)) + DecodedItem(fs[|fs| - 1])
  }

  lemma DecodedItemsSnoc(fs: seq<Frame>, f: Frame)
    ensures DecodedItems(fs + [f]) == DecodedItems(fs) + DecodedItem(f)
  {
    assert Front(fs + [f]) == fs;
  }

  predicate EndsTerminal(fs: seq<Frame>) { fs != [] && IsTerminal(fs[|fs| - 1]) }

  predicate HoldingInv(p: Response, item: Item, after: Option<Why>) {
    var got := p.wire.got;
    || (item.Ok? && after == None && !EndsTerminal(got) && p.forwarded + [item] == DecodedItems(got))
    || (item.Err? && after == Some(ErrorFrame) && got == p.wire.log && EndsTerminal(got) && got[|got| - 1].Error?
        && p.forwarded + [item] == DecodedItems(got))
    || (item == Err(READ_FAILED) && after == Some(ReadFailure) && !EndsTerminal(got)
        && p.forwarded == DecodedItems(got) && (p.wire.intact ==> p.wire.end == Some(Lost)))
  }

  predicate StoppedInv(p: Response, why: Why) {
    var got := p.wire.got;
    match why
    case EndFrame => got == p.wire.log && EndsTerminal(got) && got[|got| - 1].ResponseEnd?
      && p.forwarded == DecodedItems(got)
    case EndOfBytes => !EndsTerminal(got) && p.forwarded == DecodedItems(got) && p.wire.end.Some?
                       && (p.wire.intact ==> got == p.wire.log)
    case ErrorFrame => got == p.wire.log && EndsTerminal(got) && got[|got| - 1].Error?
                       && (p.forwarded == DecodedItems(got)
                           || (!p.receiverAlive && p.forwarded == DecodedItems(Front(got))))
    case ReceiverGone => !p.receiverAlive && p.forwarded <= DecodedItems(got)
    case ReadFailure => (p.forwarded == DecodedItems(got) || p.forwarded == DecodedItems(got) + [Err(READ_FAILED)])
                        && !EndsTerminal(got) && (p.wire.intact ==> p.wire.end == Some(Lost))
    case Unexpected => false
    case Aborted => false
  }

  /** The client's pump meets neither an unexpected frame nor a non-terminal error. */
  predicate ClientInv(cfg: Config, p: Response) {
    && (p.reader != Idle ==> p.wire.got != [] && Accepted(cfg))
    && match p.reader
       case Idle => |p.wire.got| <= 1 && p.forwarded == []
       case Reading => !EndsTerminal(p.wire.got) && p.forwarded == DecodedItems(p.wire.got)
       case Holding(item, after) => HoldingInv(p, item, after)
       case Stopped(why) => StoppedInv(p, why)
  }

  predicate OutboxInv(p: Response) {
    && p.received <= p.forwarded
    && (p.receiverAlive ==> p.received + p.inbox == p.forwarded)
    && (!p.receiverAlive ==> p.inbox == [])
    && |p.inbox| <= CAPACITY && |p.queue| <= CAPACITY
  }

  predicate ResponseAccounts(cfg: Config, p: Response) { TaskInv(cfg, p) && ClientInv(cfg, p) && OutboxInv(p) }

  ghost predicate ResponseInv(cfg: Config, p: Response) { WireInv(p.wire) && ResponseAccounts(cfg, p) }

  // ---- the log is always a prefix of a word

  lemma {:induction false} OkFrames(items: seq<Item>, i: nat)
    requires AllOk(items) && i < |items|
    ensures ItemFrames(items)[i].ResponseChunk?
  {
    if i < |items| - 1 { OkFrames(Front(items), i); }
  }

  /** The frames of a word: the acknowledgement, chunks, and last what the last item gives. */
  lemma WordFrames(cfg: Config, items: seq<Item>)
    requires AllOk(items) || OnlyLastFails(items)
    ensures |Word(cfg, items)| == |items| + 1 && Word(cfg, items)[0] == Acknowledgement(cfg)
    ensures forall i :: 1 <= i < |items| ==> Word(cfg, items)[i].ResponseChunk?
    ensures items != [] ==> Word(cfg, items)[|items|] == ItemFrame(items[|items| - 1])
  {
    forall i | 1 <= i < |items| ensures Word(cfg, items)[i].ResponseChunk? {
      OkFrames(Front(items), i - 1);
    }
  }

  lemma WordIsPrefixOfWord(cfg: Config, items: seq<Item>)
    requires Accepted(cfg) && (AllOk(items) || OnlyLastFails(items))
    ensures PrefixOfWord(Word(cfg, items))
    ensures AllOk(items) ==> forall i :: 1 <= i < |items| + 1 ==> Word(cfg, items)[i].ResponseChunk?
    ensures OnlyLastFails(items) ==> CompleteWord(Word(cfg, items))
  {
    WordFrames(cfg, items);
  }

  lemma PrefixesOfWords(fs: seq<Frame>, gs: seq<Frame>)
    requires fs <= gs && PrefixOfWord(gs)
    ensures PrefixOfWord(fs)
  {
  }

  /** At every await the frames started so far are a prefix of a word, and after an orderly end a word. */
  lemma OutputLanguage(cfg: Config, p: Response)
    requires TaskInv(cfg, p)
    ensures PrefixOfWord(p.wire.log)
    ensures p.task == Closed(true) || p.task == TurnedAway ==> CompleteWord(p.wire.log)
  {
    if Accepted(cfg) {
      if AllOk(p.drained) || OnlyLastFails(p.drained) { WordIsPrefixOfWord(cfg, p.drained); }
      if p.drained != [] && AllOk(Front(p.drained)) {
        WordIsPrefixOfWord(cfg, Front(p.drained));
        assert AllOk(p.drained) || OnlyLastFails(p.drained);
      }
    }
  }
}
