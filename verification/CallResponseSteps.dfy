/** Every step keeps the invariants of the response direction. */
module CallResponseSteps {
  import opened Bytes
  import opened Errors
  import opened Quic
  import opened Streaming
  import opened FrameStreams
  import opened CallWire
  import opened Pumps
  import opened Call
  import opened CallInvariants
  import opened CallResponse

  /** The writing side moved; the client's pump sees the same decoded frames. */
  lemma ClientUntouched(cfg: Config, p: Response, n: Response)
    requires ClientInv(cfg, p)
    requires n.reader == p.reader && n.forwarded == p.forwarded && n.receiverAlive == p.receiverAlive
    requires n.wire.got == p.wire.got
    requires n.wire.log == p.wire.log || (p.wire.got <= p.wire.log && !EndsTerminal(p.wire.log))
    requires p.wire.end.Some? ==> n.wire.end.Some?
    requires n.wire.intact ==> p.wire.intact
    requires n.wire.intact && p.wire.end.Some? ==> n.wire.end == p.wire.end && n.wire.log == p.wire.log
    ensures ClientInv(cfg, n)
  {
  }

  /** The reading side, or the handler's end of the channel, moved; the server task sees no difference. */
  lemma TaskUntouched(cfg: Config, p: Response, n: Response)
    requires TaskInv(cfg, p)
    requires n.task == p.task && n.drained == p.drained && n.given == p.given && n.queue == p.queue
    requires n.outcome == p.outcome && (n.senderAlive ==> p.senderAlive)
    requires n.wire.log == p.wire.log && (n.wire.end == p.wire.end || n.wire.end == Some(Lost))
    ensures TaskInv(cfg, n)
  {
  }

  /** A log that still grows ends in no terminal frame. */
  lemma NotTerminalYet(cfg: Config, items: seq<Item>)
    requires Accepted(cfg) && AllOk(items)
    ensures !EndsTerminal(Word(cfg, items))
  {
    if items != [] { OkFrames(items, |items| - 1); }
  }

  // ---- the server task

  lemma AckAccounts(cfg: Config, p: Response, n: Response)
    requires ResponseAccounts(cfg, p) && p.task.Acking? && p.wire.end.None? && p.wire.got <= p.wire.log
    requires n.wire.log == p.wire.log + [p.task.ack] && n.wire.got == p.wire.got && n.wire.intact == p.wire.intact
    requires Accepted(cfg) ==> n == p.(wire := n.wire, task := Draining) && n.wire.end.None?
    requires !Accepted(cfg) ==> n == p.(wire := n.wire, task := TurnedAway) && n.wire.end.Some?
    ensures ResponseAccounts(cfg, n)
  {
    assert Word(cfg, []) == [Acknowledgement(cfg)];
    ClientUntouched(cfg, p, n);
  }

  lemma ServerAckInv(cfg: Config, p: Response)
    requires ResponseInv(cfg, p) && ServerAckStep(p).Some?
    ensures ResponseInv(cfg, ServerAckStep(p).value)
  {
    OfferInv(p.wire, p.task.ack);
    AckAccounts(cfg, p, ServerAckStep(p).value);
  }

  lemma SeeEndInv(cfg: Config, p: Response)
    requires ResponseInv(cfg, p) && DrainSeeEndStep(p).Some?
    ensures ResponseInv(cfg, DrainSeeEndStep(p).value)
  {
    var n := DrainSeeEndStep(p).value;
    assert p.drained + p.queue == p.drained;
    ClientUntouched(cfg, p, n);
  }

  lemma DrainTakeInv(cfg: Config, p: Response)
    requires ResponseInv(cfg, p) && DrainTakeStep(p).Some?
    ensures ResponseInv(cfg, DrainTakeStep(p).value)
  {
    var n := DrainTakeStep(p).value;
    Regroup(p.drained, p.queue);
    assert Front(n.drained) == p.drained;
    assert TaskInv(cfg, n);
    ClientUntouched(cfg, p, n);
  }

  lemma EmitAccounts(cfg: Config, p: Response, n: Response)
    requires ResponseAccounts(cfg, p) && p.task.Emitting? && p.wire.end.None? && p.wire.got <= p.wire.log
    requires n.wire.log == p.wire.log + [ItemFrame(p.task.item)]
    requires n.wire.got == p.wire.got && n.wire.intact == p.wire.intact && n.wire.end.None?
    requires p.task.item.Ok? ==> n == p.(wire := n.wire, task := Draining)
    requires p.task.item.Err? ==> n == p.(wire := n.wire, task := Joining(InBand), queue := [])
    ensures ResponseAccounts(cfg, n)
  {
    var front := Front(p.drained);
    assert p.drained == front + [p.task.item];
    WordSnoc(cfg, front, p.task.item);
    NotTerminalYet(cfg, front);
    ClientUntouched(cfg, p, n);
  }

  lemma DrainWriteInv(cfg: Config, p: Response)
    requires ResponseInv(cfg, p) && DrainWriteStep(p).Some?
    ensures ResponseInv(cfg, DrainWriteStep(p).value)
  {
    OfferInv(p.wire, ItemFrame(p.task.item));
    EmitAccounts(cfg, p, DrainWriteStep(p).value);
  }

  lemma EmitBreaks(cfg: Config, p: Response, n: Response)
    requires ResponseAccounts(cfg, p) && p.task.Emitting? && p.wire.got <= p.wire.log
    requires n == p.(wire := n.wire, task := Joining(Broken), queue := [])
    requires n.wire.log == p.wire.log || n.wire.log == p.wire.log + [ItemFrame(p.task.item)]
    requires n.wire.got == p.wire.got && n.wire.end.Some? && (p.wire.end.Some? ==> n.wire == p.wire)
    requires p.wire.end.None? ==> !n.wire.intact
    ensures ResponseAccounts(cfg, n)
  {
    var front := Front(p.drained);
    assert p.drained == front + [p.task.item];
    WordSnoc(cfg, front, p.task.item);
    NotTerminalYet(cfg, front);
    ClientUntouched(cfg, p, n);
  }

  lemma FinalAccounts(cfg: Config, p: Response, n: Response)
    requires ResponseAccounts(cfg, p) && p.task.Finalising? && p.wire.got <= p.wire.log
    requires n == p.(wire := n.wire, task := n.task) && n.task.Closed?
    requires n.wire.log == p.wire.log + [FinalFrame(p.task.result)]
             || (n.wire.log == p.wire.log && !n.task.complete)
    requires n.wire.got == p.wire.got && n.wire.end.Some? && (p.wire.end.Some? ==> n.wire == p.wire)
    requires p.wire.end.None? ==> n.wire.intact ==> p.wire.intact
    ensures ResponseAccounts(cfg, n)
  {
    NotTerminalYet(cfg, p.drained);
    ClientUntouched(cfg, p, n);
  }

  lemma FinaliseInv(cfg: Config, p: Response)
    requires ResponseInv(cfg, p) && FinaliseStep(p).Some?
    ensures ResponseInv(cfg, FinaliseStep(p).value)
  {
    OfferInv(p.wire, FinalFrame(p.task.result));
    FinalAccounts(cfg, p, FinaliseStep(p).value);
  }

  lemma AckBreaks(cfg: Config, p: Response, n: Response)
    requires ResponseAccounts(cfg, p) && p.task.Acking? && p.wire.got <= p.wire.log
    requires n == p.(wire := n.wire, task := Closed(false))
    requires n.wire.log == p.wire.log || n.wire.log == p.wire.log + [p.task.ack]
    requires n.wire.got == p.wire.got && n.wire.end.Some? && (p.wire.end.Some? ==> n.wire == p.wire)
    requires p.wire.end.None? ==> !n.wire.intact
    ensures ResponseAccounts(cfg, n)
  {
    ClientUntouched(cfg, p, n);
  }

  lemma AckFailInv(cfg: Config, p: Response, cut: nat, end: Ending)
    requires ResponseInv(cfg, p) && p.task.Acking? && Sendable(p.task.ack)
    ensures ResponseInv(cfg, p.(wire := Cut(p.wire, p.task.ack, cut, end), task := Closed(false)))
  {
    CutInv(p.wire, p.task.ack, cut, end);
    AckBreaks(cfg, p, p.(wire := Cut(p.wire, p.task.ack, cut, end), task := Closed(false)));
  }

  lemma EmitFailInv(cfg: Config, p: Response, cut: nat, end: Ending)
    requires ResponseInv(cfg, p) && p.task.Emitting? && SendableItem(p.task.item)
    ensures ResponseInv(cfg, p.(wire := Cut(p.wire, ItemFrame(p.task.item), cut, end), task := Joining(Broken),
            queue := []))
  {
    CutInv(p.wire, ItemFrame(p.task.item), cut, end);
    EmitBreaks(cfg, p, p.(wire := Cut(p.wire, ItemFrame(p.task.item), cut, end), task := Joining(Broken), queue := []));
  }

  lemma FinalFailInv(cfg: Config, p: Response, cut: nat, end: Ending)
    requires ResponseInv(cfg, p) && p.task.Finalising? && Sendable(FinalFrame(p.task.result))
    ensures ResponseInv(cfg, p.(wire := Cut(p.wire, FinalFrame(p.task.result), cut, end), task := Closed(false)))
  {
    CutInv(p.wire, FinalFrame(p.task.result), cut, end);
    FinalAccounts(cfg, p, p.(wire := Cut(p.wire, FinalFrame(p.task.result), cut, end), task := Closed(false)));
  }

  lemma DrainFailInv(cfg: Config, p: Response, cut: nat, end: Ending)
    requires ResponseInv(cfg, p) && DrainFailStep(p, cut, end).Some?
    ensures ResponseInv(cfg, DrainFailStep(p, cut, end).value)
  {
    if p.task.Acking? {
      AckFailInv(cfg, p, cut, end);
    } else if p.task.Emitting? {
      EmitFailInv(cfg, p, cut, end);
    } else {
      FinalFailInv(cfg, p, cut, end);
    }
  }

  lemma JoinFinalises(cfg: Config, p: Response, n: Response)
    requires ResponseAccounts(cfg, p) && p.task == Joining(NotYet) && p.outcome.Some?
    requires n == p.(task := Finalising(p.outcome.value))
    ensures ResponseAccounts(cfg, n)
  {
    assert TaskInv(cfg, n);
    ClientUntouched(cfg, p, n);
  }

  lemma JoinCloses(cfg: Config, p: Response, n: Response)
    requires ResponseAccounts(cfg, p) && p.task.Joining? && p.task.wrote != NotYet && p.outcome.Some?
    requires n == p.(wire := n.wire, task := Closed(p.task.wrote == InBand))
    requires n.wire == p.wire.(end := n.wire.end) && n.wire.end.Some?
    requires p.wire.end.Some? ==> n.wire == p.wire
    ensures ResponseAccounts(cfg, n)
  {
    assert TaskInv(cfg, n);
    ClientUntouched(cfg, p, n);
  }

  lemma JoinClosesInv(cfg: Config, p: Response, n: Response)
    requires ResponseInv(cfg, p) && JoinStep(p).Some? && p.task.wrote != NotYet
    requires n == p.(wire := Close(p.wire), task := Closed(p.task.wrote == InBand))
    ensures ResponseInv(cfg, n)
  {
    CloseInv(p.wire);
    JoinCloses(cfg, p, n);
  }

  lemma JoinInv(cfg: Config, p: Response)
    requires ResponseInv(cfg, p) && JoinStep(p).Some?
    ensures ResponseInv(cfg, JoinStep(p).value)
  {
    if p.task.wrote == NotYet {
      JoinFinalises(cfg, p, p.(task := Finalising(p.outcome.value)));
    } else {
      JoinClosesInv(cfg, p, JoinStep(p).value);
    }
  }

  // ---- the client's pump

  /** The next logged frame is a chunk or terminal, and it is the last if it is terminal. */
  lemma NextFrame(cfg: Config, p: Response)
    requires TaskInv(cfg, p) && p.wire.got != [] && p.wire.got < p.wire.log
    ensures var f := p.wire.log[|p.wire.got|];
            f.ResponseChunk? || (IsTerminal(f) && p.wire.got + [f] == p.wire.log)
  {
    OutputLanguage(cfg, p);
  }

  lemma ClientReadsFrame(cfg: Config, p: Response, n: Response, f: Frame)
    requires ResponseAccounts(cfg, p) && p.reader == Reading
    requires p.wire.got < p.wire.log && f == p.wire.log[|p.wire.got|]
    requires n == p.(reader := OnFrame(Client, f), wire := n.wire)
    requires n.wire == p.wire.(arrived := n.wire.arrived, got := p.wire.got + [f])
    ensures ResponseAccounts(cfg, n)
  {
    NextFrame(cfg, p);
    DecodedItemsSnoc(p.wire.got, f);
    TaskUntouched(cfg, p, n);
    assert ClientInv(cfg, n);
  }

  lemma ClientReadsNoFrame(cfg: Config, p: Response, n: Response, read: RpcResult<Option<Frame>>)
    requires ResponseAccounts(cfg, p) && p.reader == Reading
    requires read == Ok(None) || read == Err(READ_FAILED)
    requires p.wire.end.Some?
    requires read.Err? ==> p.wire.intact ==> p.wire.end == Some(Lost)
    requires read.Ok? ==> p.wire.intact ==> p.wire.got == p.wire.log
    requires n == p.(reader := OnRead(Client, read), wire := p.wire.(arrived := n.wire.arrived))
    ensures ResponseAccounts(cfg, n)
  {
    TaskUntouched(cfg, p, n);
  }

  lemma ResponseReadInv(cfg: Config, p: Response)
    requires ResponseInv(cfg, p) && ResponseReadStep(p).Some?
    ensures ResponseInv(cfg, ResponseReadStep(p).value)
  {
    ReadInv(p.wire);
    var read, n := ReadNow(p.wire), ResponseReadStep(p).value;
    if read.Ok? && read.value.Some? {
      ClientReadsFrame(cfg, p, n, read.value.value);
    } else {
      ClientReadsNoFrame(cfg, p, n, read);
    }
  }

  lemma ClientForwards(cfg: Config, p: Response, n: Response)
    requires ClientInv(cfg, p) && p.reader.Holding?
    requires n == p.(reader := Forwarded(p.reader), forwarded := p.forwarded + [p.reader.item], inbox := n.inbox)
    ensures ClientInv(cfg, n)
  {
  }

  lemma ClientRefused(cfg: Config, p: Response, n: Response)
    requires ClientInv(cfg, p) && p.reader.Holding? && !p.receiverAlive && n == p.(reader := Refused(p.reader))
    ensures ClientInv(cfg, n)
  {
    if p.reader.after == Some(ErrorFrame) && p.reader.item.Err? { LastDecoded(p.forwarded, p.reader.item, p.wire.got); }
  }

  lemma ForwardAccounts(cfg: Config, p: Response, n: Response)
    requires ResponseAccounts(cfg, p) && ResponseForwardStep(p) == Some(n)
    ensures ResponseAccounts(cfg, n)
  {
    TaskUntouched(cfg, p, n);
    ClientForwards(cfg, p, n);
  }

  lemma ResponseForwardInv(cfg: Config, p: Response)
    requires ResponseInv(cfg, p) && ResponseForwardStep(p).Some?
    ensures ResponseInv(cfg, ResponseForwardStep(p).value)
  {
    ForwardAccounts(cfg, p, ResponseForwardStep(p).value);
  }

  lemma RefusedAccounts(cfg: Config, p: Response, n: Response)
    requires ResponseAccounts(cfg, p) && ResponseRefusedStep(p) == Some(n)
    ensures ResponseAccounts(cfg, n)
  {
    TaskUntouched(cfg, p, n);
    ClientRefused(cfg, p, n);
  }

  lemma ResponseRefusedInv(cfg: Config, p: Response)
    requires ResponseInv(cfg, p) && ResponseRefusedStep(p).Some?
    ensures ResponseInv(cfg, ResponseRefusedStep(p).value)
  {
    RefusedAccounts(cfg, p, ResponseRefusedStep(p).value);
  }

  lemma LastDecoded(forwarded: seq<Item>, item: Item, got: seq<Frame>)
    requires got != [] && got[|got| - 1].Error? && forwarded + [item] == DecodedItems(got)
    ensures forwarded == DecodedItems(Front(got))
  {
    assert DecodedItems(got) == DecodedItems(Front(got)) + DecodedItem(got[|got| - 1]);
    assert (forwarded + [item])[..|forwarded|] == forwarded;
  }

  lemma ReceiveAccounts(cfg: Config, p: Response, n: Response)
    requires ResponseAccounts(cfg, p) && CallerReceiveStep(p) == Some(n)
    ensures ResponseAccounts(cfg, n)
  {
    Regroup(p.received, p.inbox);
    TaskUntouched(cfg, p, n);
    ClientUntouched(cfg, p, n);
  }

  lemma CallerReceiveInv(cfg: Config, p: Response)
    requires ResponseInv(cfg, p) && CallerReceiveStep(p).Some?
    ensures ResponseInv(cfg, CallerReceiveStep(p).value)
  {
    ReceiveAccounts(cfg, p, CallerReceiveStep(p).value);
  }

  // ---- the handler, the caller and the transport

  lemma SendAccounts(cfg: Config, p: Response, n: Response, item: Item)
    requires ResponseAccounts(cfg, p) && (p.task == Draining || p.task.Emitting?) && |p.queue| < CAPACITY
    requires n == p.(given := p.given + [item], queue := p.queue + [item])
    ensures ResponseAccounts(cfg, n)
  {
    assert p.drained + (p.queue + [item]) == p.drained + p.queue + [item];
    ClientUntouched(cfg, p, n);
  }

  lemma HandlerSendInv(cfg: Config, p: Response, item: Item)
    requires ResponseInv(cfg, p) && HandlerSendStep(p, item).Some?
    ensures ResponseInv(cfg, HandlerSendStep(p, item).value)
  {
    SendAccounts(cfg, p, HandlerSendStep(p, item).value, item);
  }

  /** The handler drops its sender, and perhaps returns. */
  lemma SenderDropAccounts(cfg: Config, p: Response, n: Response)
    requires ResponseAccounts(cfg, p) && n == p.(senderAlive := false, outcome := n.outcome)
    requires n.outcome == p.outcome || HandlerRunning(p)
    ensures ResponseAccounts(cfg, n)
  {
    ClientUntouched(cfg, p, n);
  }

  lemma HandlerReturnInv(cfg: Config, p: Response, r: HandlerResult)
    requires ResponseInv(cfg, p) && HandlerReturnStep(p, r).Some?
    ensures ResponseInv(cfg, HandlerReturnStep(p, r).value)
  {
    SenderDropAccounts(cfg, p, HandlerReturnStep(p, r).value);
  }

  lemma SenderDropInv(cfg: Config, p: Response)
    requires ResponseInv(cfg, p)
    ensures ResponseInv(cfg, p.(senderAlive := false))
  {
    SenderDropAccounts(cfg, p, p.(senderAlive := false));
  }

  lemma ReceiverDropAccounts(cfg: Config, p: Response, n: Response)
    requires ResponseAccounts(cfg, p) && n == p.(receiverAlive := false, inbox := [])
    ensures ResponseAccounts(cfg, n)
  {
    TaskUntouched(cfg, p, n);
  }

  lemma ReceiverDropInv(cfg: Config, p: Response)
    requires ResponseInv(cfg, p)
    ensures ResponseInv(cfg, p.(receiverAlive := false, inbox := []))
  {
    ReceiverDropAccounts(cfg, p, p.(receiverAlive := false, inbox := []));
  }

  lemma WireAccounts(cfg: Config, p: Response, n: Response)
    requires ResponseAccounts(cfg, p) && n == p.(wire := n.wire)
    requires n.wire.log == p.wire.log && n.wire.got == p.wire.got
    requires (n.wire.end == p.wire.end && n.wire.intact == p.wire.intact)
             || (n.wire.end == Some(Lost) && !n.wire.intact)
    ensures ResponseAccounts(cfg, n)
  {
    TaskUntouched(cfg, p, n);
    ClientUntouched(cfg, p, n);
  }

  lemma ResponseWireInv(cfg: Config, p: Response, k: nat)
    requires ResponseInv(cfg, p) && k <= |p.wire.inFlight|
    ensures ResponseInv(cfg, p.(wire := Deliver(p.wire, k)))
    ensures ResponseInv(cfg, p.(wire := Lose(p.wire, k)))
  {
    DeliverInv(p.wire, k);
    LoseInv(p.wire, k);
    WireAccounts(cfg, p, p.(wire := Deliver(p.wire, k)));
    WireAccounts(cfg, p, p.(wire := Lose(p.wire, k)));
  }
}
