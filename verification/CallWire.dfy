/** One direction of a streaming substream as bytes in transit, with the frames behind them as history. */
module CallWire {
  import opened Bytes
  import opened Errors
  import opened Quic
  import opened Streaming
  import opened StreamingIo
  import opened FrameStreams

  datatype Wire = Wire(
    log: seq<Frame>,         // history: the frames the writer has started to write
    written: seq<byte>,      // history: the bytes the transport has accepted
    inFlight: seq<byte>,     // accepted and not yet delivered
    arrived: seq<byte>,      // delivered and not yet read
    got: seq<Frame>,         // history: the frames the reader has decoded
    intact: bool,            // no write was cut short and no byte was lost
    end: Option<Ending>)     // how the byte stream ends, once the writing half is closed or lost

  const FRESH: Wire := Wire([], [], [], [], [], true, None)

  // ---- what can happen to it

  function Offer(w: Wire, f: Frame): Wire
    requires Sendable(f)
  {
    w.(log := w.log + [f], written := w.written + Encode(f), inFlight := w.inFlight + Encode(f))
  }

  /** A write that the transport cuts short after `n` bytes, ending the stream. */
  function OfferPart(w: Wire, f: Frame, n: nat, end: Ending): Wire
    requires Sendable(f) && n < |Encode(f)|
  {
    w.(log := w.log + [f], written := w.written + Encode(f)[..n], inFlight := w.inFlight + Encode(f)[..n],
       intact := false, end := Some(end))
  }

  function Close(w: Wire): Wire { if w.end.None? then w.(end := Some(Finished)) else w }

  function Deliver(w: Wire, n: nat): Wire
    requires n <= |w.inFlight|
  {
    w.(arrived := w.arrived + w.inFlight[..n], inFlight := w.inFlight[n..])
  }

  /** The connection breaks: all but the first `n` bytes in flight are lost. */
  function Lose(w: Wire, n: nat): Wire
    requires n <= |w.inFlight|
  {
    w.(inFlight := w.inFlight[..n], intact := false, end := Some(Lost))
  }

  /** A frame read can return: a frame or a malformed one is there, or the stream has ended. */
  predicate CanRead(w: Wire) {
    !ParseFrame(w.arrived).NeedMore? || (w.inFlight == [] && w.end.Some?)
  }

  function ReadNow(w: Wire): RpcResult<Option<Frame>>
    requires CanRead(w)
  {
    ReadOutcome(w.arrived, w.end.GetOr(Finished))
  }

  function AfterRead(w: Wire): Wire {
    match ParseFrame(w.arrived)
    case Got(f, rest) => w.(arrived := rest, got := w.got + [f])
    case _ => w.(arrived := [])
  }

  // ---- what always holds of it

  function Unread(w: Wire): seq<Frame>
    requires w.got <= w.log
  {
    w.log[|w.got|..]
  }

  /** The bytes are those of the logged frames: all of them while nothing was lost, a prefix otherwise. */
  ghost predicate WireInv(w: Wire) {
    && AllSendable(w.log)
    && w.got <= w.log
    && w.written <= EncodeAll(w.log)
    && w.arrived + w.inFlight <= EncodeAll(Unread(w))
    && (w.intact ==> w.written == EncodeAll(w.log) && w.arrived + w.inFlight == EncodeAll(Unread(w)))
    && (!w.intact ==> w.end.Some?)
  }

  lemma FreshInv()
    ensures WireInv(FRESH)
  {
    assert EncodeAll([]) == [];
  }

  lemma OfferInv(w: Wire, f: Frame)
    requires WireInv(w) && w.end.None? && Sendable(f)
    ensures WireInv(Offer(w, f))
    ensures Unread(Offer(w, f)) == Unread(w) + [f]
  {
    EncodeAllSnoc(w.log, f);
    EncodeAllSnoc(Unread(w), f);
    UnreadSnoc(w, Offer(w, f), f);
    PartOfWhole(w.arrived, w.inFlight, EncodeAll(Unread(w)), Encode(f), Encode(f));
  }

  /** Part of a write extends what is there to a prefix of what the whole write would make it. */
  lemma PartOfWhole(a: seq<byte>, b: seq<byte>, all: seq<byte>, part: seq<byte>, e: seq<byte>)
    requires part <= e && a + b == all
    ensures a + (b + part) == all + part && all + part <= all + e
  {
  }

  lemma UnreadSnoc(w: Wire, n: Wire, f: Frame)
    requires w.got <= w.log && n.got == w.got && n.log == w.log + [f]
    ensures n.got <= n.log && Unread(n) == Unread(w) + [f]
  {
  }

  lemma PartInv(w: Wire, f: Frame, part: seq<byte>, n: Wire)
    requires WireInv(w) && w.end.None? && Sendable(f) && part <= Encode(f) && n.end.Some?
    requires n == w.(log := w.log + [f], written := w.written + part, inFlight := w.inFlight + part,
                     intact := false, end := n.end)
    ensures WireInv(n) && Unread(n) == Unread(w) + [f]
  {
    EncodeAllSnoc(w.log, f);
    EncodeAllSnoc(Unread(w), f);
    UnreadSnoc(w, n, f);
    PartOfWhole([], w.written, EncodeAll(w.log), part, Encode(f));
    PartOfWhole(w.arrived, w.inFlight, EncodeAll(Unread(w)), part, Encode(f));
  }

  lemma OfferPartInv(w: Wire, f: Frame, n: nat, end: Ending)
    requires WireInv(w) && w.end.None? && Sendable(f) && n < |Encode(f)|
    ensures WireInv(OfferPart(w, f, n, end))
    ensures Unread(OfferPart(w, f, n, end)) == Unread(w) + [f]
  {
    PartInv(w, f, Encode(f)[..n], OfferPart(w, f, n, end));
  }

  lemma MoveBytes(a: seq<byte>, b: seq<byte>, n: nat)
    requires n <= |b|
    ensures (a + b[..n]) + b[n..] == a + b
    ensures a + b[..n] <= a + b
  {
    assert b == b[..n] + b[n..];
    assert (a + b)[..|a| + n] == a + b[..n];
  }

  lemma DeliverInv(w: Wire, n: nat)
    requires WireInv(w) && n <= |w.inFlight|
    ensures WireInv(Deliver(w, n))
  {
    MoveBytes(w.arrived, w.inFlight, n);
    assert Unread(Deliver(w, n)) == Unread(w);
  }

  lemma LoseInv(w: Wire, n: nat)
    requires WireInv(w) && n <= |w.inFlight|
    ensures WireInv(Lose(w, n))
  {
    MoveBytes(w.arrived, w.inFlight, n);
    assert Unread(Lose(w, n)) == Unread(w);
  }

  lemma CloseInv(w: Wire)
    requires WireInv(w)
    ensures WireInv(Close(w))
  {
    assert Unread(Close(w)) == Unread(w);
  }

  /** Over the protocol's own frames a read yields the next logged frame, the end at a frame boundary, or
      a transport failure; a malformed frame and a different frame are impossible. */
  lemma ReadInv(w: Wire)
    requires WireInv(w) && CanRead(w)
    ensures WireInv(AfterRead(w))
    ensures AfterRead(w) == w.(arrived := AfterRead(w).arrived, got := AfterRead(w).got)
    ensures ReadNow(w).Ok? && ReadNow(w).value.Some? ==>
              w.got < w.log && ReadNow(w).value.value == w.log[|w.got|]
              && AfterRead(w).got == w.got + [ReadNow(w).value.value]
    ensures ReadNow(w) == Ok(None) ==>
              AfterRead(w).got == w.got && w.end.Some? && (w.intact ==> w.got == w.log)
    ensures ReadNow(w).Err? ==>
              ReadNow(w) == Err(READ_FAILED) && AfterRead(w).got == w.got && w.end.Some?
              && (w.intact ==> w.end == Some(Lost))
  {
    if ParseFrame(w.arrived).Got? {
      TakeInv(w);
    } else {
      NoFrameInv(w);
    }
  }

  lemma TakeInv(w: Wire)
    requires WireInv(w) && ParseFrame(w.arrived).Got?
    ensures Unread(w) != [] && ParseFrame(w.arrived).frame == Unread(w)[0]
    ensures WireInv(AfterRead(w)) && Unread(AfterRead(w)) == Unread(w)[1..]
  {
    ParseOfPrefix(Unread(w), w.arrived);
    NextInv(w, ParseFrame(w.arrived).rest);
  }

  lemma UnreadNext(log: seq<Frame>, got: seq<Frame>)
    requires got < log
    ensures got + [log[|got|]] <= log
    ensures log[|got| + 1..] == log[|got|..][1..]
  {
  }

  lemma NextInv(w: Wire, rest: seq<byte>)
    requires WireInv(w) && Unread(w) != [] && w.arrived == Encode(Unread(w)[0]) + rest
    ensures var n := w.(arrived := rest, got := w.got + [Unread(w)[0]]);
            WireInv(n) && Unread(n) == Unread(w)[1..]
  {
    UnreadNext(w.log, w.got);
    TakeBytes(Unread(w), w.arrived, w.inFlight, rest);
  }

  /** Taking the first frame off the delivered bytes leaves the bytes of the other frames. */
  lemma TakeBytes(fs: seq<Frame>, arrived: seq<byte>, inFlight: seq<byte>, rest: seq<byte>)
    requires AllSendable(fs) && fs != [] && arrived + inFlight <= EncodeAll(fs)
    requires arrived == Encode(fs[0]) + rest
    ensures rest + inFlight <= EncodeAll(fs[1..])
    ensures arrived + inFlight == EncodeAll(fs) ==> rest + inFlight == EncodeAll(fs[1..])
  {
    AfterCommonPrefix(Encode(fs[0]), rest, inFlight, EncodeAll(fs[1..]));
  }

  lemma AfterCommonPrefix(e: seq<byte>, p: seq<byte>, q: seq<byte>, all: seq<byte>)
    requires e + p + q <= e + all
    ensures p + q <= all
    ensures e + p + q == e + all ==> p + q == all
  {
    assert (e + p + q)[|e|..] == p + q && (e + all)[|e|..] == all;
    assert (e + all)[..|e| + |p + q|] == e + all[..|p + q|];
  }

  lemma NoFrameInv(w: Wire)
    requires WireInv(w) && CanRead(w) && !ParseFrame(w.arrived).Got?
    ensures ParseFrame(w.arrived).NeedMore? && w.inFlight == [] && w.end.Some?
    ensures WireInv(AfterRead(w))
    ensures w.intact ==> Unread(w) == [] && w.arrived == []
  {
    var unread, a := Unread(w), AfterRead(w);
    ParseOfPrefix(unread, w.arrived);
    assert w.arrived + w.inFlight == w.arrived;
    FirstIsWhole(unread);
    assert EncodeAll([]) == [];
    assert a.arrived + a.inFlight == [];
  }

  lemma FirstIsWhole(fs: seq<Frame>)
    requires AllSendable(fs)
    ensures fs != [] ==> Encode(fs[0]) <= EncodeAll(fs)
  {
  }
}
