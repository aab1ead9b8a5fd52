/** Sequences of frames as bytes: concatenated writes, and what repeated reads make of a byte sequence. */
module FrameStreams {
  import opened Bytes
  import opened Errors
  import opened Quic
  import opened Streaming
  import opened StreamingIo

  /** A frame the protocol may write: representable and within the reader's limit. */
  predicate Sendable(f: Frame) { WellTyped(f) && Small(f) }

  predicate AllSendable(fs: seq<Frame>) { forall i :: 0 <= i < |fs| ==> Sendable(fs[i]) }

  function EncodeAll(fs: seq<Frame>): seq<byte>
    requires AllSendable(fs)
  {
    if fs == [] then [] else Encode(fs[0]) + EncodeAll(fs[1..])
  }

  /** Repeated frame reads until one does not yield a frame: the frames, and what the last read returned. */
  function ReadAll(bs: seq<byte>, ending: Ending): (r: (seq<Frame>, RpcResult<()>))
    decreases |bs|
  {
    match ReadOutcome(bs, ending)
    case Ok(Some(f)) => var more := ReadAll(ParseFrame(bs).rest, ending); ([f] + more.0, more.1)
    case Ok(None) => ([], Ok(()))
    case Err(e) => ([], Err(e))
  }

  lemma SendableRoundTrip(f: Frame, t: seq<byte>)
    requires Sendable(f)
    ensures ParseFrame(Encode(f) + t) == Got(f, t)
  {
    FrameRoundTrip(f, t);
  }

  lemma {:induction false} EncodeAllConcat(fs: seq<Frame>, gs: seq<Frame>)
    requires AllSendable(fs) && AllSendable(gs)
    ensures EncodeAll(fs + gs) == EncodeAll(fs) + EncodeAll(gs)
  {
    if fs == [] {
      assert fs + gs == gs;
    } else {
      assert (fs + gs)[0] == fs[0] && (fs + gs)[1..] == fs[1..] + gs;
      EncodeAllConcat(fs[1..], gs);
    }
  }

  lemma EncodeAllSnoc(fs: seq<Frame>, f: Frame)
    requires AllSendable(fs) && Sendable(f)
    ensures EncodeAll(fs + [f]) == EncodeAll(fs) + Encode(f)
  {
    EncodeAllConcat(fs, [f]);
    assert EncodeAll([f]) == Encode(f) + EncodeAll([]);
  }

  /** A reader of any prefix of written frames sees the next written frame, or asks for more bytes; it
      never sees a different frame and never a malformed one. */
  lemma ParseOfPrefix(fs: seq<Frame>, p: seq<byte>)
    requires AllSendable(fs) && p <= EncodeAll(fs)
    ensures !ParseFrame(p).Bad?
    ensures ParseFrame(p).Got? ==>
              fs != [] && ParseFrame(p).frame == fs[0] && p == Encode(fs[0]) + ParseFrame(p).rest
              && ParseFrame(p).rest <= EncodeAll(fs[1..])
    ensures fs != [] && Encode(fs[0]) <= p ==> ParseFrame(p) == Got(fs[0], p[|Encode(fs[0])|..])
  {
    var all := EncodeAll(fs);
    var t := all[|p|..];
    assert all == p + t;
    ParseExtends(p, t);
    if fs != [] {
      SendableRoundTrip(fs[0], EncodeAll(fs[1..]));
      if Encode(fs[0]) <= p {
        var rest := p[|Encode(fs[0])|..];
        assert p == Encode(fs[0]) + rest;
        SendableRoundTrip(fs[0], rest);
      }
      if ParseFrame(p).Got? {
        GotIsFirst(fs[0], EncodeAll(fs[1..]), p, t);
      }
    }
  }

  lemma GotIsFirst(f: Frame, more: seq<byte>, p: seq<byte>, t: seq<byte>)
    requires Sendable(f) && p + t == Encode(f) + more && ParseFrame(p).Got?
    ensures ParseFrame(p).frame == f && p == Encode(f) + ParseFrame(p).rest && ParseFrame(p).rest <= more
  {
    ParseExtends(p, t);
    SendableRoundTrip(f, more);
    var rest := ParseFrame(p).rest;
    assert more == rest + t;
    assert |p| == |Encode(f)| + |rest|;
    var e := Encode(f);
    assert p == (e + more)[..|p|];
    assert (e + more)[..|p|] == e + more[..|rest|];
  }

  /** How far a reader gets through a truncation of written frames: the frames `read` came whole, and the
      cut lies inside the next one. */
  ghost predicate Survives(fs: seq<Frame>, p: seq<byte>, read: seq<Frame>)
    requires AllSendable(fs)
  {
    && read <= fs
    && EncodeAll(read) <= p
    && (|read| < |fs| ==> |p| < |EncodeAll(read)| + |Encode(fs[|read|])|)
  }

  lemma SurvivesCons(fs: seq<Frame>, p: seq<byte>, rest: seq<byte>, more: seq<Frame>)
    requires AllSendable(fs) && fs != [] && p == Encode(fs[0]) + rest && Survives(fs[1..], rest, more)
    ensures Survives(fs, p, [fs[0]] + more)
    ensures EncodeAll([fs[0]] + more) == Encode(fs[0]) + EncodeAll(more)
  {
    var read := [fs[0]] + more;
    assert read[1..] == more && fs == [fs[0]] + fs[1..];
    assert EncodeAll(read) == Encode(fs[0]) + EncodeAll(more);
    if |read| < |fs| { assert fs[|read|] == fs[1..][|more|]; }
  }

  lemma ReadAllStep(bs: seq<byte>, ending: Ending)
    ensures ParseFrame(bs).Got? ==>
              ReadAll(bs, ending).0 == [ParseFrame(bs).frame] + ReadAll(ParseFrame(bs).rest, ending).0
              && ReadAll(bs, ending).1 == ReadAll(ParseFrame(bs).rest, ending).1
    ensures ParseFrame(bs).Bad? ==> ReadAll(bs, ending) == ([], Err(ParseFrame(bs).error))
    ensures ParseFrame(bs).NeedMore? ==>
              ReadAll(bs, ending) == ([], if bs == [] && ending != Lost then Ok(()) else Err(READ_FAILED))
  {
  }

  /** Frame streams are self-delimiting: reading back any truncation of a sequence of writes yields the
      frames that survived whole, and then the end if the cut is on a frame boundary and a transport
      failure otherwise - never a different frame. */
  lemma {:induction false} SelfDelimiting(fs: seq<Frame>, p: seq<byte>)
    requires AllSendable(fs) && p <= EncodeAll(fs)
    ensures Survives(fs, p, ReadAll(p, Finished).0)
    ensures ReadAll(p, Finished).1 == if p == EncodeAll(ReadAll(p, Finished).0) then Ok(()) else Err(READ_FAILED)
    decreases |fs|
  {
    ParseOfPrefix(fs, p);
    ReadAllStep(p, Finished);
    if ParseFrame(p).Got? {
      var rest := ParseFrame(p).rest;
      SelfDelimiting(fs[1..], rest);
      SurvivesCons(fs, p, rest, ReadAll(rest, Finished).0);
    } else {
      assert EncodeAll([]) == [];
    }
  }

  lemma FramesBefore(fs: seq<Frame>, k: nat)
    requires AllSendable(fs) && k < |fs|
    ensures |EncodeAll(fs)| >= |EncodeAll(fs[..k])| + |Encode(fs[k])|
  {
    var front, back := fs[..k], fs[k..];
    assert fs == front + back && back[0] == fs[k];
    EncodeAllConcat(front, back);
    assert EncodeAll(back) == Encode(back[0]) + EncodeAll(back[1..]);
  }

  lemma WholeSurvives(fs: seq<Frame>, read: seq<Frame>)
    requires AllSendable(fs) && Survives(fs, EncodeAll(fs), read)
    ensures read == fs
  {
    if |read| < |fs| {
      assert read == fs[..|read|];
      FramesBefore(fs, |read|);
      assert false;
    }
  }

  /** Reading back the whole of any sequence of writes yields exactly it and then the end. */
  lemma ReadsBackExactly(fs: seq<Frame>)
    requires AllSendable(fs)
    ensures ReadAll(EncodeAll(fs), Finished) == (fs, Ok(()))
  {
    SelfDelimiting(fs, EncodeAll(fs));
    WholeSurvives(fs, ReadAll(EncodeAll(fs), Finished).0);
  }
}
