/** The readers and writers of src/streaming.rs over mutable streams, proved against `Streaming`. */
module StreamingIo {
  import opened Bytes
  import opened Errors
  import opened Quic
  import opened Streaming
  import Varint

  /** One turn of the varint reader with its two checks: the shift and the sum must fit a `u64`. */
  function Accumulate(result: nat, shift: nat, b: byte): RpcResult<nat> {
    if 7 * shift >= 64 then Err(VARINT_OVERFLOW)
    else
      var shifted := Varint.Shl7(b as nat % 128, shift);
      if result + shifted >= Varint.U64 then Err(VARINT_SUM_OVERFLOW) else Ok(result + shifted)
  }

  lemma AccumulateAdds(sum: nat, shift: nat, b: byte, next: nat)
    requires shift < 10
    requires sum + Varint.Shl7(b as nat % 128, shift) < Varint.U64
    requires sum + Varint.Shl7(b as nat % 128, shift) == next
    ensures Accumulate(sum, shift, b) == Ok(next)
  {
  }

  /** Neither check of `Accumulate` can fail on what the reader has read, even when the tenth group
      overflows: the sum is then taken modulo 2^64. */
  lemma AccumulateNeverFails(bs: seq<byte>, b: byte)
    requires |bs| < 10
    ensures Accumulate(Varint.GroupSum(bs), |bs|, b) == Ok(Varint.Wrap(Varint.GroupSum(bs + [b])))
  {
    Varint.HandStep(bs, b);
    AccumulateAdds(Varint.GroupSum(bs), |bs|, b, Varint.Wrap(Varint.GroupSum(bs + [b])));
  }

  method ReadVarintU64(recv: RecvStream) returns (r: RpcResult<nat>)
    modifies recv`pending
    ensures match Varint.HandTake(old(recv.pending))
            case Got(v, rest) => r == Ok(v) && recv.pending == rest
            case Overlong => r == Err(VARINT_TOO_LONG) && recv.pending == old(recv.pending)[10..]
            case Need => r == Err(READ_FAILED) && recv.pending == []
  {
    ghost var all := recv.pending;
    var shift, more := 0, true;
    r := Ok(0);
    while shift < 10 && more && r.Ok?
      invariant 0 <= shift <= 10 && shift <= |all| && recv.pending == all[shift..] && r.Ok?
      invariant forall j :: 0 <= j < shift - (if more then 0 else 1) ==> all[j] >= 128
      invariant !more ==> shift > 0 && all[shift - 1] < 128
      invariant r.value == Varint.Wrap(Varint.GroupSum(all[..shift]))
    {
      var got := recv.ReadExact(1);
      if got.Err? {
        return Err(READ_FAILED);
      }
      var b := got.value[0];
      ghost var groups := all[..shift];
      assert groups + [b] == all[..shift + 1];
      Varint.ShortSum(groups);
      AccumulateNeverFails(groups, b);
      r := Accumulate(r.value, shift, b);
      more := b >= 128;
      shift := shift + 1;
    }
    if more {
      assert Varint.FirstEnd(all, 10).TooLong?;
      r := Err(VARINT_TOO_LONG);
    } else {
      Varint.FirstEndUnique(all, 10, shift - 1);
    }
  }

  method ReadLengthPrefixed(recv: RecvStream) returns (r: RpcResult<seq<byte>>)
    modifies recv`pending
    ensures match ParseBody(old(recv.pending))
            case BodyGot(body, rest) => r == Ok(body) && recv.pending == rest
            case BodyBad(e) => r == Err(e)
            case BodyNeedMore => r == Err(READ_FAILED) && recv.pending == []
    ensures match Varint.HandTake(old(recv.pending))
            case Overlong => recv.pending == old(recv.pending)[10..]
            case Got(n, rest) => n > MAX_STREAMING_PAYLOAD_LEN ==> recv.pending == rest
            case Need => true
  {
    var len := ReadVarintU64(recv);
    if len.Err? {
      return Err(len.error);
    }
    if len.value > MAX_STREAMING_PAYLOAD_LEN {
      return Err(PAYLOAD_TOO_LONG);
    }
    if len.value == 0 {
      assert recv.pending[..0] == [] && recv.pending[0..] == recv.pending;
      return Ok([]);
    }
    var body := recv.ReadExact(len.value);
    r := if body.Ok? then Ok(body.value) else Err(READ_FAILED);
  }

  /** Continues after the opcode byte. */
  method ReadStreamingFrameAfterOpcode(recv: RecvStream, opcode: byte) returns (r: RpcResult<Frame>)
    modifies recv`pending
    ensures match ParseAfterOpcode(opcode, old(recv.pending))
            case Got(f, rest) => r == Ok(f) && recv.pending == rest
            case Bad(e) => r == Err(e)
            case NeedMore => r == Err(READ_FAILED) && recv.pending == []
  {
    if BodyOpcode(opcode) {
      var body := ReadLengthPrefixed(recv);
      if body.Err? {
        return Err(body.error);
      }
      var f := DecodeBody(opcode, body.value);
      r := if f.Some? then Ok(f.value) else Err(BODY_CODEC);
    } else if opcode == OPCODE_REQUEST_END {
      r := Ok(RequestEnd);
    } else if opcode == OPCODE_RESPONSE_END {
      r := Ok(ResponseEnd);
    } else {
      r := Err(UNEXPECTED_OPCODE);
    }
  }

  /** A failed opcode read: nothing at all before a clean or already closed end is the end of the frames,
      anything else a transport failure. */
  function ClassifyEofOrError(e: ReadExactError): RpcResult<Option<Frame>> {
    match e
    case FinishedEarly(n) => if n == 0 then Ok(None) else Err(READ_FAILED)
    case ReadError(cause) => if cause == ClosedStream then Ok(None) else Err(READ_FAILED)
  }

  /** What one frame read returns, from the bytes to come and how they end. */
  function ReadOutcome(bs: seq<byte>, ending: Ending): RpcResult<Option<Frame>> {
    match ParseFrame(bs)
    case Got(f, _) => Ok(Some(f))
    case Bad(e) => Err(e)
    case NeedMore => if bs == [] && ending != Lost then Ok(None) else Err(READ_FAILED)
  }

  /** A length that breaks off inside its varint is a transport failure, not a malformed frame; the varint is
      malformed only when ten groups do not end it. */
  lemma TruncatedLength(opcode: byte, bs: seq<byte>, ending: Ending)
    requires BodyOpcode(opcode)
    ensures Varint.FirstEnd(bs, 10).Short? ==> ReadOutcome([opcode] + bs, ending) == Err(READ_FAILED)
    ensures Varint.FirstEnd(bs, 10).TooLong? ==> ReadOutcome([opcode] + bs, ending) == Err(VARINT_TOO_LONG)
  {
    assert ([opcode] + bs)[1..] == bs;
  }

  /** Why a frame read fails: the transport, exactly while the bytes have decided nothing; the codec, exactly when
      a whole body does not decode; and otherwise the frame is malformed. */
  lemma FailureKinds(bs: seq<byte>, ending: Ending)
    requires ReadOutcome(bs, ending).Err?
    ensures ReadOutcome(bs, ending).error.TransportRead? <==> ParseFrame(bs).NeedMore?
    ensures ReadOutcome(bs, ending).error.Codec? <==>
            bs != [] && BodyOpcode(bs[0]) && ParseBody(bs[1..]).BodyGot?
    ensures ReadOutcome(bs, ending).error.MalformedFrame? <==>
            bs != [] && (bs[0] !in [0x10, 0x11, 0x20, 0x21, 0x30, 0x31, 0x40] || ParseBody(bs[1..]).BodyBad?)
  {
  }

  method ReadStreamingFrame(recv: RecvStream) returns (r: RpcResult<Option<Frame>>)
    modifies recv`pending
    ensures r == ReadOutcome(old(recv.pending), recv.ending)
    ensures r.Ok? && r.value.Some? ==> recv.pending == ParseFrame(old(recv.pending)).rest
  {
    var opcode := recv.ReadExact(1);
    if opcode.Err? {
      return ClassifyEofOrError(opcode.error);
    }
    var f := ReadStreamingFrameAfterOpcode(recv, opcode.value[0]);
    r := if f.Ok? then Ok(Some(f.value)) else Err(f.error);
  }

  // ---- writers

  /** What a write leaves on the wire: all of `bytes`, or as much as the transport still took. */
  ghost predicate Wrote(before: seq<byte>, room: nat, bytes: seq<byte>, after: seq<byte>, r: RpcResult<()>) {
    && r == (if |bytes| <= room then Ok(()) else Err(WRITE_FAILED))
    && after == before + Took(bytes, room)
  }

  method WriteLengthPrefixed(send: SendStream, opcode: byte, body: seq<byte>) returns (r: RpcResult<()>)
    modifies send`written, send`room
    ensures Wrote(old(send.written), old(send.room), [opcode] + Varint.Encode(|body|) + body, send.written, r)
    ensures r.Ok? ==> send.room == old(send.room) - |[opcode] + Varint.Encode(|body|) + body|
    ensures r.Err? ==> send.room == 0
  {
    var buf := [opcode];
    buf := buf + Varint.Encode(|body|);
    buf := buf + body;
    var ok := send.WriteAll(buf);
    r := if ok then Ok(()) else Err(WRITE_FAILED);
  }

  method WriteSingleOpcode(send: SendStream, opcode: byte) returns (r: RpcResult<()>)
    modifies send`written, send`room
    ensures Wrote(old(send.written), old(send.room), [opcode], send.written, r)
    ensures r.Ok? ==> send.room == old(send.room) - 1
    ensures r.Err? ==> send.room == 0
  {
    var ok := send.WriteAll([opcode]);
    r := if ok then Ok(()) else Err(WRITE_FAILED);
  }

  /** The frame writers: every one of them leaves exactly the frame's encoding. */
  method WriteFrame(send: SendStream, f: Frame) returns (r: RpcResult<()>)
    requires WellTyped(f)
    modifies send`written, send`room
    ensures Wrote(old(send.written), old(send.room), Encode(f), send.written, r)
    ensures r.Ok? ==> send.room == old(send.room) - |Encode(f)|
    ensures r.Err? ==> send.room == 0
  {
    if HasBody(f) {
      r := WriteLengthPrefixed(send, Opcode(f), Body(f));
    } else {
      r := WriteSingleOpcode(send, Opcode(f));
    }
  }
}
