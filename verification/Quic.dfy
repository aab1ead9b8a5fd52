/** The transport the protocol rides on: each direction of a substream is an ordered byte stream
    (section 2.2 of RFC 9000) that may end cleanly or break after any byte. */
module Quic {
  import opened Bytes

  /** What follows the last byte that arrives: a clean end, a stream already closed locally, or a loss. */
  datatype Ending = Finished | ClosedStream | Lost

  datatype ReadExactError = FinishedEarly(read: nat) | ReadError(cause: Ending)

  function ReadFailure(available: nat, ending: Ending): ReadExactError {
    if ending == Finished then FinishedEarly(available) else ReadError(ending)
  }

  /** The receiving half. `pending` is everything the transport will still deliver, in order. */
  class RecvStream {
    var pending: seq<byte>
    const ending: Ending

    constructor (bytes: seq<byte>, ending: Ending)
      ensures pending == bytes && this.ending == ending
    {
      this.pending := bytes;
      this.ending := ending;
    }

    /** Takes exactly `n` bytes or fails, having used up what was left. */
    method ReadExact(n: nat) returns (r: Result<seq<byte>, ReadExactError>)
      modifies this`pending
      ensures n <= |old(pending)| ==> r == Ok(old(pending)[..n]) && pending == old(pending)[n..]
      ensures n > |old(pending)| ==> r == Err(ReadFailure(|old(pending)|, ending)) && pending == []
    {
      if n <= |pending| {
        r := Ok(pending[..n]);
        pending := pending[n..];
      } else {
        r := Err(ReadFailure(|pending|, ending));
        pending := [];
      }
    }

    /** Takes everything up to a clean end, if that is at most `limit` bytes. */
    method ReadToEnd(limit: nat) returns (r: Option<seq<byte>>)
      modifies this`pending
      ensures r == if |old(pending)| <= limit && ending == Finished then Some(old(pending)) else None
      ensures pending == []
    {
      r := if |pending| <= limit && ending == Finished then Some(pending) else None;
      pending := [];
    }
  }

  /** What a transport with some room takes of some bytes. */
  function Took(bytes: seq<byte>, room: nat): seq<byte> { if room < |bytes| then bytes[..room] else bytes }

  /** The sending half. The transport takes `room` more bytes and then fails every write. */
  class SendStream {
    var written: seq<byte>
    var room: nat
    var finished: bool

    constructor (room: nat)
      ensures written == [] && this.room == room && !finished
    {
      this.written := [];
      this.room := room;
      this.finished := false;
    }

    method WriteAll(bytes: seq<byte>) returns (ok: bool)
      modifies this`written, this`room
      ensures ok == (|bytes| <= old(room))
      ensures written == old(written) + Took(bytes, old(room))
      ensures room == if ok then old(room) - |bytes| else 0
    {
      ok := |bytes| <= room;
      var n := if ok then |bytes| else room;
      written := written + bytes[..n];
      assert ok ==> bytes[..n] == bytes;
      room := room - n;
    }

    method Finish()
      modifies this`finished
      ensures finished
    {
      finished := true;
    }
  }
}
