/** The prefixes of src/wire.rs: a method name behind its length, and a datagram stream-id. */
module Wire {
  import opened Bytes
  import opened Errors
  import Varint

  const OPCODE_UNARY_REQUEST: byte := 0x00
  const OPCODE_UNARY_RESPONSE: byte := 0x01
  const OPCODE_UNARY_ERROR: byte := 0x02

  const MAX_METHOD_NAME_LEN: nat := 4096

  const LEB128_READ: RpcError := MalformedFrame(Ascii("leb128 read"))
  const NAME_TOO_LONG: RpcError := MalformedFrame(Ascii("method-name length exceeds maximum"))
  const NAME_PAST_BUFFER: RpcError := MalformedFrame(Ascii("method-name length exceeds buffer"))
  const NAME_NOT_UTF8: RpcError := MalformedFrame(Ascii("non-UTF-8 method-name"))

  /** The growing buffer that the encoders append to. */
  class Buffer {
    var bytes: seq<byte>

    constructor ()
      ensures bytes == []
    {
      bytes := [];
    }

    method Push(b: byte)
      modifies this
      ensures bytes == old(bytes) + [b]
    {
      bytes := bytes + [b];
    }

    method Extend(bs: seq<byte>)
      modifies this
      ensures bytes == old(bytes) + bs
    {
      bytes := bytes + bs;
    }
  }

  method EncodeMethodName(name: Text, buf: Buffer)
    modifies buf
    ensures buf.bytes == old(buf.bytes) + NameBytes(name)
  {
    buf.Extend(Varint.Encode(|name|));
    buf.Extend(name);
  }

  function NameBytes(name: Text): seq<byte> { Varint.Encode(|name|) + name }

  /** The name of `len` bytes that starts after the length prefix. */
  function NameAt(input: seq<byte>, start: nat, len: nat): (r: RpcResult<(Text, seq<byte>)>)
    requires start <= |input|
  {
    if len > MAX_METHOD_NAME_LEN then Err(NAME_TOO_LONG)
    else if start + len > |input| then Err(NAME_PAST_BUFFER)
    else Checked(input[start..start + len], input[start + len..])
  }

  function Checked(name: Text, rest: seq<byte>): (r: RpcResult<(Text, seq<byte>)>) {
    if Utf8Valid(name) then Ok((name, rest)) else Err(NAME_NOT_UTF8)
  }

  /** Splits a method name off the front of the input. */
  function DecodeMethodName(input: seq<byte>): (r: RpcResult<(Text, seq<byte>)>) {
    match Varint.TakeU64(input)
    case None => Err(LEB128_READ)
    case Some((len, after)) => NameAt(input, |input| - |after|, len)
  }

  method EncodeStreamId(id: nat, buf: Buffer)
    modifies buf
    ensures buf.bytes == old(buf.bytes) + Varint.Encode(id)
  {
    buf.Extend(Varint.Encode(id));
  }

  function DecodeStreamId(input: seq<byte>): (r: RpcResult<(nat, seq<byte>)>) {
    match Varint.TakeU64(input)
    case None => Err(LEB128_READ)
    case Some((id, rest)) => Ok((id, rest))
  }

  lemma Slices(prefix: seq<byte>, name: seq<byte>, tail: seq<byte>)
    ensures var input := prefix + (name + tail);
            input[|prefix|..|prefix| + |name|] == name && input[|prefix| + |name|..] == tail
  {
  }

  lemma LengthRead(n: nat, more: seq<byte>)
    requires n < Varint.U64
    ensures var input := Varint.Encode(n) + more;
            DecodeMethodName(input) == NameAt(input, |Varint.Encode(n)|, n)
  {
    Varint.U64RoundTrip(n, more);
  }

  lemma NameAtSplit(prefix: seq<byte>, name: Text, tail: seq<byte>, input: seq<byte>)
    requires input == prefix + (name + tail)
    ensures NameAt(input, |prefix|, |name|) ==
            if |name| <= MAX_METHOD_NAME_LEN then Checked(name, tail) else Err(NAME_TOO_LONG)
  {
    Slices(prefix, name, tail);
  }

  lemma NameBytesSplit(name: Text, tail: seq<byte>)
    ensures NameBytes(name) + tail == Varint.Encode(|name|) + (name + tail)
  {
  }

  /** A method name and any tail come back exactly if and only if the name is at most 4096 bytes. */
  lemma NameRoundTrip(name: Text, tail: seq<byte>)
    requires Utf8Valid(name) && |name| < Varint.U64
    ensures DecodeMethodName(NameBytes(name) + tail) == Ok((name, tail)) <==> |name| <= 4096
    ensures |name| > 4096 ==> DecodeMethodName(NameBytes(name) + tail) == Err(NAME_TOO_LONG)
  {
    NameBytesSplit(name, tail);
    LengthRead(|name|, name + tail);
    NameAtSplit(Varint.Encode(|name|), name, tail, NameBytes(name) + tail);
  }

  /** What a successful decode means for arbitrary input: a length prefix of at most ten groups, that many
      bytes of UTF-8, and the rest, with nothing left over. */
  lemma DecodeSplits(input: seq<byte>)
    requires DecodeMethodName(input).Ok?
    ensures var (name, rest) := DecodeMethodName(input).value;
            && |name| <= 4096 && Utf8Valid(name)
            && 0 <= |input| - |rest| - |name|
            && var prefix := input[..|input| - |rest| - |name|];
               && input == prefix + name + rest
               && 1 <= |prefix| <= 10 && Varint.GroupSum(prefix) == |name|
               && (forall j :: 0 <= j < |prefix| - 1 ==> prefix[j] >= 128) && prefix[|prefix| - 1] < 128
  {
    var (name, rest) := DecodeMethodName(input).value;
    var (len, after) := Varint.TakeU64(input).value;
    var p := Varint.FirstEnd(input, 10).last + 1;
    assert after == input[p..] && |input| - |rest| - |name| == p;
    assert input == input[..p] + name + rest;
  }

  /** Everything else is malformed. */
  lemma DecodeFailsMalformed(input: seq<byte>)
    requires DecodeMethodName(input).Err?
    ensures DecodeMethodName(input).error.MalformedFrame?
  {
  }

  lemma LengthTaken(prefix: seq<byte>, n: nat, more: seq<byte>, input: seq<byte>)
    requires input == prefix + more && Varint.TakeU64(input) == Some((n, more))
    ensures DecodeMethodName(input) == NameAt(input, |prefix|, n)
  {
  }

  /** And every such split decodes, whether or not the prefix is the shortest for its length. */
  lemma SplitDecodes(prefix: seq<byte>, name: Text, rest: seq<byte>)
    requires |name| <= 4096 && Utf8Valid(name)
    requires 1 <= |prefix| <= 10 && Varint.GroupSum(prefix) == |name|
    requires (forall j :: 0 <= j < |prefix| - 1 ==> prefix[j] >= 128) && prefix[|prefix| - 1] < 128
    ensures DecodeMethodName(prefix + (name + rest)) == Ok((name, rest))
  {
    var input := prefix + (name + rest);
    Varint.TerminatedIsTaken(prefix, name + rest);
    LengthTaken(prefix, |name|, name + rest, input);
    NameAtSplit(prefix, name, rest, input);
  }

  /** A stream-id and any payload come back exactly. */
  lemma StreamIdRoundTrip(id: nat, payload: seq<byte>)
    requires id < Varint.U64
    ensures DecodeStreamId(Varint.Encode(id) + payload) == Ok((id, payload))
  {
    Varint.U64RoundTrip(id, payload);
  }
}
