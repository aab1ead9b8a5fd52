/** The typed error envelope of src/wire_error.rs and what relaying an error over the wire does to it. */
module WireErrors {
  import opened Bytes
  import opened Errors
  import Postcard
  import Varint

  /** In the order of the variants' discriminants 0x00 to 0x05. */
  datatype WireError =
    | UnknownMethodError(methodName: Text)
    | VersionMismatchError(requested: Text, available: seq<Text>)
    | InvalidMethodNameError(input: Text)
    | MalformedFrameError(reason: Text)
    | HandlerError(display: Text)
    | CodecError(codec: Text)

  function FromRpcError(e: RpcError): WireError {
    match e
    case UnknownMethod(name) => UnknownMethodError(name)
    case VersionMismatch(requested, available) => VersionMismatchError(requested, available)
    case InvalidMethodName(input) => InvalidMethodNameError(input)
    case MalformedFrame(reason) => MalformedFrameError(reason)
    case Codec(postcard) => CodecError(postcard)
    case other => HandlerError(Display(other))
  }

  const CODEC_PREFIX: Text := Ascii("server codec error: ")

  function StripHandlerPrefix(display: Text): Text {
    if StartsWith(display, HANDLER_PREFIX) then display[|HANDLER_PREFIX|..] else display
  }

  function IntoRpcError(w: WireError): RpcError {
    match w
    case UnknownMethodError(name) => UnknownMethod(name)
    case VersionMismatchError(requested, available) => VersionMismatch(requested, available)
    case InvalidMethodNameError(input) => InvalidMethodName(input)
    case MalformedFrameError(reason) => MalformedFrame(reason)
    case HandlerError(display) => Handler(StripHandlerPrefix(display))
    case CodecError(codec) => Handler(CODEC_PREFIX + codec)
  }

  // ---- the bytes

  function Shape(): Postcard.Shape {
    Postcard.Enum([Postcard.Str, TextShapes(), Postcard.Str, Postcard.Str, Postcard.Str, Postcard.Str])
  }

  function Strings(ts: seq<Text>): (vs: seq<Postcard.Value>)
    ensures |vs| == |ts|
  {
    if ts == [] then [] else [Postcard.VBytes(ts[0])] + Strings(ts[1..])
  }

  function TextsOf(vs: seq<Postcard.Value>): Option<seq<Text>> {
    if vs == [] then Some([])
    else match (vs[0], TextsOf(vs[1..]))
      case (VBytes(t), Some(ts)) => Some([t] + ts)
      case _ => None
  }

  function Tag(w: WireError): nat {
    match w
    case UnknownMethodError(_) => 0
    case VersionMismatchError(_, _) => 1
    case InvalidMethodNameError(_) => 2
    case MalformedFrameError(_) => 3
    case HandlerError(_) => 4
    case CodecError(_) => 5
  }

  function Payload(w: WireError): Postcard.Value {
    match w
    case UnknownMethodError(t) => Postcard.VBytes(t)
    case VersionMismatchError(t, ts) => Postcard.VPair(Postcard.VBytes(t), Postcard.VList(Strings(ts)))
    case InvalidMethodNameError(t) => Postcard.VBytes(t)
    case MalformedFrameError(t) => Postcard.VBytes(t)
    case HandlerError(t) => Postcard.VBytes(t)
    case CodecError(t) => Postcard.VBytes(t)
  }

  function ToValue(w: WireError): Postcard.Value { Postcard.VVariant(Tag(w), Payload(w)) }

  function OfText(tag: nat, t: Text): Option<WireError> {
    if tag == 0 then Some(UnknownMethodError(t))
    else if tag == 2 then Some(InvalidMethodNameError(t))
    else if tag == 3 then Some(MalformedFrameError(t))
    else if tag == 4 then Some(HandlerError(t))
    else if tag == 5 then Some(CodecError(t))
    else None
  }

  function OfValue(v: Postcard.Value): Option<WireError> {
    match v
    case VVariant(tag, VBytes(t)) => OfText(tag, t)
    case VVariant(_, VPair(VBytes(t), VList(items))) =>
      (match TextsOf(items) case Some(ts) => Some(VersionMismatchError(t, ts)) case None => None)
    case _ => None
  }

  /** The envelopes a Rust value can denote: strings are UTF-8 and machine-sized. */
  predicate Representable(w: WireError) {
    match w
    case UnknownMethodError(t) => Postcard.IsText(t)
    case VersionMismatchError(t, ts) => Postcard.IsText(t) && |ts| < Varint.U64
      && forall i :: 0 <= i < |ts| ==> Postcard.IsText(ts[i])
    case InvalidMethodNameError(t) => Postcard.IsText(t)
    case MalformedFrameError(t) => Postcard.IsText(t)
    case HandlerError(t) => Postcard.IsText(t)
    case CodecError(t) => Postcard.IsText(t)
  }

  lemma {:induction false} StringsRoundTrip(ts: seq<Text>)
    requires forall i :: 0 <= i < |ts| ==> Postcard.IsText(ts[i])
    ensures Postcard.AllFit(Postcard.Str, Strings(ts)) && TextsOf(Strings(ts)) == Some(ts)
  {
    if ts != [] {
      StringsRoundTrip(ts[1..]);
      assert Strings(ts)[1..] == Strings(ts[1..]);
      assert ts == [ts[0]] + ts[1..];
    }
  }

  function TextShapes(): Postcard.Shape { Postcard.Pair(Postcard.Str, Postcard.List(Postcard.Str)) }

  lemma PayloadFits(w: WireError)
    requires Representable(w)
    ensures Postcard.Fits(if w.VersionMismatchError? then TextShapes() else Postcard.Str, Payload(w))
  {
    if w.VersionMismatchError? { StringsRoundTrip(w.available); }
  }

  lemma ValueRoundTrip(w: WireError)
    requires Representable(w)
    ensures Postcard.Fits(Shape(), ToValue(w)) && OfValue(ToValue(w)) == Some(w)
  {
    PayloadFits(w);
    assert Shape().variants[Tag(w)] == if w.VersionMismatchError? then TextShapes() else Postcard.Str;
    if w.VersionMismatchError? { StringsRoundTrip(w.available); }
  }

  function Encode(w: WireError): seq<byte>
    requires Representable(w)
  {
    ValueRoundTrip(w);
    Postcard.Put(Shape(), ToValue(w))
  }

  /** `postcard::from_bytes`, which ignores bytes after the value. */
  function Decode(bs: seq<byte>): Option<WireError> {
    match Postcard.Get(Shape(), bs)
    case None => None
    case Some((v, _)) => OfValue(v)
  }

  lemma EnvelopeRoundTrip(w: WireError, tail: seq<byte>)
    requires Representable(w)
    ensures Decode(Encode(w) + tail) == Some(w)
  {
    ValueRoundTrip(w);
    Postcard.RoundTrip(Shape(), ToValue(w), tail);
  }

  function TextBytes(t: Text): seq<byte> { Varint.Encode(|t|) + t }

  function TextsBytes(ts: seq<Text>): seq<byte> { if ts == [] then [] else TextBytes(ts[0]) + TextsBytes(ts[1..]) }

  lemma {:induction false} StringsBytes(ts: seq<Text>)
    requires forall i :: 0 <= i < |ts| ==> Postcard.IsText(ts[i])
    ensures Postcard.AllFit(Postcard.Str, Strings(ts)) && Postcard.PutMany(Postcard.Str, Strings(ts)) == TextsBytes(ts)
  {
    StringsRoundTrip(ts);
    if ts != [] {
      StringsBytes(ts[1..]);
      assert Strings(ts)[1..] == Strings(ts[1..]);
    }
  }

  lemma PayloadBytes(w: WireError)
    requires Representable(w)
    ensures var s := if w.VersionMismatchError? then TextShapes() else Postcard.Str;
            Postcard.Fits(s, Payload(w))
            && Postcard.Put(s, Payload(w)) ==
               match w
               case UnknownMethodError(t) => TextBytes(t)
               case VersionMismatchError(t, ts) => TextBytes(t) + (Varint.Encode(|ts|) + TextsBytes(ts))
               case InvalidMethodNameError(t) => TextBytes(t)
               case MalformedFrameError(t) => TextBytes(t)
               case HandlerError(t) => TextBytes(t)
               case CodecError(t) => TextBytes(t)
  {
    PayloadFits(w);
    if w.VersionMismatchError? { StringsBytes(w.available); }
  }

  /** The envelope on the wire: one discriminant byte and the payload's strings, each behind its length. */
  lemma EnvelopeLayout(w: WireError)
    requires Representable(w)
    ensures Encode(w) != [] &&
            Encode(w)[0] == match w
                            case UnknownMethodError(_) => 0
                            case VersionMismatchError(_, _) => 1
                            case InvalidMethodNameError(_) => 2
                            case MalformedFrameError(_) => 3
                            case HandlerError(_) => 4
                            case CodecError(_) => 5
    ensures Encode(w)[1..] ==
            match w
            case UnknownMethodError(t) => TextBytes(t)
            case VersionMismatchError(t, ts) => TextBytes(t) + (Varint.Encode(|ts|) + TextsBytes(ts))
            case InvalidMethodNameError(t) => TextBytes(t)
            case MalformedFrameError(t) => TextBytes(t)
            case HandlerError(t) => TextBytes(t)
            case CodecError(t) => TextBytes(t)
  {
    PayloadBytes(w);
    var s := if w.VersionMismatchError? then TextShapes() else Postcard.Str;
    assert Shape().variants[Tag(w)] == s && Varint.Encode(Tag(w)) == [Tag(w) as byte];
    ValueRoundTrip(w);
    assert Encode(w) == [Tag(w) as byte] + Postcard.Put(s, Payload(w));
  }

  // ---- relaying

  predicate Sendable(e: RpcError) { Representable(FromRpcError(e)) }

  /** One hop: the error is sent in an envelope and rebuilt on the other side. */
  function Hop(e: RpcError): Option<RpcError>
    requires Sendable(e)
  {
    match Decode(Encode(FromRpcError(e))) case None => None case Some(w) => Some(IntoRpcError(w))
  }

  predicate Structured(e: RpcError) {
    e.UnknownMethod? || e.VersionMismatch? || e.InvalidMethodName? || e.MalformedFrame?
  }

  lemma PrefixStrips(t: Text)
    ensures StripHandlerPrefix(HANDLER_PREFIX + t) == t
  {
    assert (HANDLER_PREFIX + t)[..|HANDLER_PREFIX|] == HANDLER_PREFIX;
  }

  lemma HopDecodes(e: RpcError)
    requires Sendable(e)
    ensures Hop(e) == Some(IntoRpcError(FromRpcError(e)))
  {
    EnvelopeRoundTrip(FromRpcError(e), []);
    assert Encode(FromRpcError(e)) + [] == Encode(FromRpcError(e));
  }

  /** What a hop preserves: the four structured errors and every handler text exactly, also one that itself
      begins with the prefix; everything else becomes a handler error, and keeps being one. */
  lemma HopPreserves(e: RpcError)
    requires Sendable(e)
    ensures Structured(e) || e.Handler? ==> Hop(e) == Some(e)
    ensures e.Codec? ==> Hop(e) == Some(Handler(Ascii("server codec error: ") + e.postcard))
    ensures Hop(e).Some? && (Structured(Hop(e).value) || Hop(e).value.Handler?)
    ensures Structured(Hop(e).value) <==> Structured(e)
  {
    HopDecodes(e);
    if e.Handler? { PrefixStrips(e.inner); }
  }

  lemma FirstByte(literal: string)
    requires literal != ""
    ensures Ascii(literal) != [] && Ascii(literal)[0] == (literal[0] as int % 128) as byte
  {
  }

  /** The words that local failures open with, and the prefix, begin with different letters. */
  lemma FirstLetters()
    ensures TRANSPORT != [] && TRANSPORT[0] == 0x74
    ensures DATAGRAM != [] && DATAGRAM[0] == 0x64
    ensures RPC_SERVER != [] && RPC_SERVER[0] == 0x52
    ensures HANDLER_PREFIX != [] && HANDLER_PREFIX[0] == 0x68
  {
    var t, d, r, h := "transport: ", "datagram: ", "RpcServer", "handler error: ";
    assert t[0] == 't' && d[0] == 'd' && r[0] == 'R' && h[0] == 'h';
    FirstByte(t);
    FirstByte(d);
    FirstByte(r);
    FirstByte(h);
  }

  lemma OtherHead(head: Text, rest: Text, prefix: Text)
    requires head != [] && prefix != [] && head[0] != prefix[0]
    ensures !StartsWith(head + rest, prefix)
  {
    assert (head + rest)[0] == head[0];
    assert |prefix| <= |head + rest| ==> (head + rest)[..|prefix|][0] == head[0];
  }

  predicate Local(e: RpcError) { !Structured(e) && !e.Handler? && !e.Codec? }

  lemma NotPrefixed(e: RpcError)
    requires Local(e)
    ensures !StartsWith(Display(e), HANDLER_PREFIX)
  {
    var head := if e.AlreadyServing? then RPC_SERVER
                else if e.DatagramStreamIdCollision? || e.DatagramStreamIdUnknown? || e.DatagramTooShort? then DATAGRAM
                else TRANSPORT;
    var rest := Display(e)[|head|..];
    assert Display(e) == head + rest;
    FirstLetters();
    OtherHead(head, rest, HANDLER_PREFIX);
  }

  /** Local failures cross as handler errors whose text is their whole display. */
  lemma LocalErrorsRendered(e: RpcError)
    requires Sendable(e) && Local(e)
    ensures Hop(e) == Some(Handler(Display(e)))
  {
    HopDecodes(e);
    NotPrefixed(e);
  }

  /** One hop, if the error can be put into an envelope at all. */
  function Relay(e: RpcError): Option<RpcError> { if Sendable(e) then Hop(e) else None }

  function Iterate<T>(step: T -> Option<T>, x: T, n: nat): Option<T>
    decreases n
  {
    if n == 0 then Some(x)
    else match step(x)
      case None => None
      case Some(y) => Iterate(step, y, n - 1)
  }

  lemma {:induction false} FixedPoint<T>(step: T -> Option<T>, x: T, n: nat)
    requires step(x) == Some(x)
    ensures Iterate(step, x, n) == Some(x)
    decreases n
  {
    if n > 0 { FixedPoint(step, x, n - 1); }
  }

  /** One step to a value that further steps keep, or cannot take. */
  lemma StepThenFixed<T>(step: T -> Option<T>, x: T, y: T, n: nat)
    requires n >= 1 && step(x) == Some(y) && (step(y) == Some(y) || step(y).None?)
    ensures Iterate(step, x, n) == if n == 1 || step(y).Some? then Some(y) else None
    ensures Iterate(step, x, n) == Iterate(step, y, n - 1)
  {
    if step(y).Some? { FixedPoint(step, y, n - 1); }
  }

  /** The error after a number of hops, as long as every hop can represent it. */
  function Hops(e: RpcError, n: nat): Option<RpcError> { Iterate(Relay, e, n) }

  lemma RelayKeeps(e: RpcError)
    requires Sendable(e) && (Structured(e) || e.Handler?)
    ensures Relay(e) == Some(e)
  {
    HopPreserves(e);
  }

  /** A structured error or a handler error crosses any number of hops unchanged. */
  lemma HopsKeep(e: RpcError, n: nat)
    requires Sendable(e) && (Structured(e) || e.Handler?)
    ensures Hops(e, n) == Some(e)
  {
    RelayKeeps(e);
    FixedPoint(Relay, e, n);
  }

  /** The text of a handler error that was not one before its first hop. */
  function Rendered(e: RpcError): Text
    requires e.Codec? || Local(e)
  {
    if e.Codec? then CODEC_PREFIX + e.postcard else Display(e)
  }

  /** The first hop's result can be sent on: rendering it again with the prefix stays machine-sized. */
  predicate SendableAgain(e: RpcError) {
    e.Codec? || Local(e) ==> |HANDLER_PREFIX| + |Rendered(e)| < Varint.U64
  }

  lemma PrefixesAreAscii()
    ensures AllAscii(HANDLER_PREFIX) && AllAscii(CODEC_PREFIX)
  {
  }

  /** Putting an ASCII prefix before a text gives a text again. */
  lemma PrefixedIsText(prefix: Text, t: Text)
    requires AllAscii(prefix) && Utf8Valid(t)
    ensures Postcard.IsText(prefix + t) <==> |prefix| + |t| < Varint.U64
  {
    AsciiPrefixUtf8(prefix, t);
  }

  lemma RenderedIsValid(e: RpcError)
    requires Sendable(e) && (e.Codec? || Local(e))
    ensures Utf8Valid(Rendered(e))
  {
    PrefixesAreAscii();
    if e.Codec? { AsciiPrefixUtf8(CODEC_PREFIX, e.postcard); }
  }

  lemma FirstHop(e: RpcError)
    requires Sendable(e) && (e.Codec? || Local(e))
    ensures Hop(e) == Some(Handler(Rendered(e)))
  {
    HopPreserves(e);
    if Local(e) { LocalErrorsRendered(e); }
  }

  lemma DisplaySendable(e: RpcError, display: Text)
    requires FromRpcError(e) == HandlerError(display)
    ensures Sendable(e) <==> Postcard.IsText(display)
  {
  }

  lemma HandlerSendable(prefix: Text, t: Text)
    requires prefix == HANDLER_PREFIX && AllAscii(prefix) && Utf8Valid(t)
    ensures Sendable(Handler(t)) <==> |prefix| + |t| < Varint.U64
  {
    DisplaySendable(Handler(t), prefix + t);
    PrefixedIsText(prefix, t);
  }

  lemma SecondHop(e: RpcError)
    requires Sendable(e)
    ensures Hop(e).Some? && (Structured(Hop(e).value) || Hop(e).value.Handler?)
    ensures Sendable(Hop(e).value) <==> SendableAgain(e)
  {
    HopPreserves(e);
    if e.Codec? || Local(e) {
      FirstHop(e);
      RenderedIsValid(e);
      PrefixesAreAscii();
      HandlerSendable(HANDLER_PREFIX, Rendered(e));
    }
  }

  lemma RelayTwice(e: RpcError)
    requires Sendable(e)
    ensures Relay(e) == Hop(e) && Hop(e).Some?
    ensures Relay(Hop(e).value) == if SendableAgain(e) then Hop(e) else None
  {
    SecondHop(e);
    if SendableAgain(e) { RelayKeeps(Hop(e).value); }
  }

  /** Any number of hops gives the same error as one: a second hop is possible if and only if the rendered text
      fits a string together with the prefix, and then every further one is and changes nothing. */
  lemma HopsAreOne(e: RpcError, n: nat)
    requires Sendable(e) && n >= 1
    ensures Hops(e, n) == if n == 1 || SendableAgain(e) then Hop(e) else None
    ensures Hop(e).Some?
  {
    RelayTwice(e);
    StepThenFixed(Relay, e, Hop(e).value, n);
  }
}
