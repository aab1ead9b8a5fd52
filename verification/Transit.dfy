/** Transit frames and their strict postcard codec (src/transit.rs). */
module Transit {
  import opened Bytes
  import Postcard
  import Varint

  /** A node-id: 32 bytes of an Ed25519 public key. Which of them are keys is the scheme's business. */
  type Key = seq<byte>

  type IsKey = Key -> bool

  const U32: nat := 0x1_0000_0000

  datatype Capabilities = Capabilities(reservedFlags: nat)

  datatype Limits = Limits(maxCircuitBytes: nat, maxCircuitDurationSecs: nat)

  datatype TransitError =
    | WhitelistRejected
    | CapacityFull
    | VoucherExpired
    | VoucherInvalidSig
    | TargetNotFound
    | MalformedFrame
    | UnexpectedFrame

  datatype Voucher = Voucher(relayNodeId: Key, peerNodeId: Key, expireUnixSecs: nat, signature: seq<byte>)

  datatype ReserveOutcome = Granted(voucher: Voucher, limits: Limits) | Denied(error: TransitError)

  datatype ConnectOutcome = Connected | Refused(error: TransitError)

  datatype TransitFrame =
    | Hello(peerId: Key, capabilities: Capabilities)
    | ReserveRequest(reserveeId: Key, reserveeSignature: seq<byte>)
    | ReserveResponse(reserve: ReserveOutcome)
    | ConnectRequest(targetId: Key, voucher: Option<Voucher>)
    | ConnectResponse(connect: ConnectOutcome)
    | Bye(reason: Option<Text>)

  // ---- the frames a Rust value can denote

  predicate ValidKey(k: Key, isKey: IsKey) { |k| == 32 && isKey(k) }

  predicate ValidVoucher(v: Voucher, isKey: IsKey) {
    && ValidKey(v.relayNodeId, isKey) && ValidKey(v.peerNodeId, isKey)
    && v.expireUnixSecs < Varint.U64 && |v.signature| == 64
  }

  predicate ValidLimits(l: Limits) { l.maxCircuitBytes < Varint.U64 && l.maxCircuitDurationSecs < Varint.U64 }

  predicate Valid(f: TransitFrame, isKey: IsKey) {
    match f
    case Hello(id, caps) => ValidKey(id, isKey) && caps.reservedFlags < U32
    case ReserveRequest(id, sig) => ValidKey(id, isKey) && |sig| < Varint.U64
    case ReserveResponse(o) => o.Granted? ==> ValidVoucher(o.voucher, isKey) && ValidLimits(o.limits)
    case ConnectRequest(id, v) => ValidKey(id, isKey) && (v.Some? ==> ValidVoucher(v.value, isKey))
    case ConnectResponse(_) => true
    case Bye(reason) => reason.Some? ==> Postcard.IsText(reason.value)
  }

  // ---- layout

  function KeyShape(): Postcard.Shape { Postcard.Raw(32) }

  function VoucherShape(): Postcard.Shape {
    Postcard.Pair(KeyShape(), Postcard.Pair(KeyShape(), Postcard.Pair(Postcard.U64, Postcard.Raw(64))))
  }

  function LimitsShape(): Postcard.Shape { Postcard.Pair(Postcard.U64, Postcard.U64) }

  function ErrorShape(): Postcard.Shape {
    Postcard.Enum([Postcard.Unit, Postcard.Unit, Postcard.Unit, Postcard.Unit,
                   Postcard.Unit, Postcard.Unit, Postcard.Unit])
  }

  function ReserveShape(): Postcard.Shape {
    Postcard.Enum([Postcard.Pair(VoucherShape(), LimitsShape()), ErrorShape()])
  }

  function ConnectShape(): Postcard.Shape { Postcard.Enum([Postcard.Unit, ErrorShape()]) }

  function VariantShape(tag: nat): Postcard.Shape
    requires tag < 6
  {
    if tag == 0 then Postcard.Pair(KeyShape(), Postcard.U32)
    else if tag == 1 then Postcard.Pair(KeyShape(), Postcard.Blob)
    else if tag == 2 then ReserveShape()
    else if tag == 3 then Postcard.Pair(KeyShape(), Postcard.Opt(VoucherShape()))
    else if tag == 4 then ConnectShape()
    else Postcard.Opt(Postcard.Str)
  }

  function FrameShape(): (s: Postcard.Shape)
    ensures s.Enum? && |s.variants| == 6 && forall i :: 0 <= i < 6 ==> s.variants[i] == VariantShape(i)
  {
    Postcard.Enum([VariantShape(0), VariantShape(1), VariantShape(2),
                   VariantShape(3), VariantShape(4), VariantShape(5)])
  }

  // ---- values of that layout

  function VoucherValue(v: Voucher): Postcard.Value {
    Postcard.VPair(Postcard.VBytes(v.relayNodeId),
      Postcard.VPair(Postcard.VBytes(v.peerNodeId),
        Postcard.VPair(Postcard.VNum(v.expireUnixSecs), Postcard.VBytes(v.signature))))
  }

  function VoucherOf(v: Postcard.Value, isKey: IsKey): Option<Voucher> {
    match v
    case VPair(VBytes(relay), VPair(VBytes(peer), VPair(VNum(expire), VBytes(sig)))) =>
      if isKey(relay) && isKey(peer) then Some(Voucher(relay, peer, expire, sig)) else None
    case _ => None
  }

  function ErrorTag(e: TransitError): nat {
    match e
    case WhitelistRejected => 0
    case CapacityFull => 1
    case VoucherExpired => 2
    case VoucherInvalidSig => 3
    case TargetNotFound => 4
    case MalformedFrame => 5
    case UnexpectedFrame => 6
  }

  function ErrorOf(v: Postcard.Value): Option<TransitError> {
    match v
    case VVariant(tag, _) =>
      if tag == 0 then Some(WhitelistRejected)
      else if tag == 1 then Some(CapacityFull)
      else if tag == 2 then Some(VoucherExpired)
      else if tag == 3 then Some(VoucherInvalidSig)
      else if tag == 4 then Some(TargetNotFound)
      else if tag == 5 then Some(MalformedFrame)
      else if tag == 6 then Some(UnexpectedFrame)
      else None
    case _ => None
  }

  function ErrorValue(e: TransitError): Postcard.Value { Postcard.VVariant(ErrorTag(e), Postcard.VUnit) }

  function ReserveValue(o: ReserveOutcome): Postcard.Value {
    match o
    case Granted(v, l) =>
      Postcard.VVariant(0, Postcard.VPair(VoucherValue(v),
        Postcard.VPair(Postcard.VNum(l.maxCircuitBytes), Postcard.VNum(l.maxCircuitDurationSecs))))
    case Denied(e) => Postcard.VVariant(1, ErrorValue(e))
  }

  function ReserveOf(v: Postcard.Value, isKey: IsKey): Option<ReserveOutcome> {
    match v
    case VVariant(tag, VPair(voucher, VPair(VNum(bytes), VNum(secs)))) =>
      if tag != 0 then None
      else (match VoucherOf(voucher, isKey) case None => None case Some(x) => Some(Granted(x, Limits(bytes, secs))))
    case VVariant(tag, e) =>
      if tag != 1 then None else (match ErrorOf(e) case None => None case Some(x) => Some(Denied(x)))
    case _ => None
  }

  function ConnectValue(o: ConnectOutcome): Postcard.Value {
    match o
    case Connected => Postcard.VVariant(0, Postcard.VUnit)
    case Refused(e) => Postcard.VVariant(1, ErrorValue(e))
  }

  function ConnectOf(v: Postcard.Value): Option<ConnectOutcome> {
    match v
    case VVariant(tag, e) =>
      if tag == 0 then Some(Connected)
      else if tag == 1 then (match ErrorOf(e) case None => None case Some(x) => Some(Refused(x)))
      else None
    case _ => None
  }

  function Tag(f: TransitFrame): (t: nat)
    ensures t < 6
  {
    match f
    case Hello(_, _) => 0
    case ReserveRequest(_, _) => 1
    case ReserveResponse(_) => 2
    case ConnectRequest(_, _) => 3
    case ConnectResponse(_) => 4
    case Bye(_) => 5
  }

  function Payload(f: TransitFrame): Postcard.Value {
    match f
    case Hello(id, caps) => Postcard.VPair(Postcard.VBytes(id), Postcard.VNum(caps.reservedFlags))
    case ReserveRequest(id, sig) => Postcard.VPair(Postcard.VBytes(id), Postcard.VBytes(sig))
    case ReserveResponse(o) => ReserveValue(o)
    case ConnectRequest(id, v) =>
      Postcard.VPair(Postcard.VBytes(id), if v.None? then Postcard.VNone else Postcard.VSome(VoucherValue(v.value)))
    case ConnectResponse(o) => ConnectValue(o)
    case Bye(reason) => if reason.None? then Postcard.VNone else Postcard.VSome(Postcard.VBytes(reason.value))
  }

  function HelloOf(v: Postcard.Value, isKey: IsKey): Option<TransitFrame> {
    match v
    case VPair(VBytes(id), VNum(flags)) => if isKey(id) then Some(Hello(id, Capabilities(flags))) else None
    case _ => None
  }

  function ReserveRequestOf(v: Postcard.Value, isKey: IsKey): Option<TransitFrame> {
    match v
    case VPair(VBytes(id), VBytes(sig)) => if isKey(id) then Some(ReserveRequest(id, sig)) else None
    case _ => None
  }

  function ConnectRequestOf(v: Postcard.Value, isKey: IsKey): Option<TransitFrame> {
    match v
    case VPair(VBytes(id), VNone) => if isKey(id) then Some(ConnectRequest(id, None)) else None
    case VPair(VBytes(id), VSome(voucher)) =>
      if !isKey(id) then None
      else (match VoucherOf(voucher, isKey) case None => None case Some(x) => Some(ConnectRequest(id, Some(x))))
    case _ => None
  }

  function ByeOf(v: Postcard.Value): Option<TransitFrame> {
    match v
    case VNone => Some(Bye(None))
    case VSome(VBytes(reason)) => Some(Bye(Some(reason)))
    case _ => None
  }

  function PayloadOf(tag: nat, v: Postcard.Value, isKey: IsKey): Option<TransitFrame> {
    if tag == 0 then HelloOf(v, isKey)
    else if tag == 1 then ReserveRequestOf(v, isKey)
    else if tag == 2 then (match ReserveOf(v, isKey) case None => None case Some(o) => Some(ReserveResponse(o)))
    else if tag == 3 then ConnectRequestOf(v, isKey)
    else if tag == 4 then (match ConnectOf(v) case None => None case Some(o) => Some(ConnectResponse(o)))
    else if tag == 5 then ByeOf(v)
    else None
  }

  function ToValue(f: TransitFrame): Postcard.Value { Postcard.VVariant(Tag(f), Payload(f)) }

  function OfValue(v: Postcard.Value, isKey: IsKey): Option<TransitFrame> {
    match v case VVariant(tag, payload) => PayloadOf(tag, payload, isKey) case _ => None
  }

  lemma VoucherFits(v: Voucher, isKey: IsKey)
    requires ValidVoucher(v, isKey)
    ensures Postcard.Fits(VoucherShape(), VoucherValue(v)) && VoucherOf(VoucherValue(v), isKey) == Some(v)
  {
  }

  lemma ErrorFits(e: TransitError)
    ensures Postcard.Fits(ErrorShape(), ErrorValue(e)) && ErrorOf(ErrorValue(e)) == Some(e)
  {
  }

  lemma ReserveFits(o: ReserveOutcome, isKey: IsKey)
    requires o.Granted? ==> ValidVoucher(o.voucher, isKey) && ValidLimits(o.limits)
    ensures Postcard.Fits(ReserveShape(), ReserveValue(o)) && ReserveOf(ReserveValue(o), isKey) == Some(o)
  {
    if o.Granted? { VoucherFits(o.voucher, isKey); } else { ErrorFits(o.error); }
  }

  lemma ConnectFits(o: ConnectOutcome)
    ensures Postcard.Fits(ConnectShape(), ConnectValue(o)) && ConnectOf(ConnectValue(o)) == Some(o)
  {
    if o.Refused? { ErrorFits(o.error); }
  }

  lemma PayloadFits(f: TransitFrame, isKey: IsKey)
    requires Valid(f, isKey)
    ensures Postcard.Fits(VariantShape(Tag(f)), Payload(f)) && PayloadOf(Tag(f), Payload(f), isKey) == Some(f)
  {
    match f
    case ReserveResponse(o) => ReserveFits(o, isKey);
    case ConnectRequest(_, v) => if v.Some? { VoucherFits(v.value, isKey); }
    case ConnectResponse(o) => ConnectFits(o);
    case _ =>
  }

  lemma FrameFits(f: TransitFrame, isKey: IsKey)
    requires Valid(f, isKey)
    ensures Postcard.Fits(FrameShape(), ToValue(f)) && OfValue(ToValue(f), isKey) == Some(f)
  {
    PayloadFits(f, isKey);
  }

  // ---- the codec

  function EncodeFrame(f: TransitFrame, isKey: IsKey): seq<byte>
    requires Valid(f, isKey)
  {
    FrameFits(f, isKey);
    Postcard.Put(FrameShape(), ToValue(f))
  }

  /** Strict: the slice must be exactly one frame. */
  function DecodeFrame(bs: seq<byte>, isKey: IsKey): Result<TransitFrame, TransitError> {
    match Postcard.Get(FrameShape(), bs)
    case None => Err(MalformedFrame)
    case Some((v, rest)) =>
      match OfValue(v, isKey)
      case None => Err(MalformedFrame)
      case Some(f) => if rest == [] then Ok(f) else Err(MalformedFrame)
  }

  lemma DecodesWith(f: TransitFrame, isKey: IsKey, tail: seq<byte>)
    requires Valid(f, isKey)
    ensures DecodeFrame(EncodeFrame(f, isKey) + tail, isKey) == if tail == [] then Ok(f) else Err(MalformedFrame)
  {
    FrameFits(f, isKey);
    Postcard.RoundTrip(FrameShape(), ToValue(f), tail);
  }

  lemma PrefixRejected(f: TransitFrame, isKey: IsKey, bs: seq<byte>)
    requires Valid(f, isKey) && bs < EncodeFrame(f, isKey)
    ensures DecodeFrame(bs, isKey) == Err(MalformedFrame)
  {
    var e := EncodeFrame(f, isKey);
    FrameFits(f, isKey);
    assert e == bs + e[|bs|..];
    Postcard.ProperPrefixRejected(FrameShape(), ToValue(f), bs, e[|bs|..]);
  }

  lemma ExtensionRejected(f: TransitFrame, isKey: IsKey, bs: seq<byte>)
    requires Valid(f, isKey) && EncodeFrame(f, isKey) < bs
    ensures DecodeFrame(bs, isKey) == Err(MalformedFrame)
  {
    var e := EncodeFrame(f, isKey);
    assert bs == e + bs[|e|..];
    DecodesWith(f, isKey, bs[|e|..]);
  }

  lemma DecodesExactly(f: TransitFrame, isKey: IsKey)
    requires Valid(f, isKey)
    ensures DecodeFrame(EncodeFrame(f, isKey), isKey) == Ok(f)
  {
    DecodesWith(f, isKey, []);
    assert EncodeFrame(f, isKey) + [] == EncodeFrame(f, isKey);
  }

  /** Decoding an encoding gives the frame back; every proper prefix and every proper extension of it is
      rejected, whatever is nested in the frame. */
  lemma CodecExact(f: TransitFrame, isKey: IsKey, bs: seq<byte>)
    requires Valid(f, isKey)
    ensures var e := EncodeFrame(f, isKey);
            && DecodeFrame(e, isKey) == Ok(f)
            && (bs < e ==> DecodeFrame(bs, isKey) == Err(MalformedFrame))
            && (e < bs ==> DecodeFrame(bs, isKey) == Err(MalformedFrame))
  {
    DecodesExactly(f, isKey);
    if bs < EncodeFrame(f, isKey) { PrefixRejected(f, isKey, bs); }
    if EncodeFrame(f, isKey) < bs { ExtensionRejected(f, isKey, bs); }
  }

  lemma VoucherBytes(v: Voucher, isKey: IsKey)
    requires ValidVoucher(v, isKey)
    ensures Postcard.Fits(VoucherShape(), VoucherValue(v))
    ensures Postcard.Put(VoucherShape(), VoucherValue(v)) ==
            v.relayNodeId + v.peerNodeId + Varint.Encode(v.expireUnixSecs) + v.signature
  {
  }

  lemma LimitsBytes(l: Limits)
    requires ValidLimits(l)
    ensures var v := Postcard.VPair(Postcard.VNum(l.maxCircuitBytes), Postcard.VNum(l.maxCircuitDurationSecs));
            Postcard.Fits(LimitsShape(), v)
            && Postcard.Put(LimitsShape(), v) ==
               Varint.Encode(l.maxCircuitBytes) + Varint.Encode(l.maxCircuitDurationSecs)
  {
  }

  lemma GrantedBytes(v: Voucher, l: Limits, isKey: IsKey)
    requires ValidVoucher(v, isKey) && ValidLimits(l)
    ensures Postcard.Fits(ReserveShape(), ReserveValue(Granted(v, l)))
    ensures Postcard.Put(ReserveShape(), ReserveValue(Granted(v, l))) ==
            Varint.Encode(0) + (v.relayNodeId + v.peerNodeId + Varint.Encode(v.expireUnixSecs) + v.signature
            + (Varint.Encode(l.maxCircuitBytes) + Varint.Encode(l.maxCircuitDurationSecs)))
  {
    ReserveFits(Granted(v, l), isKey);
    VoucherBytes(v, isKey);
    LimitsBytes(l);
  }

  /** The code of every reason, behind the tag of a refusal. */
  lemma DeniedBytes(e: TransitError)
    ensures Postcard.Fits(ErrorShape(), ErrorValue(e))
    ensures Postcard.Put(ErrorShape(), ErrorValue(e)) ==
            [match e
             case WhitelistRejected => 0
             case CapacityFull => 1
             case VoucherExpired => 2
             case VoucherInvalidSig => 3
             case TargetNotFound => 4
             case MalformedFrame => 5
             case UnexpectedFrame => 6]
    ensures Postcard.Fits(ReserveShape(), ReserveValue(Denied(e)))
    ensures Postcard.Put(ReserveShape(), ReserveValue(Denied(e))) == [1] + Postcard.Put(ErrorShape(), ErrorValue(e))
    ensures Postcard.Fits(ConnectShape(), ConnectValue(Refused(e)))
    ensures Postcard.Put(ConnectShape(), ConnectValue(Refused(e))) == [1] + Postcard.Put(ErrorShape(), ErrorValue(e))
  {
    ErrorFits(e);
    assert Varint.Encode(ErrorTag(e)) == [ErrorTag(e) as byte] && Varint.Encode(1) == [1];
    assert [ErrorTag(e) as byte] + [] == [ErrorTag(e) as byte];
  }

  lemma OptionBytes(v: Option<Voucher>, isKey: IsKey)
    requires v.Some? ==> ValidVoucher(v.value, isKey)
    ensures var s := Postcard.Opt(VoucherShape());
            var x := if v.None? then Postcard.VNone else Postcard.VSome(VoucherValue(v.value));
            Postcard.Fits(s, x)
            && Postcard.Put(s, x) ==
               if v.None? then [0]
               else [1] + (v.value.relayNodeId + v.value.peerNodeId + Varint.Encode(v.value.expireUnixSecs)
                           + v.value.signature)
  {
    if v.Some? { VoucherBytes(v.value, isKey); }
  }

  lemma ConnectLayout(f: TransitFrame, isKey: IsKey)
    requires Valid(f, isKey) && f.ConnectRequest?
    ensures EncodeFrame(f, isKey) ==
            [3] + (f.targetId + if f.voucher.None? then [0]
                                else [1] + (f.voucher.value.relayNodeId + f.voucher.value.peerNodeId
                                            + Varint.Encode(f.voucher.value.expireUnixSecs)
                                            + f.voucher.value.signature))
  {
    TagByte(f, isKey);
    OptionBytes(f.voucher, isKey);
  }

  lemma ConnectedLayout(f: TransitFrame, isKey: IsKey)
    requires Valid(f, isKey) && f.ConnectResponse?
    ensures EncodeFrame(f, isKey) ==
            [4] + match f.connect
                  case Connected => [0]
                  case Refused(e) => [1] + Postcard.Put(ErrorShape(), ErrorValue(e))
  {
    TagByte(f, isKey);
    assert Varint.Encode(0) == [0] && [0] + [] == [0];
    if f.connect.Refused? { DeniedBytes(f.connect.error); }
  }

  lemma DeniedLayout(f: TransitFrame, isKey: IsKey)
    requires Valid(f, isKey) && f.ReserveResponse? && f.reserve.Denied?
    ensures EncodeFrame(f, isKey) == [2] + ([1] + Postcard.Put(ErrorShape(), ErrorValue(f.reserve.error)))
  {
    TagByte(f, isKey);
    DeniedBytes(f.reserve.error);
  }

  lemma ByeLayout(f: TransitFrame, isKey: IsKey)
    requires Valid(f, isKey) && f.Bye?
    ensures EncodeFrame(f, isKey) ==
            [5] + if f.reason.None? then [0] else [1] + (Varint.Encode(|f.reason.value|) + f.reason.value)
  {
    TagByte(f, isKey);
  }

  /** The wire layout: a one-byte tag and the fields in order. The signature of a reserve request is a byte
      vector in the code and so carries its length, unlike in the layout its documentation sketches. */
  lemma Layout(f: TransitFrame, isKey: IsKey)
    requires Valid(f, isKey)
    ensures EncodeFrame(f, isKey) != [] &&
            EncodeFrame(f, isKey)[0] == match f
                                        case Hello(_, _) => 0
                                        case ReserveRequest(_, _) => 1
                                        case ReserveResponse(_) => 2
                                        case ConnectRequest(_, _) => 3
                                        case ConnectResponse(_) => 4
                                        case Bye(_) => 5
    ensures f.Hello? ==> EncodeFrame(f, isKey)[1..] == f.peerId + Varint.Encode(f.capabilities.reservedFlags)
    ensures f.ReserveRequest? ==>
              EncodeFrame(f, isKey)[1..] == f.reserveeId + (Varint.Encode(|f.reserveeSignature|) + f.reserveeSignature)
    ensures f.ReserveResponse? && f.reserve.Granted? ==>
              var v, l := f.reserve.voucher, f.reserve.limits;
              EncodeFrame(f, isKey)[1..] ==
              [0] + (v.relayNodeId + v.peerNodeId + Varint.Encode(v.expireUnixSecs) + v.signature
              + (Varint.Encode(l.maxCircuitBytes) + Varint.Encode(l.maxCircuitDurationSecs)))
  {
    FrameFits(f, isKey);
    TagByte(f, isKey);
    if f.ReserveResponse? && f.reserve.Granted? { GrantedBytes(f.reserve.voucher, f.reserve.limits, isKey); }
  }

  lemma TagByte(f: TransitFrame, isKey: IsKey)
    requires Valid(f, isKey)
    ensures Postcard.Fits(VariantShape(Tag(f)), Payload(f))
    ensures EncodeFrame(f, isKey) == [Tag(f) as byte] + Postcard.Put(VariantShape(Tag(f)), Payload(f))
  {
    PayloadFits(f, isKey);
    assert Varint.Encode(Tag(f)) == [Tag(f) as byte];
  }

  // ---- what decodes is valid

  lemma VoucherValid(v: Postcard.Value, isKey: IsKey)
    requires Postcard.Fits(VoucherShape(), v) && VoucherOf(v, isKey).Some?
    ensures ValidVoucher(VoucherOf(v, isKey).value, isKey)
  {
  }

  lemma ReserveValid(v: Postcard.Value, isKey: IsKey)
    requires Postcard.Fits(ReserveShape(), v) && ReserveOf(v, isKey).Some?
    ensures Valid(ReserveResponse(ReserveOf(v, isKey).value), isKey)
  {
    if v.tag == 0 { VoucherValid(v.payload.fst, isKey); }
  }

  lemma PayloadValid(tag: nat, v: Postcard.Value, isKey: IsKey)
    requires tag < 6 && Postcard.Fits(VariantShape(tag), v) && PayloadOf(tag, v, isKey).Some?
    ensures Valid(PayloadOf(tag, v, isKey).value, isKey)
  {
    if tag == 2 { ReserveValid(v, isKey); }
    if tag == 3 && v.snd.VSome? { VoucherValid(v.snd.value, isKey); }
  }

  /** Whatever bytes decode, they decode to a frame with well-formed keys, signatures and numbers, and that
      frame's own encoding decodes to it again. */
  lemma DecodedIsValid(bs: seq<byte>, isKey: IsKey)
    requires DecodeFrame(bs, isKey).Ok?
    ensures var f := DecodeFrame(bs, isKey).value;
            Valid(f, isKey) && DecodeFrame(EncodeFrame(f, isKey), isKey) == Ok(f)
  {
    Postcard.GetFits(FrameShape(), bs);
    var v := Postcard.Get(FrameShape(), bs).value.0;
    PayloadValid(v.tag, v.payload, isKey);
    CodecExact(DecodeFrame(bs, isKey).value, isKey, []);
  }
}
