/** The framework's error type. Diagnostics the framework words itself are given by their leading text;
    numbers and nested renderings inside them are left out. */
module Errors {
  import opened Bytes

  datatype RpcError =
    | Codec(postcard: Text)
    | MalformedFrame(reason: Text)
    | UnknownMethod(name: Text)
    | InvalidMethodName(input: Text)
    | VersionMismatch(requested: Text, available: seq<Text>)
    | Handler(inner: Text)
    | TransportOpenSubstream(nodeId: Text, reason: Text)
    | TransportRegisterAlpn(alpn: Text, reason: Text)
    | TransportRead(reason: Text)
    | TransportWrite(reason: Text)
    | DatagramStreamIdCollision(streamId: nat)
    | DatagramStreamIdUnknown(streamId: nat)
    | DatagramTooShort(len: nat)
    | AlreadyServing

  function Decimal(n: nat): Text {
    if n < 10 then [(n + 48) as byte] else Decimal(n / 10) + [(n % 10 + 48) as byte]
  }

  function Quoted(t: Text): Text { Ascii("\"") + t + Ascii("\"") }

  /** `{:?}` of a list of strings, without the escaping of special characters. */
  function DebugItems(items: seq<Text>): Text {
    if items == [] then []
    else if |items| == 1 then Quoted(items[0])
    else Quoted(items[0]) + (Ascii(", ") + DebugItems(items[1..]))
  }

  const HANDLER_PREFIX: Text := Ascii("handler error: ")

  /** The `Display` rendering. */
  function Display(e: RpcError): Text {
    match e
    case Codec(postcard) => Ascii("codec error: ") + postcard
    case MalformedFrame(reason) => Ascii("malformed wire frame: ") + reason
    case UnknownMethod(name) => Ascii("unknown method: ") + name
    case InvalidMethodName(input) =>
      Ascii("invalid method-name format: expected `package[@version]/interface/method`, got `") + input + Ascii("`")
    case VersionMismatch(requested, available) =>
      Ascii("version mismatch: requested ") + requested + Ascii(", available [") + DebugItems(available) + Ascii("]")
    case Handler(inner) => HANDLER_PREFIX + inner
    case TransportOpenSubstream(nodeId, reason) =>
      TRANSPORT + (Ascii("failed to open substream to peer ") + nodeId + Ascii(": ") + reason)
    case TransportRegisterAlpn(alpn, reason) =>
      TRANSPORT + (Ascii("failed to register ALPN handler '") + alpn + Ascii("': ") + reason)
    case TransportRead(reason) => TRANSPORT + (Ascii("read failed: ") + reason)
    case TransportWrite(reason) => TRANSPORT + (Ascii("write failed: ") + reason)
    case DatagramStreamIdCollision(id) =>
      DATAGRAM + (Ascii("stream-id ") + Decimal(id) + Ascii(" already registered"))
    case DatagramStreamIdUnknown(id) => DATAGRAM + (Ascii("stream-id ") + Decimal(id) + Ascii(" not registered"))
    case DatagramTooShort(len) =>
      DATAGRAM + (Ascii("too short (") + Decimal(len)
                  + Ascii(" bytes), need at least 1 byte for varint stream-id prefix"))
    case AlreadyServing =>
      RPC_SERVER + (Ascii("::serve() called twice ") + EM_DASH + Ascii(" accept loop already running"))
  }

  const TRANSPORT: Text := Ascii("transport: ")
  const DATAGRAM: Text := Ascii("datagram: ")
  const RPC_SERVER: Text := Ascii("RpcServer")

  const EM_DASH: Text := [0xE2, 0x80, 0x94]

  type RpcResult<+T> = Result<T, RpcError>

  /** Any failed transport read: the wording names the place and the library's cause, and is not modelled. */
  const READ_FAILED: RpcError := TransportRead(Ascii("read failed"))

  /** Any failed transport write, likewise. */
  const WRITE_FAILED: RpcError := TransportWrite(Ascii("write failed"))
}
