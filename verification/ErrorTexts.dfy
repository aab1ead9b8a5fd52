/** What the display texts of errors say: the documented words around every payload, and nothing lost. */
module ErrorTexts {
  import opened Bytes
  import opened Errors

  /** `text` is the rendering of `e` that src/error.rs words variant by variant. */
  predicate Shows(e: RpcError, text: Text) {
    match e
    case Codec(cause) => text == Ascii("codec error: ") + cause
    case MalformedFrame(reason) => text == Ascii("malformed wire frame: ") + reason
    case UnknownMethod(name) => text == Ascii("unknown method: ") + name
    case InvalidMethodName(input) =>
      text == Ascii("invalid method-name format: expected `package[@version]/interface/method`, got `")
              + input + Ascii("`")
    case VersionMismatch(requested, available) =>
      text == Ascii("version mismatch: requested ") + requested + Ascii(", available [")
              + DebugItems(available) + Ascii("]")
    case Handler(inner) => text == Ascii("handler error: ") + inner
    case TransportOpenSubstream(nodeId, reason) =>
      text == Ascii("transport: ") + Ascii("failed to open substream to peer ") + nodeId + Ascii(": ") + reason
    case TransportRegisterAlpn(alpn, reason) =>
      text == Ascii("transport: ") + Ascii("failed to register ALPN handler '") + alpn + Ascii("': ") + reason
    case TransportRead(reason) => text == Ascii("transport: ") + Ascii("read failed: ") + reason
    case TransportWrite(reason) => text == Ascii("transport: ") + Ascii("write failed: ") + reason
    case DatagramStreamIdCollision(id) =>
      text == Ascii("datagram: ") + Ascii("stream-id ") + Decimal(id) + Ascii(" already registered")
    case DatagramStreamIdUnknown(id) =>
      text == Ascii("datagram: ") + Ascii("stream-id ") + Decimal(id) + Ascii(" not registered")
    case DatagramTooShort(len) =>
      text == Ascii("datagram: ") + Ascii("too short (") + Decimal(len)
              + Ascii(" bytes), need at least 1 byte for varint stream-id prefix")
    case AlreadyServing =>
      text == Ascii("RpcServer") + Ascii("::serve() called twice ") + [0xE2, 0x80, 0x94]
              + Ascii(" accept loop already running")
  }

  lemma Grouped(h: Text, a: Text, x: Text, b: Text, y: Text)
    ensures h + (a + x) == h + a + x
    ensures h + (a + x + b) == h + a + x + b
    ensures h + (a + x + b + y) == h + a + x + b + y
  {
  }

  lemma LocalShows(e: RpcError)
    requires e.TransportOpenSubstream? || e.TransportRegisterAlpn? || e.TransportRead? || e.TransportWrite?
             || e.DatagramStreamIdCollision? || e.DatagramStreamIdUnknown? || e.DatagramTooShort? || e.AlreadyServing?
    ensures Shows(e, Display(e))
  {
    match e
    case TransportOpenSubstream(id, reason) =>
      Grouped(TRANSPORT, Ascii("failed to open substream to peer "), id, Ascii(": "), reason);
    case TransportRegisterAlpn(alpn, reason) =>
      Grouped(TRANSPORT, Ascii("failed to register ALPN handler '"), alpn, Ascii("': "), reason);
    case TransportRead(reason) => Grouped(TRANSPORT, Ascii("read failed: "), reason, [], []);
    case TransportWrite(reason) => Grouped(TRANSPORT, Ascii("write failed: "), reason, [], []);
    case DatagramStreamIdCollision(id) =>
      Grouped(DATAGRAM, Ascii("stream-id "), Decimal(id), Ascii(" already registered"), []);
    case DatagramStreamIdUnknown(id) =>
      Grouped(DATAGRAM, Ascii("stream-id "), Decimal(id), Ascii(" not registered"), []);
    case DatagramTooShort(len) =>
      Grouped(DATAGRAM, Ascii("too short ("), Decimal(len),
              Ascii(" bytes), need at least 1 byte for varint stream-id prefix"), []);
    case AlreadyServing =>
      Grouped(RPC_SERVER, Ascii("::serve() called twice "), EM_DASH, Ascii(" accept loop already running"), []);
  }

  /** Every error's display is its documented rendering, with every payload in full. */
  lemma DisplayShows(e: RpcError)
    ensures Shows(e, Display(e))
  {
    match e
    case Codec(_) =>
    case MalformedFrame(_) =>
    case UnknownMethod(_) =>
    case InvalidMethodName(_) =>
    case VersionMismatch(_, _) =>
    case Handler(_) =>
    case _ => LocalShows(e);
  }

  // ---- numbers and lists inside texts

  predicate AllDigits(s: Text) { forall i :: 0 <= i < |s| ==> 0x30 <= s[i] < 0x3A }

  /** The number that some digits denote. */
  function ValueOf(digits: Text): nat
    requires AllDigits(digits)
  {
    if digits == [] then 0
    else 10 * ValueOf(digits[..|digits| - 1]) + (digits[|digits| - 1] as nat - 0x30)
  }

  lemma {:induction false} DecimalDigits(n: nat)
    ensures Decimal(n) != [] && AllDigits(Decimal(n))
    ensures n >= 10 ==> |Decimal(n)| >= 2
  {
    if n >= 10 { DecimalDigits(n / 10); }
  }

  /** A number is rendered in decimal digits that denote it, without a leading zero. */
  lemma {:induction false} DecimalDenotes(n: nat)
    ensures AllDigits(Decimal(n)) && ValueOf(Decimal(n)) == n
    ensures n > 0 ==> Decimal(n) != [] && Decimal(n)[0] != 0x30
  {
    DecimalDigits(n);
    if n >= 10 {
      DecimalDigits(n / 10);
      DecimalDenotes(n / 10);
      assert Decimal(n)[..|Decimal(n)| - 1] == Decimal(n / 10);
    } else {
      assert Decimal(n)[..0] == [];
    }
  }

  lemma OneItem(x: Text)
    ensures DebugItems([]) == [] && DebugItems([x]) == Ascii("\"") + x + Ascii("\"")
  {
  }

  lemma MoreItems(x: Text, more: seq<Text>)
    requires more != []
    ensures DebugItems([x] + more) == Quoted(x) + (Ascii(", ") + DebugItems(more))
  {
    assert ([x] + more)[1..] == more;
  }

  /** A list is rendered as its items, each in quotes, in order and separated by commas. */
  lemma {:induction false} DebugItemsJoin(xs: seq<Text>, ys: seq<Text>)
    requires xs != [] && ys != []
    ensures DebugItems(xs + ys) == DebugItems(xs) + Ascii(", ") + DebugItems(ys)
  {
    var x, more := xs[0], xs[1..];
    assert xs == [x] + more;
    if more == [] {
      assert xs + ys == [x] + ys;
      MoreItems(x, ys);
      OneItem(x);
      Grouped(Quoted(x), Ascii(", "), DebugItems(ys), [], []);
    } else {
      assert xs + ys == [x] + (more + ys);
      DebugItemsJoin(more, ys);
      MoreItems(x, more + ys);
      MoreItems(x, more);
      Joined(Quoted(x), Ascii(", "), DebugItems(more), DebugItems(ys));
    }
  }

  lemma Joined(q: Text, c: Text, more: Text, ys: Text)
    ensures q + (c + (more + c + ys)) == q + (c + more) + c + ys
  {
  }

  // ---- nothing is lost

  predicate SameWireVariant(e: RpcError, f: RpcError) {
    || (e.Codec? && f.Codec?) || (e.MalformedFrame? && f.MalformedFrame?) || (e.UnknownMethod? && f.UnknownMethod?)
    || (e.InvalidMethodName? && f.InvalidMethodName?) || (e.Handler? && f.Handler?)
  }

  predicate SameLocalVariant(e: RpcError, f: RpcError) {
    || (e.TransportRead? && f.TransportRead?) || (e.TransportWrite? && f.TransportWrite?)
    || (e.DatagramStreamIdCollision? && f.DatagramStreamIdCollision?)
    || (e.DatagramStreamIdUnknown? && f.DatagramStreamIdUnknown?) || (e.DatagramTooShort? && f.DatagramTooShort?)
  }

  lemma Between(a: Text, x: Text, y: Text, b: Text)
    requires a + x + b == a + y + b
    ensures x == y
  {
    assert x == (a + x + b)[|a|..|a| + |x|];
    assert y == (a + y + b)[|a|..|a| + |y|];
  }

  lemma NumbersBetween(a: Text, m: nat, n: nat, b: Text)
    requires a + Decimal(m) + b == a + Decimal(n) + b
    ensures m == n
  {
    Between(a, Decimal(m), Decimal(n), b);
    DecimalDenotes(m);
    DecimalDenotes(n);
  }

  lemma After(a: Text, x: Text, y: Text)
    requires a + x == a + y
    ensures x == y
  {
    Between(a, x, y, []);
  }

  lemma InvalidNameKeeps(x: Text, y: Text, text: Text)
    requires Shows(InvalidMethodName(x), text) && Shows(InvalidMethodName(y), text)
    ensures x == y
  {
    Between(Ascii("invalid method-name format: expected `package[@version]/interface/method`, got `"),
            x, y, Ascii("`"));
  }

  lemma PlainTextKeeps(e: RpcError, f: RpcError, text: Text)
    requires (e.Codec? && f.Codec?) || (e.MalformedFrame? && f.MalformedFrame?)
    requires Shows(e, text) && Shows(f, text)
    ensures e == f
  {
    match e
    case Codec(x) => After(Ascii("codec error: "), x, f.postcard);
    case MalformedFrame(x) => After(Ascii("malformed wire frame: "), x, f.reason);
  }

  lemma NamedTextKeeps(e: RpcError, f: RpcError, text: Text)
    requires (e.UnknownMethod? && f.UnknownMethod?) || (e.Handler? && f.Handler?)
    requires Shows(e, text) && Shows(f, text)
    ensures e == f
  {
    match e
    case UnknownMethod(x) => After(Ascii("unknown method: "), x, f.name);
    case Handler(x) => After(Ascii("handler error: "), x, f.inner);
  }

  lemma WireTextKeeps(e: RpcError, f: RpcError, text: Text)
    requires SameWireVariant(e, f) && Shows(e, text) && Shows(f, text)
    ensures e == f
  {
    if e.InvalidMethodName? { InvalidNameKeeps(e.input, f.input, text); }
    else if e.UnknownMethod? || e.Handler? { NamedTextKeeps(e, f, text); }
    else { PlainTextKeeps(e, f, text); }
  }

  lemma LocalTextKeeps(e: RpcError, f: RpcError, text: Text)
    requires SameLocalVariant(e, f) && Shows(e, text) && Shows(f, text)
    ensures e == f
  {
    match e
    case TransportRead(x) => After(Ascii("transport: ") + Ascii("read failed: "), x, f.reason);
    case TransportWrite(x) => After(Ascii("transport: ") + Ascii("write failed: "), x, f.reason);
    case DatagramStreamIdCollision(x) =>
      NumbersBetween(Ascii("datagram: ") + Ascii("stream-id "), x, f.streamId, Ascii(" already registered"));
    case DatagramStreamIdUnknown(x) =>
      NumbersBetween(Ascii("datagram: ") + Ascii("stream-id "), x, f.streamId, Ascii(" not registered"));
    case DatagramTooShort(x) =>
      NumbersBetween(Ascii("datagram: ") + Ascii("too short ("), x, f.len,
                     Ascii(" bytes), need at least 1 byte for varint stream-id prefix"));
  }

  /** Two errors of one variant with one payload display alike only if they are the same error. */
  lemma DisplayKeepsPayload(e: RpcError, f: RpcError, text: Text)
    requires SameWireVariant(e, f) || SameLocalVariant(e, f)
    requires text == Display(e) == Display(f)
    ensures e == f
  {
    DisplayShows(e);
    DisplayShows(f);
    if SameWireVariant(e, f) { WireTextKeeps(e, f, text); } else { LocalTextKeeps(e, f, text); }
  }
}
