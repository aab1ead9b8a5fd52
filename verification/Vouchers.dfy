/** Reservation vouchers (src/transit.rs): the fixed-layout signing input, signing and verifying under any
    signature scheme, and what a verified voucher says about the relay. */
module Vouchers {
  import opened Bytes
  import opened Transit
  import opened Wire
  import Varint

  const VOUCHER_DOMAIN_TAG: Text := Ascii("nerw/transit/voucher/v1")

  /** Ed25519 (section 5.1 of RFC 8032) as far as this code depends on it. */
  datatype Scheme<!Secret> = Scheme(
    publicKey: Secret -> Key,
    sign: (Secret, seq<byte>) -> seq<byte>,
    verify: (Key, seq<byte>, seq<byte>) -> bool)

  /** What a secret key signs verifies under its public key. */
  ghost predicate Correct<Secret(!new)>(s: Scheme<Secret>) {
    forall k, m :: s.verify(s.publicKey(k), m, s.sign(k, m))
  }

  /** Big-endian, most significant byte first. */
  function BigEndian(n: nat, width: nat): (bs: seq<byte>)
    ensures |bs| == width
  {
    if width == 0 then [] else BigEndian(n / 256, width - 1) + [(n % 256) as byte]
  }

  function SigningBytes(relay: Key, peer: Key, expire: nat): seq<byte> {
    VOUCHER_DOMAIN_TAG + relay + peer + BigEndian(expire, 8)
  }

  method ComposeSigningBytes(relay: Key, peer: Key, expire: nat) returns (bytes: seq<byte>)
    ensures bytes == SigningBytes(relay, peer, expire)
  {
    var buf := new Buffer();
    buf.Extend(VOUCHER_DOMAIN_TAG);
    buf.Extend(relay);
    buf.Extend(peer);
    buf.Extend(BigEndian(expire, 8));
    bytes := buf.bytes;
  }

  function Sign<Secret>(s: Scheme<Secret>, relaySecret: Secret, peer: Key, expire: nat): Voucher {
    var relay := s.publicKey(relaySecret);
    Voucher(relay, peer, expire, s.sign(relaySecret, SigningBytes(relay, peer, expire)))
  }

  /** Pins the voucher to the expected relay and checks the signature. */
  function Verify<Secret>(s: Scheme<Secret>, v: Voucher, relay: Key): Result<(), TransitError> {
    if v.relayNodeId != relay then Err(VoucherInvalidSig)
    else if s.verify(relay, SigningBytes(v.relayNodeId, v.peerNodeId, v.expireUnixSecs), v.signature) then Ok(())
    else Err(VoucherInvalidSig)
  }

  predicate IsExpired(v: Voucher, now: nat) { now >= v.expireUnixSecs }

  // ---- the signing input is injective

  function Pow256(k: nat): (p: nat)
    ensures p > 0
  {
    if k == 0 then 1 else 256 * Pow256(k - 1)
  }

  lemma {:induction false} BigEndianInjective(a: nat, b: nat, width: nat)
    requires a < Pow256(width) && b < Pow256(width) && BigEndian(a, width) == BigEndian(b, width)
    ensures a == b
  {
    if width > 0 {
      var x, y := BigEndian(a / 256, width - 1), BigEndian(b / 256, width - 1);
      assert x == BigEndian(a, width)[..width - 1] && y == BigEndian(b, width)[..width - 1];
      assert BigEndian(a, width)[width - 1] == (a % 256) as byte && BigEndian(b, width)[width - 1] == (b % 256) as byte;
      BigEndianInjective(a / 256, b / 256, width - 1);
    }
  }

  lemma Pow256Of8()
    ensures Pow256(8) == Varint.U64
  {
    assert Pow256(2) == 0x1_0000;
    assert Pow256(4) == 0x1_0000_0000;
    assert Pow256(6) == 0x1_0000_0000_0000;
  }

  /** No two vouchers share a signing input, and every input carries the domain tag. */
  lemma SigningBytesInjective(relay: Key, peer: Key, expire: nat, relay': Key, peer': Key, expire': nat)
    requires |relay| == |relay'| == 32 && |peer| == |peer'| == 32 && expire < Varint.U64 && expire' < Varint.U64
    ensures SigningBytes(relay, peer, expire) == SigningBytes(relay', peer', expire') <==>
            relay == relay' && peer == peer' && expire == expire'
    ensures |SigningBytes(relay, peer, expire)| == 23 + 32 + 32 + 8
    ensures StartsWith(SigningBytes(relay, peer, expire), VOUCHER_DOMAIN_TAG)
  {
    var a, b := SigningBytes(relay, peer, expire), SigningBytes(relay', peer', expire');
    assert a[..23] == VOUCHER_DOMAIN_TAG;
    assert a[23..55] == relay && a[55..87] == peer && a[87..] == BigEndian(expire, 8);
    assert b[23..55] == relay' && b[55..87] == peer' && b[87..] == BigEndian(expire', 8);
    if a == b {
      Pow256Of8();
      BigEndianInjective(expire, expire', 8);
    }
  }

  /** The `k`-th digit of a number in base 256, from the least significant. */
  function Octet(n: nat, k: nat): (b: nat)
    ensures b < 256
  {
    if k == 0 then n % 256 else Octet(n / 256, k - 1)
  }

  lemma {:induction false} BigEndianOctets(n: nat, width: nat, i: nat)
    requires i < width
    ensures BigEndian(n, width)[i] as nat == Octet(n, width - 1 - i)
  {
    if i < width - 1 { BigEndianOctets(n / 256, width - 1, i); }
  }

  lemma OctetsByDivision(n: nat)
    ensures Octet(n, 0) == n % 256
    ensures Octet(n, 1) == n / 0x100 % 256
    ensures Octet(n, 2) == n / 0x1_0000 % 256
    ensures Octet(n, 3) == n / 0x100_0000 % 256
    ensures Octet(n, 4) == n / 0x1_0000_0000 % 256
    ensures Octet(n, 5) == n / 0x100_0000_0000 % 256
    ensures Octet(n, 6) == n / 0x1_0000_0000_0000 % 256
    ensures Octet(n, 7) == n / 0x100_0000_0000_0000 % 256
  {
    var a := n / 256;
    var b := a / 256;
    var c := b / 256;
    var d := c / 256;
    var e := d / 256;
    var f := e / 256;
    var g := f / 256;
    assert b == n / 0x1_0000 && c == n / 0x100_0000 && d == n / 0x1_0000_0000;
    assert e == n / 0x100_0000_0000 && f == n / 0x1_0000_0000_0000 && g == n / 0x100_0000_0000_0000;
    assert Octet(n, 1) == Octet(a, 0) && Octet(n, 2) == Octet(a, 1) == Octet(b, 0);
    assert Octet(n, 3) == Octet(a, 2) == Octet(b, 1) == Octet(c, 0);
    assert Octet(n, 4) == Octet(a, 3) == Octet(b, 2) == Octet(c, 1) == Octet(d, 0);
    assert Octet(n, 5) == Octet(a, 4) == Octet(b, 3) == Octet(c, 2) == Octet(d, 1) == Octet(e, 0);
    assert Octet(n, 6) == Octet(a, 5) == Octet(b, 4) == Octet(c, 3) == Octet(d, 2) == Octet(e, 1) == Octet(f, 0);
    assert Octet(n, 7) == Octet(a, 6) == Octet(b, 5) == Octet(c, 4) == Octet(d, 3) == Octet(e, 2) == Octet(f, 1)
           == Octet(g, 0);
  }

  lemma TagBytes()
    ensures VOUCHER_DOMAIN_TAG == [0x6E, 0x65, 0x72, 0x77, 0x2F, 0x74, 0x72, 0x61, 0x6E, 0x73, 0x69, 0x74,
                                   0x2F, 0x76, 0x6F, 0x75, 0x63, 0x68, 0x65, 0x72, 0x2F, 0x76, 0x31]
  {
  }

  lemma SigningParts(relay: Key, peer: Key, expire: nat)
    requires |relay| == 32 && |peer| == 32
    ensures var bytes := SigningBytes(relay, peer, expire);
            |bytes| == 95 && bytes[..23] == VOUCHER_DOMAIN_TAG && bytes[23..55] == relay && bytes[55..87] == peer
            && bytes[87..] == BigEndian(expire, 8)
  {
  }

  lemma ExpiryByte(relay: Key, peer: Key, expire: nat, i: nat)
    requires |relay| == 32 && |peer| == 32 && i < 8
    ensures |SigningBytes(relay, peer, expire)| == 95
    ensures SigningBytes(relay, peer, expire)[87 + i] as nat == Octet(expire, 7 - i)
  {
    SigningParts(relay, peer, expire);
    BigEndianOctets(expire, 8, i);
    assert SigningBytes(relay, peer, expire)[87 + i] == SigningBytes(relay, peer, expire)[87..][i];
  }

  lemma ExpiryBytes(relay: Key, peer: Key, expire: nat, bytes: seq<byte>)
    requires |relay| == 32 && |peer| == 32 && bytes == SigningBytes(relay, peer, expire)
    ensures |bytes| == 95
    ensures bytes[87] as nat == expire / 0x100_0000_0000_0000 % 256
    ensures bytes[88] as nat == expire / 0x1_0000_0000_0000 % 256
    ensures bytes[89] as nat == expire / 0x100_0000_0000 % 256
    ensures bytes[90] as nat == expire / 0x1_0000_0000 % 256
    ensures bytes[91] as nat == expire / 0x100_0000 % 256
    ensures bytes[92] as nat == expire / 0x1_0000 % 256
    ensures bytes[93] as nat == expire / 0x100 % 256
    ensures bytes[94] as nat == expire % 256
  {
    OctetsByDivision(expire);
    ExpiryByte(relay, peer, expire, 0);
    ExpiryByte(relay, peer, expire, 1);
    ExpiryByte(relay, peer, expire, 2);
    ExpiryByte(relay, peer, expire, 3);
    ExpiryByte(relay, peer, expire, 4);
    ExpiryByte(relay, peer, expire, 5);
    ExpiryByte(relay, peer, expire, 6);
    ExpiryByte(relay, peer, expire, 7);
  }

  /** The signing input byte by byte: the tag, the two keys, and the expiry most significant byte first. */
  lemma SigningLayout(relay: Key, peer: Key, expire: nat, bytes: seq<byte>)
    requires |relay| == 32 && |peer| == 32 && bytes == SigningBytes(relay, peer, expire)
    ensures |bytes| == 95
    ensures bytes[..23] == [0x6E, 0x65, 0x72, 0x77, 0x2F, 0x74, 0x72, 0x61, 0x6E, 0x73, 0x69, 0x74,
                            0x2F, 0x76, 0x6F, 0x75, 0x63, 0x68, 0x65, 0x72, 0x2F, 0x76, 0x31]
    ensures bytes[23..55] == relay && bytes[55..87] == peer
    ensures bytes[87] as nat == expire / 0x100_0000_0000_0000 % 256
            && bytes[88] as nat == expire / 0x1_0000_0000_0000 % 256
            && bytes[89] as nat == expire / 0x100_0000_0000 % 256
            && bytes[90] as nat == expire / 0x1_0000_0000 % 256
            && bytes[91] as nat == expire / 0x100_0000 % 256
            && bytes[92] as nat == expire / 0x1_0000 % 256
            && bytes[93] as nat == expire / 0x100 % 256
            && bytes[94] as nat == expire % 256
  {
    TagBytes();
    SigningParts(relay, peer, expire);
    ExpiryBytes(relay, peer, expire, bytes);
  }

  // ---- expiry

  /** A voucher is good before its expiry, and from its expiry on it never is again. */
  lemma ExpiresOnce(v: Voucher, now: nat)
    ensures now < v.expireUnixSecs ==> !IsExpired(v, now)
    ensures IsExpired(v, v.expireUnixSecs)
    ensures now >= v.expireUnixSecs ==> IsExpired(v, now)
  {
  }

  // ---- signing and verifying

  /** A signed voucher verifies under its relay's key, and under no other. */
  lemma SignedVerifies<Secret(!new)>(s: Scheme<Secret>, relaySecret: Secret, peer: Key, expire: nat, key: Key)
    requires Correct(s)
    ensures Verify(s, Sign(s, relaySecret, peer, expire), key).Ok? <==> key == s.publicKey(relaySecret)
  {
    var relay := s.publicKey(relaySecret);
    assert s.verify(relay, SigningBytes(relay, peer, expire), s.sign(relaySecret, SigningBytes(relay, peer, expire)));
  }

  /** What relays do in a run: each event is one voucher issued. */
  datatype Issue<Secret> = Issue(relaySecret: Secret, peer: Key, expire: nat)

  function Issued<Secret>(s: Scheme<Secret>, e: Issue<Secret>): Voucher { Sign(s, e.relaySecret, e.peer, e.expire) }

  /** The messages signed under a key in a run where its owner signs only vouchers. */
  ghost predicate SignedInRun<Secret(!new)>(s: Scheme<Secret>, run: seq<Issue<Secret>>, key: Key, m: seq<byte>) {
    exists i :: 0 <= i < |run| && s.publicKey(run[i].relaySecret) == key
                && m == SigningBytes(key, run[i].peer, run[i].expire)
  }

  /** A message with the signature that came with it. */
  datatype Signed = Signed(message: seq<byte>, signature: seq<byte>)

  /** What checking a voucher's signature looks at. */
  function Evidence(v: Voucher): Signed {
    Signed(SigningBytes(v.relayNodeId, v.peerNodeId, v.expireUnixSecs), v.signature)
  }

  /** Nobody forged a signature of this key: among those presented in the run, what verifies was signed. */
  ghost predicate Unforged<Secret(!new)>(s: Scheme<Secret>, run: seq<Issue<Secret>>, key: Key, presented: set<Signed>) {
    forall p :: p in presented && s.verify(key, p.message, p.signature) ==> SignedInRun(s, run, key, p.message)
  }

  predicate WellFormedIssue<Secret>(s: Scheme<Secret>, e: Issue<Secret>) {
    |s.publicKey(e.relaySecret)| == 32 && |e.peer| == 32 && e.expire < Varint.U64
  }

  /** The voucher is good before this moment, and from it on it never is again. */
  ghost predicate GoodUntil(v: Voucher, expiry: nat) {
    && (forall now: nat :: now < expiry ==> !IsExpired(v, now))
    && IsExpired(v, expiry)
    && (forall now: nat :: expiry <= now ==> IsExpired(v, now))
  }

  /** Every presented voucher that verifies names exactly a relay, peer and expiry that the relay issued in the
      run, and is good until exactly the expiry that was issued. */
  lemma VerifiedWasIssued<Secret(!new)>(s: Scheme<Secret>, run: seq<Issue<Secret>>, presented: set<Signed>,
                                        v: Voucher, relay: Key, isKey: IsKey)
    requires Correct(s) && Unforged(s, run, relay, presented)
    requires forall i :: 0 <= i < |run| ==> WellFormedIssue(s, run[i])
    requires ValidVoucher(v, isKey) && Evidence(v) in presented && Verify(s, v, relay).Ok?
    ensures exists i :: 0 <= i < |run| && s.publicKey(run[i].relaySecret) == relay == v.relayNodeId
              && run[i].peer == v.peerNodeId && run[i].expire == v.expireUnixSecs
              && GoodUntil(v, run[i].expire)
  {
    var m := Evidence(v).message;
    assert SignedInRun(s, run, relay, m);
    var i :| 0 <= i < |run| && s.publicKey(run[i].relaySecret) == relay
             && m == SigningBytes(relay, run[i].peer, run[i].expire);
    assert WellFormedIssue(s, run[i]);
    SigningBytesInjective(relay, v.peerNodeId, v.expireUnixSecs, relay, run[i].peer, run[i].expire);
    assert run[i].expire == v.expireUnixSecs && GoodUntil(v, run[i].expire);
  }

  /** What is presented under a key in an honest run: the vouchers its owner issued. */
  function PresentedHonestly<Secret>(s: Scheme<Secret>, run: seq<Issue<Secret>>, key: Key): set<Signed> {
    set i | 0 <= i < |run| && s.publicKey(run[i].relaySecret) == key :: Evidence(Issued(s, run[i]))
  }

  /** The hypotheses hold together, and for vouchers that exist: under a correct scheme a run that presents its
      own vouchers is unforged, and each of them verifies. */
  lemma HonestRunsVerify<Secret(!new)>(s: Scheme<Secret>, run: seq<Issue<Secret>>, key: Key)
    requires Correct(s)
    ensures Unforged(s, run, key, PresentedHonestly(s, run, key))
    ensures forall i :: 0 <= i < |run| && s.publicKey(run[i].relaySecret) == key ==>
              Evidence(Issued(s, run[i])) in PresentedHonestly(s, run, key) && Verify(s, Issued(s, run[i]), key).Ok?
  {
    forall p | p in PresentedHonestly(s, run, key) ensures SignedInRun(s, run, key, p.message) {
      var i :| 0 <= i < |run| && s.publicKey(run[i].relaySecret) == key && p == Evidence(Issued(s, run[i]));
    }
    forall i | 0 <= i < |run| && s.publicKey(run[i].relaySecret) == key
      ensures Evidence(Issued(s, run[i])) in PresentedHonestly(s, run, key) && Verify(s, Issued(s, run[i]), key).Ok?
    {
      SignedVerifies(s, run[i].relaySecret, run[i].peer, run[i].expire, key);
    }
  }

  function VoucherIn(f: TransitFrame): Option<Voucher> {
    match f
    case ConnectRequest(_, v) => v
    case ReserveResponse(o) => if o.Granted? then Some(o.voucher) else None
    case _ => None
  }

  /** So whatever bytes a relay or a dialer decodes: a presented voucher in them that verifies under a relay's
      key was issued by that relay, to that peer, with that expiry. */
  lemma DecodedWasIssued<Secret(!new)>(s: Scheme<Secret>, run: seq<Issue<Secret>>, presented: set<Signed>,
                                       bs: seq<byte>, relay: Key, isKey: IsKey)
    requires Correct(s) && Unforged(s, run, relay, presented)
    requires forall i :: 0 <= i < |run| ==> WellFormedIssue(s, run[i])
    requires DecodeFrame(bs, isKey).Ok? && VoucherIn(DecodeFrame(bs, isKey).value).Some?
    requires var v := VoucherIn(DecodeFrame(bs, isKey).value).value;
             Evidence(v) in presented && Verify(s, v, relay).Ok?
    ensures var v := VoucherIn(DecodeFrame(bs, isKey).value).value;
            exists i :: 0 <= i < |run| && s.publicKey(run[i].relaySecret) == relay
              && run[i].peer == v.peerNodeId && run[i].expire == v.expireUnixSecs && GoodUntil(v, run[i].expire)
  {
    DecodedIsValid(bs, isKey);
    VerifiedWasIssued(s, run, presented, VoucherIn(DecodeFrame(bs, isKey).value).value, relay, isKey);
  }

  /** And a voucher that was issued, sent in a frame and decoded verifies for its relay, whatever else was
      presented. */
  lemma IssuedArrives<Secret(!new)>(s: Scheme<Secret>, e: Issue<Secret>, target: Key, isKey: IsKey)
    requires Correct(s) && ValidVoucher(Issued(s, e), isKey) && ValidKey(target, isKey)
    ensures var f := ConnectRequest(target, Some(Issued(s, e)));
            DecodeFrame(EncodeFrame(f, isKey), isKey) == Ok(f)
            && Verify(s, VoucherIn(f).value, s.publicKey(e.relaySecret)).Ok?
  {
    CodecExact(ConnectRequest(target, Some(Issued(s, e))), isKey, []);
    SignedVerifies(s, e.relaySecret, e.peer, e.expire, s.publicKey(e.relaySecret));
  }
}
