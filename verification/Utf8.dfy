/** The validity check of texts against the definition of UTF-8: exactly the encodings of sequences of Unicode
    scalar values (section 3 of RFC 3629). */
module Utf8 {
  import opened Bytes

  predicate Scalar(c: nat) { c < 0x11_0000 && !(0xD800 <= c < 0xE000) }

  /** The octets of one scalar value, by the bit patterns of the standard. */
  function EncodeScalar(c: nat): (t: Text)
    requires Scalar(c)
    ensures t != []
  {
    if c < 0x80 then [c as byte]
    else if c < 0x800 then [(0xC0 + c / 0x40) as byte, (0x80 + c % 0x40) as byte]
    else if c < 0x1_0000 then
      [(0xE0 + c / 0x1000) as byte, (0x80 + c / 0x40 % 0x40) as byte, (0x80 + c % 0x40) as byte]
    else
      [(0xF0 + c / 0x4_0000) as byte, (0x80 + c / 0x1000 % 0x40) as byte, (0x80 + c / 0x40 % 0x40) as byte,
       (0x80 + c % 0x40) as byte]
  }

  predicate Scalars(cs: seq<nat>) { forall i :: 0 <= i < |cs| ==> Scalar(cs[i]) }

  function EncodeScalars(cs: seq<nat>): Text
    requires Scalars(cs)
  {
    if cs == [] then [] else EncodeScalar(cs[0]) + EncodeScalars(cs[1..])
  }

  /** The check sees exactly the octets of the first scalar value, whatever follows. */
  lemma HeadOfScalar(c: nat, more: Text)
    requires Scalar(c)
    ensures Utf8Head(EncodeScalar(c) + more) == |EncodeScalar(c)|
  {
    var t := EncodeScalar(c) + more;
    if c >= 0x80 {
      assert t[0] == EncodeScalar(c)[0] && t[1] == EncodeScalar(c)[1];
      if c >= 0x800 { assert t[2] == EncodeScalar(c)[2]; }
      if c >= 0x1_0000 { assert t[3] == EncodeScalar(c)[3]; }
    }
  }

  /** The scalar value of the sequence the check accepts at the front. */
  function DecodeHead(t: Text): nat
    requires Utf8Head(t) > 0
  {
    var n := Utf8Head(t);
    if n == 1 then t[0] as nat
    else if n == 2 then (t[0] as nat - 0xC0) * 0x40 + (t[1] as nat - 0x80)
    else if n == 3 then (t[0] as nat - 0xE0) * 0x1000 + (t[1] as nat - 0x80) * 0x40 + (t[2] as nat - 0x80)
    else (t[0] as nat - 0xF0) * 0x4_0000 + (t[1] as nat - 0x80) * 0x1000 + (t[2] as nat - 0x80) * 0x40
         + (t[3] as nat - 0x80)
  }

  lemma TwoOctets(t: Text)
    requires Utf8Head(t) == 2
    ensures Scalar(DecodeHead(t)) && EncodeScalar(DecodeHead(t)) == t[..2]
  {
  }

  lemma ThreeOctets(t: Text)
    requires Utf8Head(t) == 3
    ensures Scalar(DecodeHead(t)) && EncodeScalar(DecodeHead(t)) == t[..3]
  {
    var a, b, c := t[0] as nat - 0xE0, t[1] as nat - 0x80, t[2] as nat - 0x80;
    var d := DecodeHead(t);
    assert d == a * 0x1000 + b * 0x40 + c && b < 0x40 && c < 0x40;
    assert d / 0x1000 == a && d / 0x40 == a * 0x40 + b && d % 0x40 == c;
    assert d / 0x40 % 0x40 == b;
  }

  lemma FourOctets(t: Text)
    requires Utf8Head(t) == 4
    ensures Scalar(DecodeHead(t)) && EncodeScalar(DecodeHead(t)) == t[..4]
  {
    var a, b, c, e := t[0] as nat - 0xF0, t[1] as nat - 0x80, t[2] as nat - 0x80, t[3] as nat - 0x80;
    var d := DecodeHead(t);
    assert d == a * 0x4_0000 + b * 0x1000 + c * 0x40 + e && b < 0x40 && c < 0x40 && e < 0x40;
    assert d / 0x4_0000 == a && d / 0x1000 == a * 0x40 + b && d / 0x40 == a * 0x1000 + b * 0x40 + c && d % 0x40 == e;
    assert d / 0x1000 % 0x40 == b && d / 0x40 % 0x40 == c;
  }

  /** What the check accepts at the front encodes a scalar value. */
  lemma HeadIsScalar(t: Text)
    requires Utf8Head(t) > 0
    ensures Scalar(DecodeHead(t)) && EncodeScalar(DecodeHead(t)) == t[..Utf8Head(t)]
  {
    if Utf8Head(t) == 2 { TwoOctets(t); }
    if Utf8Head(t) == 3 { ThreeOctets(t); }
    if Utf8Head(t) == 4 { FourOctets(t); }
  }

  lemma {:induction false} EncodedIsValid(cs: seq<nat>)
    requires Scalars(cs)
    ensures Utf8Valid(EncodeScalars(cs))
  {
    if cs != [] {
      var t := EncodeScalars(cs);
      HeadOfScalar(cs[0], EncodeScalars(cs[1..]));
      EncodedIsValid(cs[1..]);
      assert t[Utf8Head(t)..] == EncodeScalars(cs[1..]);
    }
  }

  lemma {:induction false} ValidIsEncoded(t: Text) returns (cs: seq<nat>)
    requires Utf8Valid(t)
    ensures Scalars(cs) && EncodeScalars(cs) == t
    decreases |t|
  {
    cs := [];
    if t != [] {
      var n := Utf8Head(t);
      HeadIsScalar(t);
      var more := ValidIsEncoded(t[n..]);
      cs := [DecodeHead(t)] + more;
      assert cs[1..] == more && t == t[..n] + t[n..];
    }
  }

  /** A text is valid if and only if it encodes some sequence of scalar values. */
  lemma ValidityIsUtf8(t: Text)
    ensures Utf8Valid(t) <==> exists cs :: Scalars(cs) && EncodeScalars(cs) == t
  {
    if Utf8Valid(t) {
      var cs := ValidIsEncoded(t);
    }
    if exists cs :: Scalars(cs) && EncodeScalars(cs) == t {
      var cs :| Scalars(cs) && EncodeScalars(cs) == t;
      EncodedIsValid(cs);
    }
  }
}
