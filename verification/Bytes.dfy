/** Bytes, text and the small result types every other module uses. Text is a Rust string seen as its
    bytes; a decoder that yields text checks `Utf8Valid`. */
module Bytes {
  newtype byte = b: int | 0 <= b < 256

  type Text = seq<byte>

  datatype Option<+T> = None | Some(value: T) {
    function GetOr(default: T): T { if Some? then value else default }
  }

  datatype Result<+T, +E> = Ok(value: T) | Err(error: E)

  /** The bytes of an ASCII literal. */
  function Ascii(s: string): (t: Text)
    ensures |t| == |s|
  {
    seq(|s|, i requires 0 <= i < |s| => (s[i] as int % 128) as byte)
  }

  /** An ASCII literal's bytes are its characters' codes. */
  lemma AsciiCodes(s: string, i: nat)
    requires i < |s| && s[i] as int < 128
    ensures Ascii(s)[i] as int == s[i] as int
  {
  }

  predicate Continuation(b: byte) { 0x80 <= b < 0xC0 }

  /** The length of the well-formed UTF-8 sequence that starts `t`, or 0 if there is none
      (table of section 4 of RFC 3629). */
  function Utf8Head(t: Text): (n: nat)
    ensures n <= |t|
  {
    if |t| >= 1 && t[0] < 0x80 then 1
    else if |t| >= 2 && 0xC2 <= t[0] < 0xE0 && Continuation(t[1]) then 2
    else if |t| >= 3 && 0xE0 <= t[0] < 0xF0 && Continuation(t[1]) && Continuation(t[2])
            && (t[0] == 0xE0 ==> 0xA0 <= t[1]) && (t[0] == 0xED ==> t[1] < 0xA0) then 3
    else if |t| >= 4 && 0xF0 <= t[0] < 0xF5 && Continuation(t[1]) && Continuation(t[2]) && Continuation(t[3])
            && (t[0] == 0xF0 ==> 0x90 <= t[1]) && (t[0] == 0xF4 ==> t[1] < 0x90) then 4
    else 0
  }

  predicate Utf8Valid(t: Text) {
    t == [] || (var n := Utf8Head(t); n > 0 && Utf8Valid(t[n..]))
  }

  predicate AllAscii(t: Text) { forall i :: 0 <= i < |t| ==> t[i] < 0x80 }

  /** An ASCII prefix neither breaks nor repairs what follows it. */
  lemma {:induction false} AsciiPrefixUtf8(a: Text, t: Text)
    requires AllAscii(a)
    ensures Utf8Valid(a + t) <==> Utf8Valid(t)
  {
    if a == [] {
      assert a + t == t;
    } else {
      assert (a + t)[1..] == a[1..] + t;
      AsciiPrefixUtf8(a[1..], t);
    }
  }

  predicate StartsWith(s: Text, p: Text) { |p| <= |s| && s[..|p|] == p }

  predicate EndsWith(s: Text, p: Text) { |p| <= |s| && s[|s| - |p|..] == p }
}
