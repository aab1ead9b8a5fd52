/** The postcard wire format ("Varint Encoded Integers" and the tagged-union, option, string, sequence
    and tuple rules of its published specification), once, for every message of the protocol: a shape is
    what a derived serde implementation asks the format for, a value is what it hands over. */
module Postcard {
  import opened Bytes
  import Varint

  datatype Shape =
    | Unit
    | Bool
    | U32
    | U64
    | Raw(len: nat)          // a fixed array of bytes: no prefix
    | Blob                   // length-prefixed bytes
    | Str                    // length-prefixed UTF-8
    | Opt(inner: Shape)
    | List(item: Shape)
    | Pair(first: Shape, second: Shape)
    | Enum(variants: seq<Shape>)

  datatype Value =
    | VUnit
    | VBool(b: bool)
    | VNum(n: nat)
    | VBytes(bytes: seq<byte>)
    | VNone
    | VSome(value: Value)
    | VList(items: seq<Value>)
    | VPair(fst: Value, snd: Value)
    | VVariant(tag: nat, payload: Value)

  /** A string as a Rust value: UTF-8 and of a machine-sized length. */
  predicate IsText(t: Text) { Utf8Valid(t) && |t| < Varint.U64 }

  /** `v` is a value a Rust type of shape `s` can hold. */
  predicate Fits(s: Shape, v: Value)
    decreases s, 0
  {
    match s
    case Unit => v == VUnit
    case Bool => v.VBool?
    case U32 => v.VNum? && v.n < 0x1_0000_0000
    case U64 => v.VNum? && v.n < Varint.U64
    case Raw(len) => v.VBytes? && |v.bytes| == len
    case Blob => v.VBytes? && |v.bytes| < Varint.U64
    case Str => v.VBytes? && IsText(v.bytes)
    case Opt(inner) => v == VNone || (v.VSome? && Fits(inner, v.value))
    case List(item) => v.VList? && |v.items| < Varint.U64 && AllFit(item, v.items)
    case Pair(a, b) => v.VPair? && Fits(a, v.fst) && Fits(b, v.snd)
    case Enum(variants) =>
      v.VVariant? && v.tag < |variants| && v.tag < 0x1_0000_0000 && Fits(variants[v.tag], v.payload)
  }

  predicate AllFit(item: Shape, vs: seq<Value>)
    decreases item, |vs| + 1
  {
    vs == [] || (Fits(item, vs[0]) && AllFit(item, vs[1..]))
  }

  function Put(s: Shape, v: Value): seq<byte>
    requires Fits(s, v)
    decreases s, 0
  {
    match s
    case Unit => []
    case Bool => [if v.b then 1 else 0]
    case U32 => Varint.Encode(v.n)
    case U64 => Varint.Encode(v.n)
    case Raw(_) => v.bytes
    case Blob => Varint.Encode(|v.bytes|) + v.bytes
    case Str => Varint.Encode(|v.bytes|) + v.bytes
    case Opt(inner) => if v == VNone then [0] else [1] + Put(inner, v.value)
    case List(item) => Varint.Encode(|v.items|) + PutMany(item, v.items)
    case Pair(a, b) => Put(a, v.fst) + Put(b, v.snd)
    case Enum(variants) => Varint.Encode(v.tag) + Put(variants[v.tag], v.payload)
  }

  function PutMany(item: Shape, vs: seq<Value>): seq<byte>
    requires AllFit(item, vs)
    decreases item, |vs| + 1
  {
    if vs == [] then [] else Put(item, vs[0]) + PutMany(item, vs[1..])
  }

  type Taken<T> = Option<(T, seq<byte>)>

  function GetBytes(n: nat, bs: seq<byte>): Taken<seq<byte>> {
    if n <= |bs| then Some((bs[..n], bs[n..])) else None
  }

  function AfterLength(len: Taken<nat>): (r: Taken<seq<byte>>)
    ensures r.Some? ==> |r.value.0| < Varint.U64
  {
    match len
    case None => None
    case Some((n, rest)) => if n < Varint.U64 then GetBytes(n, rest) else None
  }

  function GetBlob(bs: seq<byte>): (r: Taken<seq<byte>>)
    ensures r.Some? ==> |r.value.0| < Varint.U64
  {
    AfterLength(Varint.TakeU64(bs))
  }

  /** Reads one value off the front of `bs`. */
  function Get(s: Shape, bs: seq<byte>): (r: Taken<Value>)
    decreases s, 0
  {
    match s
    case Unit => Some((VUnit, bs))
    case Bool => if bs != [] && bs[0] <= 1 then Some((VBool(bs[0] == 1), bs[1..])) else None
    case U32 => (match Varint.TakeU32(bs) case None => None case Some((n, rest)) => Some((VNum(n), rest)))
    case U64 => (match Varint.TakeU64(bs) case None => None case Some((n, rest)) => Some((VNum(n), rest)))
    case Raw(len) =>
      (match GetBytes(len, bs) case None => None case Some((x, rest)) => Some((VBytes(x), rest)))
    case Blob => (match GetBlob(bs) case None => None case Some((x, rest)) => Some((VBytes(x), rest)))
    case Str =>
      (match GetBlob(bs)
       case None => None
       case Some((x, rest)) => if Utf8Valid(x) then Some((VBytes(x), rest)) else None)
    case Opt(inner) =>
      if bs == [] || bs[0] > 1 then None
      else if bs[0] == 0 then Some((VNone, bs[1..]))
      else (match Get(inner, bs[1..]) case None => None case Some((x, rest)) => Some((VSome(x), rest)))
    case List(item) =>
      (match Varint.TakeU64(bs)
       case None => None
       case Some((n, rest)) =>
         (match GetMany(item, n, rest) case None => None case Some((xs, rest')) => Some((VList(xs), rest'))))
    case Pair(a, b) =>
      (match Get(a, bs)
       case None => None
       case Some((x, rest)) =>
         (match Get(b, rest) case None => None case Some((y, rest')) => Some((VPair(x, y), rest'))))
    case Enum(variants) =>
      (match Varint.TakeU32(bs)
       case None => None
       case Some((tag, rest)) =>
         if tag < |variants| then
           (match Get(variants[tag], rest)
            case None => None
            case Some((x, rest')) => Some((VVariant(tag, x), rest')))
         else None)
  }

  function GetMany(item: Shape, n: nat, bs: seq<byte>): Taken<seq<Value>>
    decreases item, n + 1
  {
    if n == 0 then Some(([], bs))
    else match Get(item, bs)
      case None => None
      case Some((x, rest)) =>
        (match GetMany(item, n - 1, rest) case None => None case Some((xs, rest')) => Some(([x] + xs, rest')))
  }

  lemma AfterLengthSplits(x: seq<byte>, tail: seq<byte>)
    requires |x| < Varint.U64
    ensures AfterLength(Some((|x|, x + tail))) == Some((x, tail))
  {
    assert (x + tail)[..|x|] == x && (x + tail)[|x|..] == tail;
  }

  lemma BlobFrom(bs: seq<byte>, x: seq<byte>, tail: seq<byte>)
    requires |x| < Varint.U64 && Varint.TakeU64(bs) == Some((|x|, x + tail))
    ensures GetBlob(bs) == Some((x, tail))
  {
    AfterLengthSplits(x, tail);
  }

  lemma BlobRoundTrip(x: seq<byte>, tail: seq<byte>)
    requires |x| < Varint.U64
    ensures GetBlob(Varint.Encode(|x|) + x + tail) == Some((x, tail))
  {
    var bs, body := Varint.Encode(|x|) + x + tail, x + tail;
    assert bs == Varint.Encode(|x|) + body;
    Varint.U64RoundTrip(|x|, body);
    BlobFrom(bs, x, tail);
  }

  predicate Scalar(s: Shape) { !s.Opt? && !s.List? && !s.Pair? && !s.Enum? }

  lemma ScalarRoundTrip(s: Shape, v: Value, tail: seq<byte>)
    requires Scalar(s) && Fits(s, v)
    ensures Get(s, Put(s, v) + tail) == Some((v, tail))
  {
    match s
    case Unit => assert Put(s, v) + tail == tail;
    case Bool => assert (Put(s, v) + tail)[1..] == tail;
    case U32 => Varint.U32RoundTrip(v.n, tail);
    case U64 => Varint.U64RoundTrip(v.n, tail);
    case Raw(_) => assert (v.bytes + tail)[..|v.bytes|] == v.bytes && (v.bytes + tail)[|v.bytes|..] == tail;
    case Blob => BlobRoundTrip(v.bytes, tail);
    case Str => BlobRoundTrip(v.bytes, tail);
  }

  /** Decoding inverts encoding, for every shape and value and whatever bytes follow. */
  lemma {:induction false} RoundTrip(s: Shape, v: Value, tail: seq<byte>)
    requires Fits(s, v)
    ensures Get(s, Put(s, v) + tail) == Some((v, tail))
    decreases s, 1
  {
    match s
    case Opt(inner) => OptRoundTrip(inner, v, tail);
    case List(item) => ListRoundTrip(item, v, tail);
    case Pair(a, b) => PairRoundTrip(a, b, v, tail);
    case Enum(variants) => EnumRoundTrip(s, v, tail);
    case _ => ScalarRoundTrip(s, v, tail);
  }

  lemma {:induction false} OptRoundTrip(inner: Shape, v: Value, tail: seq<byte>)
    requires Fits(Opt(inner), v)
    ensures Get(Opt(inner), Put(Opt(inner), v) + tail) == Some((v, tail))
    decreases Opt(inner), 0
  {
    var bs := Put(Opt(inner), v) + tail;
    if v == VNone {
      assert bs == [0] + tail && bs[1..] == tail;
    } else {
      var body := Put(inner, v.value);
      assert bs == [1] + (body + tail);
      assert bs[1..] == body + tail;
      RoundTrip(inner, v.value, tail);
    }
  }

  lemma {:induction false} ListRoundTrip(item: Shape, v: Value, tail: seq<byte>)
    requires Fits(List(item), v)
    ensures Get(List(item), Put(List(item), v) + tail) == Some((v, tail))
    decreases List(item), 0
  {
    var body := PutMany(item, v.items);
    assert Put(List(item), v) + tail == Varint.Encode(|v.items|) + (body + tail);
    Varint.U64RoundTrip(|v.items|, body + tail);
    ManyRoundTrip(item, v.items, tail);
  }

  lemma {:induction false} PairRoundTrip(a: Shape, b: Shape, v: Value, tail: seq<byte>)
    requires Fits(Pair(a, b), v)
    ensures Get(Pair(a, b), Put(Pair(a, b), v) + tail) == Some((v, tail))
    decreases Pair(a, b), 0
  {
    assert Put(Pair(a, b), v) + tail == Put(a, v.fst) + (Put(b, v.snd) + tail);
    RoundTrip(a, v.fst, Put(b, v.snd) + tail);
    RoundTrip(b, v.snd, tail);
  }

  lemma {:induction false} EnumRoundTrip(s: Shape, v: Value, tail: seq<byte>)
    requires s.Enum? && Fits(s, v)
    ensures Get(s, Put(s, v) + tail) == Some((v, tail))
    decreases s, 0
  {
    var body := Put(s.variants[v.tag], v.payload);
    assert Put(s, v) + tail == Varint.Encode(v.tag) + (body + tail);
    Varint.U32RoundTrip(v.tag, body + tail);
    RoundTrip(s.variants[v.tag], v.payload, tail);
  }

  lemma {:induction false} ManyRoundTrip(item: Shape, vs: seq<Value>, tail: seq<byte>)
    requires AllFit(item, vs)
    ensures GetMany(item, |vs|, PutMany(item, vs) + tail) == Some((vs, tail))
    decreases item, |vs| + 2
  {
    if vs == [] {
      assert PutMany(item, vs) + tail == tail;
    } else {
      var rest := PutMany(item, vs[1..]) + tail;
      assert PutMany(item, vs) + tail == Put(item, vs[0]) + rest;
      RoundTrip(item, vs[0], rest);
      ManyRoundTrip(item, vs[1..], tail);
      assert vs == [vs[0]] + vs[1..];
    }
  }

  lemma AfterLengthExtends(n: nat, rest: seq<byte>, t: seq<byte>)
    requires AfterLength(Some((n, rest))).Some?
    ensures AfterLength(Some((n, rest + t))) ==
            Some((AfterLength(Some((n, rest))).value.0, AfterLength(Some((n, rest))).value.1 + t))
  {
    assert (rest + t)[..n] == rest[..n] && (rest + t)[n..] == rest[n..] + t;
  }

  lemma BlobExtends(bs: seq<byte>, t: seq<byte>)
    requires GetBlob(bs).Some?
    ensures GetBlob(bs + t) == Some((GetBlob(bs).value.0, GetBlob(bs).value.1 + t))
  {
    Varint.TakeExtends(bs, t, 10, 1);
    var (n, rest) := Varint.TakeU64(bs).value;
    AfterLengthExtends(n, rest, t);
  }

  lemma ScalarExtends(s: Shape, bs: seq<byte>, t: seq<byte>)
    requires Scalar(s) && Get(s, bs).Some?
    ensures Get(s, bs + t) == Some((Get(s, bs).value.0, Get(s, bs).value.1 + t))
  {
    match s
    case Unit =>
    case Bool => assert (bs + t)[1..] == bs[1..] + t;
    case U32 => Varint.TakeExtends(bs, t, 5, 15);
    case U64 => Varint.TakeExtends(bs, t, 10, 1);
    case Raw(n) => assert (bs + t)[..n] == bs[..n] && (bs + t)[n..] == bs[n..] + t;
    case Blob => BlobExtends(bs, t);
    case Str => BlobExtends(bs, t);
  }

  /** A decoder that has succeeded is not changed by more input. */
  lemma {:induction false} Extends(s: Shape, bs: seq<byte>, t: seq<byte>)
    requires Get(s, bs).Some?
    ensures Get(s, bs + t) == Some((Get(s, bs).value.0, Get(s, bs).value.1 + t))
    decreases s, 1
  {
    match s
    case Opt(inner) =>
      assert (bs + t)[1..] == bs[1..] + t;
      if bs[0] == 1 { Extends(inner, bs[1..], t); }
    case List(item) => ListExtends(item, bs, t);
    case Pair(a, b) =>
      Extends(a, bs, t);
      Extends(b, Get(a, bs).value.1, t);
    case Enum(variants) => EnumExtends(variants, bs, t);
    case _ => ScalarExtends(s, bs, t);
  }

  lemma {:induction false} ListExtends(item: Shape, bs: seq<byte>, t: seq<byte>)
    requires Get(List(item), bs).Some?
    ensures Get(List(item), bs + t) == Some((Get(List(item), bs).value.0, Get(List(item), bs).value.1 + t))
    decreases List(item), 0
  {
    Varint.TakeExtends(bs, t, 10, 1);
    var (n, rest) := Varint.TakeU64(bs).value;
    ManyExtends(item, n, rest, t);
  }

  lemma {:induction false} EnumExtends(variants: seq<Shape>, bs: seq<byte>, t: seq<byte>)
    requires Get(Enum(variants), bs).Some?
    ensures Get(Enum(variants), bs + t) == Some((Get(Enum(variants), bs).value.0, Get(Enum(variants), bs).value.1 + t))
    decreases Enum(variants), 0
  {
    Varint.TakeExtends(bs, t, 5, 15);
    var (tag, rest) := Varint.TakeU32(bs).value;
    Extends(variants[tag], rest, t);
  }

  lemma {:induction false} ManyExtends(item: Shape, n: nat, bs: seq<byte>, t: seq<byte>)
    requires GetMany(item, n, bs).Some?
    ensures GetMany(item, n, bs + t) == Some((GetMany(item, n, bs).value.0, GetMany(item, n, bs).value.1 + t))
    decreases item, n + 2
  {
    if n > 0 {
      Extends(item, bs, t);
      ManyExtends(item, n - 1, Get(item, bs).value.1, t);
    }
  }

  /** Every proper prefix of an encoding is rejected, for every shape and value. */
  lemma ProperPrefixRejected(s: Shape, v: Value, p: seq<byte>, t: seq<byte>)
    requires Fits(s, v) && Put(s, v) == p + t && t != []
    ensures Get(s, p) == None
  {
    RoundTrip(s, v, []);
    assert p + t + [] == p + t;
    if Get(s, p).Some? {
      Extends(s, p, t);
    }
  }

  /** Encodings of one shape are prefix-free: two values with one encoding starting the other are equal. */
  lemma PrefixFree(s: Shape, v: Value, w: Value, t: seq<byte>)
    requires Fits(s, v) && Fits(s, w) && Put(s, w) == Put(s, v) + t
    ensures v == w && t == []
  {
    RoundTrip(s, v, t);
    RoundTrip(s, w, []);
    assert Put(s, w) + [] == Put(s, w);
  }

  /** Decoding only ever yields values of the shape. */
  lemma {:induction false} GetFits(s: Shape, bs: seq<byte>)
    requires Get(s, bs).Some?
    ensures Fits(s, Get(s, bs).value.0)
    decreases s, 0
  {
    match s
    case Unit =>
    case Bool =>
    case U32 => TakeBound(bs, 5, 15);
    case U64 => TakeBound(bs, 10, 1);
    case Raw(n) =>
    case Blob =>
    case Str =>
    case Opt(inner) => if bs[0] == 1 { GetFits(inner, bs[1..]); }
    case List(item) =>
      TakeBound(bs, 10, 1);
      var (n, rest) := Varint.TakeU64(bs).value;
      ManyFit(item, n, rest);
    case Pair(a, b) =>
      GetFits(a, bs);
      GetFits(b, Get(a, bs).value.1);
    case Enum(variants) =>
      TakeBound(bs, 5, 15);
      var (tag, rest) := Varint.TakeU32(bs).value;
      GetFits(variants[tag], rest);
  }

  lemma {:induction false} ManyFit(item: Shape, n: nat, bs: seq<byte>)
    requires GetMany(item, n, bs).Some?
    ensures var vs := GetMany(item, n, bs).value.0;
            |vs| == n && AllFit(item, vs)
    decreases item, n + 1
  {
    if n > 0 {
      GetFits(item, bs);
      ManyFit(item, n - 1, Get(item, bs).value.1);
    }
  }

  lemma TakeBound(bs: seq<byte>, limit: nat, lastMax: nat)
    requires (limit, lastMax) == (10, 1) || (limit, lastMax) == (5, 15)
    requires Varint.Take(bs, limit, lastMax).Some?
    ensures Varint.Take(bs, limit, lastMax).value.0 < if limit == 10 then Varint.U64 else 0x1_0000_0000
  {
    var k := Varint.FirstEnd(bs, limit).last;
    Varint.GroupSumBound(bs[..k + 1], limit, lastMax);
    Varint.BoundValues();
  }
}
