/** Unsigned LEB128 (section 7.6 of the DWARF 5 standard): the encoder shared by the wire module and
    postcard, the bounded group reader both libraries use, and the hand-written streaming reader. */
module Varint {
  import opened Bytes

  const U64: nat := 0x1_0000_0000_0000_0000

  /** Little-endian groups of seven bits, high bit set on all but the last. */
  function Encode(n: nat): (bs: seq<byte>) {
    if n < 128 then [n as byte] else [(n % 128 + 128) as byte] + Encode(n / 128)
  }

  /** The value of a group string: the sum of its seven-bit groups, unbounded. */
  function GroupSum(bs: seq<byte>): nat {
    if bs == [] then 0 else bs[0] as nat % 128 + 128 * GroupSum(bs[1..])
  }

  function Pow128(i: nat): (p: nat)
    ensures p > 0
  {
    if i == 0 then 1 else 128 * Pow128(i - 1)
  }

  /** Where the first group without a continuation bit is, looking at no more than `limit` groups. */
  datatype Scan = At(last: nat) | Short | TooLong

  function FirstEnd(bs: seq<byte>, limit: nat): (s: Scan)
    ensures s.At? ==> s.last < |bs| && s.last < limit && bs[s.last] < 128
    ensures s.At? ==> forall j :: 0 <= j < s.last ==> bs[j] >= 128
    ensures s.Short? ==> |bs| < limit && forall j :: 0 <= j < |bs| ==> bs[j] >= 128
    ensures s.TooLong? ==> |bs| >= limit && forall j :: 0 <= j < limit ==> bs[j] >= 128
  {
    if limit == 0 then TooLong
    else if bs == [] then Short
    else if bs[0] < 128 then At(0)
    else match FirstEnd(bs[1..], limit - 1)
      case At(k) => At(k + 1)
      case other => other
  }

  lemma FirstEndUnique(bs: seq<byte>, limit: nat, k: nat)
    requires k < |bs| && k < limit && bs[k] < 128
    requires forall j :: 0 <= j < k ==> bs[j] >= 128
    ensures FirstEnd(bs, limit) == At(k)
  {
    var s := FirstEnd(bs, limit);
  }

  /** More input never changes a scan that has decided. */
  lemma FirstEndExtends(bs: seq<byte>, t: seq<byte>, limit: nat)
    requires !FirstEnd(bs, limit).Short?
    ensures FirstEnd(bs + t, limit) == FirstEnd(bs, limit)
  {
    var s := FirstEnd(bs, limit);
    if s.At? {
      FirstEndUnique(bs + t, limit, s.last);
    } else {
      assert forall j :: 0 <= j < limit ==> (bs + t)[j] == bs[j];
    }
  }

  /** The strict reader: at most `limit` groups, the last of which may be at most `lastMax` when all
      are used. It is postcard's reader for a `u64` with (10, 1) and for a `u32` with (5, 15). */
  function Take(bs: seq<byte>, limit: nat, lastMax: nat): (r: Option<(nat, seq<byte>)>)
    ensures r.Some? ==> |r.value.1| < |bs|
  {
    match FirstEnd(bs, limit)
    case At(k) =>
      if k == limit - 1 && bs[k] as nat > lastMax then None else Some((GroupSum(bs[..k + 1]), bs[k + 1..]))
    case _ => None
  }

  function TakeU64(bs: seq<byte>): (r: Option<(nat, seq<byte>)>)
    ensures r.Some? ==> |r.value.1| < |bs|
  {
    Take(bs, 10, 1)
  }

  function TakeU32(bs: seq<byte>): (r: Option<(nat, seq<byte>)>)
    ensures r.Some? ==> |r.value.1| < |bs|
  {
    Take(bs, 5, 15)
  }

  lemma TakeExtends(bs: seq<byte>, t: seq<byte>, limit: nat, lastMax: nat)
    requires Take(bs, limit, lastMax).Some?
    ensures Take(bs + t, limit, lastMax) ==
            Some((Take(bs, limit, lastMax).value.0, Take(bs, limit, lastMax).value.1 + t))
  {
    FirstEndExtends(bs, t, limit);
    var k := FirstEnd(bs, limit).last;
    assert (bs + t)[..k + 1] == bs[..k + 1];
    assert (bs + t)[k + 1..] == bs[k + 1..] + t;
  }

  /** The first value that needs more than `k` groups, or a `k`-th group above `top`. */
  function Bound(k: nat, top: nat): nat
    requires k > 0
  {
    if k == 1 then top + 1 else 128 * Bound(k - 1, top)
  }

  lemma BoundValues()
    ensures Bound(10, 1) == U64
    ensures Bound(5, 15) == 0x1_0000_0000
  {
    assert Bound(3, 1) == 0x8000;
    assert Bound(5, 1) == 0x2000_0000;
    assert Bound(7, 1) == 0x800_0000_0000;
    assert Bound(9, 1) == 0x200_0000_0000_0000;
    assert Bound(3, 15) == 0x4_0000;
  }

  lemma {:induction false} EncodeShape(n: nat, k: nat, top: nat)
    requires k > 0 && top < 128 && n < Bound(k, top)
    ensures var e := Encode(n);
            && 1 <= |e| <= k
            && e[|e| - 1] < 128
            && (|e| == k ==> e[k - 1] as nat <= top)
            && (forall j :: 0 <= j < |e| - 1 ==> e[j] >= 128)
            && GroupSum(e) == n
  {
    var e := Encode(n);
    if n >= 128 {
      EncodeShape(n / 128, k - 1, top);
      var r := Encode(n / 128);
      assert e == [(n % 128 + 128) as byte] + r && e[1..] == r;
      forall j | 0 <= j < |e| - 1 ensures e[j] >= 128 { if j > 0 { assert e[j] == r[j - 1]; } }
    } else {
      assert e == [n as byte] && e[1..] == [];
    }
  }

  /** The converse of `EncodeShape`'s bound: groups within the limits carry a value below it. */
  lemma {:induction false} GroupSumBound(bs: seq<byte>, k: nat, top: nat)
    requires top < 128 && 1 <= |bs| <= k && bs[|bs| - 1] < 128
    requires |bs| == k ==> bs[k - 1] as nat <= top
    ensures GroupSum(bs) < Bound(k, top)
  {
    assert GroupSum(bs) == bs[0] as nat % 128 + 128 * GroupSum(bs[1..]);
    if |bs| == 1 {
      assert bs[1..] == [];
      BoundAbove128(k, top);
    } else {
      GroupSumBound(bs[1..], k - 1, top);
    }
  }

  lemma {:induction false} BoundAbove128(k: nat, top: nat)
    requires k > 0
    ensures k > 1 ==> Bound(k, top) >= 128
  {
    if k > 2 { BoundAbove128(k - 1, top); }
  }

  lemma Pow128Values()
    ensures Pow128(0) == 1
    ensures Pow128(9) == 0x8000_0000_0000_0000
    ensures U64 == 2 * Pow128(9)
  {
    assert Pow128(1) == 128;
    assert Pow128(2) == 0x4000;
    assert Pow128(3) == 0x20_0000;
    assert Pow128(4) == 0x1000_0000;
    assert Pow128(5) == 0x8_0000_0000;
    assert Pow128(6) == 0x400_0000_0000;
    assert Pow128(7) == 0x2_0000_0000_0000;
    assert Pow128(8) == 0x100_0000_0000_0000;
  }

  lemma EncodedIsTaken(n: nat, tail: seq<byte>, limit: nat, lastMax: nat)
    requires limit > 0 && lastMax < 128 && n < Bound(limit, lastMax)
    ensures Take(Encode(n) + tail, limit, lastMax) == Some((n, tail))
  {
    EncodeShape(n, limit, lastMax);
    var e := Encode(n);
    FirstEndUnique(e + tail, limit, |e| - 1);
    assert (e + tail)[..|e|] == e && (e + tail)[|e|..] == tail;
  }

  /** The encoder of a 64-bit value is inverted by the strict reader, whatever follows, and uses at
      most ten bytes. */
  /** The encoding group by group: the seven bits of weight 128^i, with the high bit on all groups but the last,
      and no more groups than the number needs. */
  lemma {:induction false} EncodeLayout(n: nat, i: nat)
    requires i < |Encode(n)|
    ensures Encode(n)[i] as nat % 128 == Group(n, i)
    ensures Encode(n)[i] >= 128 <==> i < |Encode(n)| - 1
    ensures |Encode(n)| > 1 ==> Encode(n)[|Encode(n)| - 1] != 0
  {
    if n >= 128 {
      if i > 0 { EncodeLayout(n / 128, i - 1); } else { LastGroup(n / 128); }
    }
  }

  /** The `i`-th seven bits of a number, from the least significant. */
  function Group(n: nat, i: nat): (g: nat)
    ensures g < 128
  {
    if i == 0 then n % 128 else Group(n / 128, i - 1)
  }

  lemma {:induction false} LastGroup(n: nat)
    ensures Encode(n) != []
    ensures n > 0 ==> Encode(n)[|Encode(n)| - 1] != 0
  {
    if n >= 128 { LastGroup(n / 128); }
  }

  /** The strict reader takes any terminated string of at most ten groups that fits a `u64`. */
  lemma TerminatedIsTaken(groups: seq<byte>, more: seq<byte>)
    requires 1 <= |groups| <= 10 && GroupSum(groups) < U64
    requires (forall j :: 0 <= j < |groups| - 1 ==> groups[j] >= 128) && groups[|groups| - 1] < 128
    ensures TakeU64(groups + more) == Some((GroupSum(groups), more))
  {
    var input, k := groups + more, |groups| - 1;
    FirstEndUnique(input, 10, k);
    FitsU64(groups);
    assert input[..k + 1] == groups && input[k + 1..] == more;
  }

  lemma U64RoundTrip(n: nat, tail: seq<byte>)
    requires n < U64
    ensures |Encode(n)| <= 10
    ensures TakeU64(Encode(n) + tail) == Some((n, tail))
  {
    BoundValues();
    EncodeShape(n, 10, 1);
    EncodedIsTaken(n, tail, 10, 1);
  }

  lemma U32RoundTrip(n: nat, tail: seq<byte>)
    requires n < 0x1_0000_0000
    ensures TakeU32(Encode(n) + tail) == Some((n, tail))
  {
    BoundValues();
    EncodedIsTaken(n, tail, 5, 15);
  }

  // ---- the hand-written streaming reader

  /** What the hand-written reader makes of the bytes at hand. */
  datatype HandScan = Need | Got(value: nat, rest: seq<byte>) | Overlong

  /** Its meaning: the group sum modulo 2^64 of the first terminated run of at most ten groups. */
  function HandTake(bs: seq<byte>): (r: HandScan)
    ensures r.Got? ==> |r.rest| < |bs|
  {
    match FirstEnd(bs, 10)
    case At(k) => Got(Wrap(GroupSum(bs[..k + 1])), bs[k + 1..])
    case Short => Need
    case TooLong => Overlong
  }

  lemma HandTakeExtends(bs: seq<byte>, t: seq<byte>)
    ensures HandTake(bs).Got? ==> HandTake(bs + t) == Got(HandTake(bs).value, HandTake(bs).rest + t)
    ensures HandTake(bs).Overlong? ==> HandTake(bs + t).Overlong?
  {
    if !HandTake(bs).Need? {
      FirstEndExtends(bs, t, 10);
      if HandTake(bs).Got? {
        var k := FirstEnd(bs, 10).last;
        assert (bs + t)[..k + 1] == bs[..k + 1];
        assert (bs + t)[k + 1..] == bs[k + 1..] + t;
      }
    }
  }

  /** Splitting a group sum at the end: the last group counts for a power of 128. */
  lemma {:induction false} GroupSumSnoc(bs: seq<byte>, b: byte)
    ensures GroupSum(bs + [b]) == GroupSum(bs) + b as nat % 128 * Pow128(|bs|)
    ensures GroupSum(bs) < Pow128(|bs|)
  {
    if bs == [] {
      assert bs + [b] == [b] && [b][1..] == [];
    } else {
      assert (bs + [b])[1..] == bs[1..] + [b];
      GroupSumSnoc(bs[1..], b);
      var x, p := b as nat % 128, Pow128(|bs| - 1);
      assert 128 * (x * p) == x * (128 * p);
    }
  }

  lemma {:induction false} Pow128Monotone(i: nat, j: nat)
    requires i <= j
    ensures Pow128(i) <= Pow128(j)
  {
    if i < j { Pow128Monotone(i, j - 1); }
  }

  /** `lower.checked_shl(7 * i)` on a `u64`: bits past the top are lost. */
  function Shl7(lower: nat, i: nat): nat { Wrap(lower * Pow128(i)) }

  function Wrap(n: nat): nat { n % U64 }

  lemma MulBound(x: nat, p: nat, q: nat)
    requires x < 128 && p <= q
    ensures x * p + p <= 128 * q
  {
    assert (x + 1) * p <= 128 * p;
  }

  lemma Shl7Low(x: nat, i: nat)
    requires x < 128 && i < 9
    ensures Shl7(x, i) == x * Pow128(i)
    ensures x * Pow128(i) + Pow128(i) <= Pow128(9)
  {
    Pow128Monotone(i, 8);
    MulBound(x, Pow128(i), Pow128(8));
    assert Pow128(9) == 128 * Pow128(8);
    assert Pow128(9) < U64 by { Pow128Values(); }
    ModTop(0, x * Pow128(i));
  }

  lemma Shl7Top(x: nat)
    requires x < 128
    ensures Shl7(x, 9) == x % 2 * Pow128(9)
    ensures x * Pow128(9) == x / 2 * U64 + x % 2 * Pow128(9)
  {
    Pow128Values();
    var h := Pow128(9);
    assert x == x / 2 * 2 + x % 2;
    assert x * h == x / 2 * U64 + x % 2 * h;
    ModTop(x / 2, x % 2 * h);
  }

  lemma HandArith(sum: nat, x: nat, i: nat)
    requires x < 128 && i < 10 && sum < Pow128(i)
    ensures sum < U64
    ensures sum + Shl7(x, i) < U64
    ensures sum + Shl7(x, i) == Wrap(sum + x * Pow128(i))
    ensures i < 9 ==> sum + x * Pow128(i) < U64
  {
    assert Pow128(9) < U64 && 2 * Pow128(9) == U64 by { Pow128Values(); }
    if i < 9 {
      Shl7Low(x, i);
      ModTop(0, sum + x * Pow128(i));
    } else {
      Shl7Top(x);
      var low := x % 2 * Pow128(9);
      assert low <= Pow128(9);
      ModTop(x / 2, sum + low);
    }
  }

  /** One turn of the reader's loop never overflows its sum, and keeps it the group sum modulo 2^64. */
  lemma HandStep(bs: seq<byte>, b: byte)
    requires |bs| < 10
    ensures GroupSum(bs) < U64
    ensures GroupSum(bs) + Shl7(b as nat % 128, |bs|) < U64
    ensures GroupSum(bs) + Shl7(b as nat % 128, |bs|) == Wrap(GroupSum(bs + [b]))
    ensures |bs| < 9 ==> GroupSum(bs + [b]) < U64
  {
    var x, sum, next := b as nat % 128, GroupSum(bs), GroupSum(bs + [b]);
    assert next == sum + x * Pow128(|bs|) && sum < Pow128(|bs|) by { GroupSumSnoc(bs, b); }
    HandArith(sum, x, |bs|);
  }

  lemma ModTop(q: nat, r: nat)
    requires r < U64
    ensures Wrap(q * U64 + r) == r
  {
  }

  /** Fewer than ten groups never overflow. */
  lemma ShortSum(bs: seq<byte>)
    requires |bs| < 10
    ensures Wrap(GroupSum(bs)) == GroupSum(bs)
  {
    HandStep(bs, 0);
    ModTop(0, GroupSum(bs));
  }

  /** Value bound of a terminated string: it fits a `u64` exactly when it has fewer than ten groups or
      its tenth group is 0 or 1. */
  lemma FitsU64(bs: seq<byte>)
    requires 1 <= |bs| <= 10
    ensures GroupSum(bs) < U64 <==> |bs| < 10 || bs[9] as nat % 128 <= 1
  {
    var init, b := bs[..|bs| - 1], bs[|bs| - 1];
    assert bs == init + [b];
    GroupSumSnoc(init, b);
    HandStep(init, b);
    Pow128Values();
    if |bs| == 10 {
      var x := b as nat % 128;
      if x >= 2 { assert x * Pow128(9) >= 2 * Pow128(9); } else { assert x * Pow128(9) <= Pow128(9); }
    }
  }

  /** The streaming reader agrees with the strict reader exactly on the strings whose value fits. */
  lemma HandAgreesWithStrict(bs: seq<byte>)
    requires HandTake(bs).Got?
    ensures var groups := bs[..FirstEnd(bs, 10).last + 1];
            && (GroupSum(groups) < U64 ==> TakeU64(bs) == Some((HandTake(bs).value, HandTake(bs).rest)))
            && (GroupSum(groups) >= U64 ==> TakeU64(bs) == None && HandTake(bs).value < GroupSum(groups))
  {
    var k := FirstEnd(bs, 10).last;
    FitsU64(bs[..k + 1]);
  }

  /** The reader inverts the encoder on every 64-bit value, in at most ten bytes. */
  lemma HandInvertsEncode(n: nat, tail: seq<byte>)
    requires n < U64
    ensures HandTake(Encode(n) + tail) == Got(n, tail)
    ensures |Encode(n)| <= 10
  {
    U64RoundTrip(n, tail);
    ModTop(0, n);
  }
}
