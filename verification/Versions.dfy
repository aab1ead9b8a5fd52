/** Key order against version order: the registry compares whole keys byte by byte, and what that says about
    the versions inside them and about their precedence under section 11 of Semantic Versioning 2.0.0. */
module Versions {
  import opened Bytes
  import opened Errors
  import opened ErrorTexts
  import opened Methods
  import opened Registry

  const DOT: byte := 0x2E

  function KeyOf(n: MethodName, version: Text): Text { ToCanonical(n.(version := Some(version))) }

  // ---- versions as texts

  /** `a` is a proper prefix of `b` and `b` goes on with a byte that sorts before the slash. */
  predicate Overtakes(a: Text, b: Text) { a < b && b[|a|] < SLASH }

  lemma {:induction false} LessPrefix(a: Text, b: Text, s: Text, t: Text)
    requires Free(a, SLASH) && Free(b, SLASH) && a != b
    ensures Less(a + [SLASH] + s, b + [SLASH] + t) <==>
            if a < b then SLASH < b[|a|] else if b < a then a[|b|] < SLASH else Less(a, b)
    ensures a < b ==> Less(a, b)
  {
    if a == [] {
      assert a + [SLASH] + s == [SLASH] + s && (b + [SLASH] + t)[0] == b[0];
    } else if b == [] {
      assert b + [SLASH] + t == [SLASH] + t && (a + [SLASH] + s)[0] == a[0];
    } else {
      assert (a + [SLASH] + s)[1..] == a[1..] + [SLASH] + s && (b + [SLASH] + t)[1..] == b[1..] + [SLASH] + t;
      if a[0] == b[0] {
        assert a == [a[0]] + a[1..] && b == [b[0]] + b[1..];
        LessPrefix(a[1..], b[1..], s, t);
        assert a < b <==> a[1..] < b[1..];
        assert b < a <==> b[1..] < a[1..];
      }
    }
  }

  lemma KeyAfterPackage(n: MethodName, version: Text)
    ensures KeyOf(n, version) == (n.package + [AT]) + (version + [SLASH] + (n.interface + [SLASH] + n.method_))
  {
    Regrouped(n.package + [AT] + version, n.interface, n.method_);
  }

  /** Keys of one triple compare like their versions if and only if neither version is a proper prefix of the
      other that the other continues below the slash, as `1.0` and `1.0-rc` or `1` and `1.1` do. */
  lemma KeyOrderExact(n: MethodName, v: Text, w: Text)
    requires Free(v, SLASH) && Free(w, SLASH)
    ensures (Less(KeyOf(n, v), KeyOf(n, w)) <==> Less(v, w)) <==> !Overtakes(v, w) && !Overtakes(w, v)
  {
    var rest := n.interface + [SLASH] + n.method_;
    KeyAfterPackage(n, v);
    KeyAfterPackage(n, w);
    LessAfterCommon(n.package + [AT], v + [SLASH] + rest, w + [SLASH] + rest);
    LessTotal(v, w);
    if v != w {
      LessPrefix(v, w, rest, rest);
      LessPrefix(w, v, rest, rest);
    } else {
      LessTotal(KeyOf(n, v), KeyOf(n, w));
    }
  }

  // ---- numbers in decimal

  lemma SnocLess(a: Text, b: Text, x: byte, y: byte)
    requires |a| == |b|
    ensures Less(a + [x], b + [y]) <==> Less(a, b) || (a == b && x < y)
  {
    if a == b {
      LessAfterCommon(a, [x], [y]);
      LessTotal(a, b);
    } else {
      EqualLengthLess(a, b, [x], [y]);
    }
  }

  lemma {:induction false} EqualLengthLess(a: Text, b: Text, s: Text, t: Text)
    requires |a| == |b| && a != b
    ensures Less(a + s, b + t) <==> Less(a, b)
  {
    assert (a + s)[1..] == a[1..] + s && (b + t)[1..] == b[1..] + t;
    if a[0] == b[0] {
      assert a == [a[0]] + a[1..] && b == [b[0]] + b[1..];
      EqualLengthLess(a[1..], b[1..], s, t);
    }
  }

  /** Numbers with equally many digits compare like their texts. */
  lemma {:induction false} SameDigits(x: nat, y: nat)
    requires |Decimal(x)| == |Decimal(y)|
    ensures Less(Decimal(x), Decimal(y)) <==> x < y
    ensures Decimal(x) == Decimal(y) <==> x == y
  {
    DecimalDigits(x);
    DecimalDigits(y);
    if x >= 10 && y >= 10 {
      SameDigits(x / 10, y / 10);
      SnocLess(Decimal(x / 10), Decimal(y / 10), (x % 10 + 48) as byte, (y % 10 + 48) as byte);
      SnocEqual(Decimal(x / 10), Decimal(y / 10), (x % 10 + 48) as byte, (y % 10 + 48) as byte);
    }
  }

  lemma SnocEqual(a: Text, b: Text, x: byte, y: byte)
    ensures a + [x] == b + [y] <==> a == b && x == y
  {
    if a + [x] == b + [y] { assert (a + [x])[..|a|] == a && (b + [y])[..|b|] == b; }
  }

  /** The first `k` digits of a number, as a number. */
  function Leading(y: nat, k: nat): nat
    requires 1 <= k <= |Decimal(y)|
    decreases y
  {
    if k == |Decimal(y)| then y else Leading(y / 10, k)
  }

  lemma {:induction false} LeadingText(y: nat, k: nat)
    requires 1 <= k <= |Decimal(y)|
    ensures Decimal(y)[..k] == Decimal(Leading(y, k))
    decreases y
  {
    var d := Decimal(y);
    if k == |d| {
      assert d[..k] == d;
    } else {
      LeadingText(y / 10, k);
      assert d[..k] == Decimal(y / 10)[..k];
    }
  }

  lemma {:induction false} LessThanLonger(a: Text, b: Text)
    requires |a| <= |b|
    ensures Less(a, b) <==> Less(a, b[..|a|]) || (a == b[..|a|] && |a| < |b|)
  {
    if a != [] && a[0] == b[0] {
      assert b[..|a|][1..] == b[1..][..|a| - 1];
      LessThanLonger(a[1..], b[1..]);
      assert a == [a[0]] + a[1..] && b[..|a|] == [b[0]] + b[1..][..|a| - 1];
    }
  }

  lemma {:induction false} MoreDigits(x: nat, y: nat)
    requires x <= y
    ensures |Decimal(x)| <= |Decimal(y)|
  {
    if x >= 10 { MoreDigits(x / 10, y / 10); } else { DecimalDigits(y); }
  }

  /** A smaller number sorts before a larger one if and only if the larger one's leading digits, as many as
      the smaller one has, are not below it. */
  predicate SortsLikeNumber(x: nat, y: nat)
    requires x < y
  {
    MoreDigits(x, y);
    DecimalDigits(x);
    x <= Leading(y, |Decimal(x)|)
  }

  lemma DecimalOrder(x: nat, y: nat)
    requires x < y
    ensures Less(Decimal(x), Decimal(y)) <==> SortsLikeNumber(x, y)
  {
    MoreDigits(x, y);
    DecimalDigits(x);
    var k := |Decimal(x)|;
    LessThanLonger(Decimal(x), Decimal(y));
    LeadingText(y, k);
    assert |Decimal(Leading(y, k))| == k;
    SameDigits(x, Leading(y, k));
    if k == |Decimal(y)| { assert Leading(y, k) == y; }
  }

  // ---- versions of three numbers

  datatype Version = Version(major: nat, minor: nat, patch: nat)

  function VersionText(v: Version): Text {
    Decimal(v.major) + [DOT] + (Decimal(v.minor) + [DOT] + Decimal(v.patch))
  }

  lemma VersionIsDotted(v: Version)
    ensures VersionText(v) == Decimal(v.major) + Ascii(".") + (Decimal(v.minor) + Ascii(".") + Decimal(v.patch))
  {
    assert Ascii(".") == [DOT];
  }

  /** Precedence by section 11 of Semantic Versioning 2.0.0, for versions without pre-release. */
  predicate Precedes(u: Version, v: Version) {
    u.major < v.major
    || (u.major == v.major && (u.minor < v.minor || (u.minor == v.minor && u.patch < v.patch)))
  }

  /** The first component in which two versions differ, on both sides. */
  function FirstDifference(u: Version, v: Version): (nat, nat) {
    if u.major != v.major then (u.major, v.major)
    else if u.minor != v.minor then (u.minor, v.minor)
    else (u.patch, v.patch)
  }

  /** A number and what follows it: the following byte sorts below every digit. */
  lemma {:induction false} NumberLess(a: Text, b: Text, s: Text, t: Text)
    requires AllDigits(a) && AllDigits(b) && a != b
    requires s != [] && s[0] < 0x30 && t != [] && t[0] < 0x30
    ensures Less(a + s, b + t) <==> Less(a, b)
  {
    if a == [] {
      assert a + s == s && (b + t)[0] == b[0];
    } else if b == [] {
      assert b + t == t && (a + s)[0] == a[0];
    } else {
      assert (a + s)[1..] == a[1..] + s && (b + t)[1..] == b[1..] + t;
      if a[0] == b[0] {
        assert a == [a[0]] + a[1..] && b == [b[0]] + b[1..];
        NumberLess(a[1..], b[1..], s, t);
      }
    }
  }

  lemma {:induction false} DecimalInjective(x: nat, y: nat)
    ensures Decimal(x) == Decimal(y) ==> x == y
  {
    if Decimal(x) == Decimal(y) { SameDigits(x, y); }
  }

  /** Comparing two numbers and, if they are equal, what follows them. */
  lemma FieldLess(x: nat, y: nat, s: Text, t: Text)
    requires s != [] && s[0] < 0x30 && t != [] && t[0] < 0x30
    ensures Less(Decimal(x) + s, Decimal(y) + t) <==> if x == y then Less(s, t) else Less(Decimal(x), Decimal(y))
  {
    if x == y {
      LessAfterCommon(Decimal(x), s, t);
    } else {
      DecimalInjective(x, y);
      DecimalDigits(x);
      DecimalDigits(y);
      NumberLess(Decimal(x), Decimal(y), s, t);
    }
  }

  function AfterMinor(v: Version, rest: Text): Text { [DOT] + (Decimal(v.patch) + ([SLASH] + rest)) }

  function AfterMajor(v: Version, rest: Text): Text { [DOT] + (Decimal(v.minor) + AfterMinor(v, rest)) }

  lemma VersionFields(v: Version, rest: Text)
    ensures VersionText(v) + [SLASH] + rest == Decimal(v.major) + AfterMajor(v, rest)
  {
    var a, b, c := Decimal(v.major), Decimal(v.minor), Decimal(v.patch);
    assert a + [DOT] + (b + [DOT] + c) + [SLASH] + rest == a + ([DOT] + (b + ([DOT] + (c + ([SLASH] + rest)))));
  }

  lemma VersionLess(u: Version, v: Version, rest: Text)
    requires u != v
    ensures Less(VersionText(u) + [SLASH] + rest, VersionText(v) + [SLASH] + rest) <==>
            Less(Decimal(FirstDifference(u, v).0), Decimal(FirstDifference(u, v).1))
  {
    VersionFields(u, rest);
    VersionFields(v, rest);
    FieldLess(u.major, v.major, AfterMajor(u, rest), AfterMajor(v, rest));
    LessAfterCommon([DOT], Decimal(u.minor) + AfterMinor(u, rest), Decimal(v.minor) + AfterMinor(v, rest));
    FieldLess(u.minor, v.minor, AfterMinor(u, rest), AfterMinor(v, rest));
    LessAfterCommon([DOT], Decimal(u.patch) + ([SLASH] + rest), Decimal(v.patch) + ([SLASH] + rest));
    FieldLess(u.patch, v.patch, [SLASH] + rest, [SLASH] + rest);
  }

  lemma KeyLess(n: MethodName, u: Version, v: Version)
    requires u != v
    ensures Less(KeyOf(n, VersionText(u)), KeyOf(n, VersionText(v))) <==>
            Less(Decimal(FirstDifference(u, v).0), Decimal(FirstDifference(u, v).1))
  {
    var rest := n.interface + [SLASH] + n.method_;
    KeyAfterPackage(n, VersionText(u));
    KeyAfterPackage(n, VersionText(v));
    LessAfterCommon(n.package + [AT], VersionText(u) + [SLASH] + rest, VersionText(v) + [SLASH] + rest);
    VersionLess(u, v, rest);
  }

  /** The key of a version of lower precedence sorts first if and only if, in the first component that
      differs, the smaller number does not exceed the leading digits of the larger one. */
  lemma KeyOrderIsPrecedence(n: MethodName, u: Version, v: Version)
    requires Precedes(u, v)
    ensures Less(KeyOf(n, VersionText(u)), KeyOf(n, VersionText(v))) <==>
            SortsLikeNumber(FirstDifference(u, v).0, FirstDifference(u, v).1)
  {
    KeyLess(n, u, v);
    DecimalOrder(FirstDifference(u, v).0, FirstDifference(u, v).1);
  }

  lemma TenSortsBeforeNine(n: MethodName)
    ensures Precedes(Version(9, 0, 0), Version(10, 0, 0))
    ensures Less(KeyOf(n, VersionText(Version(10, 0, 0))), KeyOf(n, VersionText(Version(9, 0, 0))))
  {
    KeyLess(n, Version(10, 0, 0), Version(9, 0, 0));
    assert Decimal(10) == Decimal(1) + [0x30];
  }

  // ---- resolution

  predicate SingleDigit(v: Version) { v.major < 10 && v.minor < 10 && v.patch < 10 }

  predicate HasVersion(key: Text, v: Version) {
    Parse(key).Some? && Parse(key).value.version == Some(VersionText(v))
  }

  lemma KeyOfCandidate(handlers: HandlerMap, n: MethodName, key: Text, v: Version)
    requires Candidate(handlers, n, key) && HasVersion(key, v)
    ensures key == KeyOf(n, VersionText(v))
  {
    ParsePrints(key);
  }

  lemma SingleDigitOrder(n: MethodName, u: Version, v: Version)
    requires SingleDigit(u) && SingleDigit(v) && Precedes(u, v)
    ensures Less(KeyOf(n, VersionText(u)), KeyOf(n, VersionText(v)))
  {
    KeyLess(n, u, v);
    SameDigits(FirstDifference(u, v).0, FirstDifference(u, v).1);
  }

  /** Among versions of three single digits an unpinned name resolves to the one of highest precedence. */
  lemma ResolvesHighest(handlers: HandlerMap, order: seq<Text>, name: Text, key: Text, v: Version, other: Text,
                        u: Version)
    requires AllPinned(handlers) && SlashFreeMethods(handlers) && Enumerates(order, handlers)
    requires Parse(name).Some? && !Pinned(name)
    requires Resolve(handlers, order, name) == Some(key) && HasVersion(key, v) && SingleDigit(v)
    requires Candidate(handlers, Parse(name).value, other) && HasVersion(other, u) && SingleDigit(u)
    ensures u == v || Precedes(u, v)
  {
    var n := Parse(name).value;
    UnpinnedIsRight(handlers, order, name);
    KeyOfCandidate(handlers, n, key, v);
    KeyOfCandidate(handlers, n, other, u);
    if Precedes(v, u) {
      SingleDigitOrder(n, v, u);
      LessTotal(key, other);
    }
  }

  /** Different versions have different keys. */
  lemma KeysDiffer(n: MethodName, u: Version, v: Version)
    requires u != v
    ensures KeyOf(n, VersionText(u)) != KeyOf(n, VersionText(v))
  {
    var (x, y) := FirstDifference(u, v);
    KeyLess(n, u, v);
    KeyLess(n, v, u);
    LessTotal(Decimal(x), Decimal(y));
    DecimalInjective(x, y);
    LessTotal(KeyOf(n, VersionText(u)), KeyOf(n, VersionText(v)));
  }

  /** Every registered version of the triple is three numbers, and `v` is the one of highest precedence. */
  ghost predicate Highest(handlers: HandlerMap, n: MethodName, v: Version) {
    && Candidate(handlers, n, KeyOf(n, VersionText(v)))
    && forall k :: Candidate(handlers, n, k) ==>
         exists u :: k == KeyOf(n, VersionText(u)) && (u == v || Precedes(u, v))
  }

  /** The key of a lower registered version does not outrank that of `v`. */
  ghost predicate Behaves(handlers: HandlerMap, n: MethodName, u: Version, v: Version)
    requires Precedes(u, v)
  {
    Candidate(handlers, n, KeyOf(n, VersionText(u))) ==>
      SortsLikeNumber(FirstDifference(u, v).0, FirstDifference(u, v).1)
  }

  lemma HighestIfBehaving(handlers: HandlerMap, n: MethodName, v: Version, found: Option<Text>)
    requires ResolvesRight(handlers, n, found) && Highest(handlers, n, v)
    requires forall u :: Precedes(u, v) ==> Behaves(handlers, n, u, v)
    ensures found == Some(KeyOf(n, VersionText(v)))
  {
    var key := KeyOf(n, VersionText(v));
    assert Candidate(handlers, n, found.value);
    var u :| found.value == KeyOf(n, VersionText(u)) && (u == v || Precedes(u, v));
    if u != v {
      assert Behaves(handlers, n, u, v);
      KeyOrderIsPrecedence(n, u, v);
      LessTotal(found.value, key);
    }
  }

  /** An unpinned name resolves to the highest precedence if and only if, for every lower registered version, the
      smaller number does not exceed the leading digits of the larger one where they first differ. */
  lemma ResolvesHighestExactly(handlers: HandlerMap, order: seq<Text>, name: Text, v: Version)
    requires AllPinned(handlers) && SlashFreeMethods(handlers) && Enumerates(order, handlers)
    requires Parse(name).Some? && !Pinned(name) && Highest(handlers, Parse(name).value, v)
    ensures Resolve(handlers, order, name) == Some(KeyOf(Parse(name).value, VersionText(v))) <==>
            forall u :: Precedes(u, v) ==> Behaves(handlers, Parse(name).value, u, v)
  {
    var n, found := Parse(name).value, Resolve(handlers, order, name);
    var key := KeyOf(n, VersionText(v));
    UnpinnedIsRight(handlers, order, name);
    if found == Some(key) {
      forall u | Precedes(u, v) ensures Behaves(handlers, n, u, v) {
        KeysDiffer(n, u, v);
        KeyOrderIsPrecedence(n, u, v);
      }
    } else if forall u :: Precedes(u, v) ==> Behaves(handlers, n, u, v) {
      HighestIfBehaving(handlers, n, v, found);
    }
  }

  lemma VersionIsWellFormed(v: Version)
    ensures VersionText(v) != [] && Free(VersionText(v), SLASH)
  {
    DecimalDigits(v.major);
    DecimalDigits(v.minor);
    DecimalDigits(v.patch);
  }

  lemma VersionKey(n: MethodName, v: Version)
    requires WellFormed(n) && n.version.None?
    ensures Pinned(KeyOf(n, VersionText(v))) && SameTriple(Parse(KeyOf(n, VersionText(v))).value, n)
    ensures Matches(KeyOf(n, VersionText(v)), n)
  {
    VersionIsWellFormed(v);
    PrintParses(n.(version := Some(VersionText(v))));
    FilterExact(KeyOf(n, VersionText(v)), n);
  }

  /** With 9.0.0 and 10.0.0 registered, whatever the names and handlers, the unpinned name resolves to 9.0.0,
      against what the documentation calls the latest version. */
  lemma NineBeatsTen(n: MethodName, nine: Text, ten: Text, a: HandlerEntry, b: HandlerEntry, order: seq<Text>)
    requires WellFormed(n) && n.version.None?
    requires nine == KeyOf(n, VersionText(Version(9, 0, 0))) && ten == KeyOf(n, VersionText(Version(10, 0, 0)))
    requires Enumerates(order, TwoKeys(nine, a, ten, b))
    ensures AllPinned(TwoKeys(nine, a, ten, b)) && Precedes(Version(9, 0, 0), Version(10, 0, 0))
    ensures Resolve(TwoKeys(nine, a, ten, b), order, ToCanonical(n)) == Some(nine)
  {
    TenSortsBeforeNine(n);
    VersionKey(n, Version(9, 0, 0));
    VersionKey(n, Version(10, 0, 0));
    TwoKeysResolve(nine, a, ten, b, order, n);
  }
}
