/** Canonical method names `package[@version]/interface/method` (src/method.rs): parser and printer. */
module Methods {
  import opened Bytes

  const SLASH: byte := 0x2F
  const AT: byte := 0x40

  datatype MethodName = MethodName(package: Text, version: Option<Text>, interface: Text, method_: Text)

  predicate Free(s: Text, c: byte) { forall i :: 0 <= i < |s| ==> s[i] != c }

  /** Where a byte first occurs, or the length if it does not. */
  function Find(s: Text, c: byte): (n: nat)
    ensures n <= |s| && Free(s[..n], c)
    ensures n < |s| ==> s[n] == c
  {
    if s == [] || s[0] == c then 0
    else
      var n := Find(s[1..], c);
      assert s[..1 + n] == [s[0]] + s[1..][..n];
      1 + n
  }

  /** The text before and after the first occurrence of a byte. */
  function SplitAt(s: Text, c: byte): (r: Option<(Text, Text)>) {
    var n := Find(s, c);
    if n < |s| then Some((s[..n], s[n + 1..])) else None
  }

  function ParsePackage(part: Text, interface: Text, m: Text): Option<MethodName> {
    match SplitAt(part, AT)
    case None => Some(MethodName(part, None, interface, m))
    case Some((package, version)) =>
      if package == [] || version == [] then None else Some(MethodName(package, Some(version), interface, m))
  }

  /** Splits at the first two slashes; the rest is the method. */
  function Parse(s: Text): Option<MethodName> {
    match SplitAt(s, SLASH)
    case None => None
    case Some((part, rest)) =>
      match SplitAt(rest, SLASH)
      case None => None
      case Some((interface, m)) =>
        if part == [] || interface == [] || m == [] then None else ParsePackage(part, interface, m)
  }

  function PackagePart(n: MethodName): Text {
    match n.version case None => n.package case Some(v) => n.package + [AT] + v
  }

  /** The part after the package: `/interface/method`. */
  function Tail(interface: Text, m: Text): Text { [SLASH] + interface + [SLASH] + m }

  function ToCanonical(n: MethodName): Text { PackagePart(n) + Tail(n.interface, n.method_) }

  /** The names the grammar describes. */
  predicate WellFormed(n: MethodName) {
    && n.package != [] && Free(n.package, AT) && Free(n.package, SLASH)
    && (n.version.Some? ==> n.version.value != [] && Free(n.version.value, SLASH))
    && n.interface != [] && Free(n.interface, SLASH)
    && n.method_ != []
  }

  /** A canonical name is `package/interface/method`, or `package@version/interface/method` if it pins one. */
  lemma CanonicalText(n: MethodName)
    ensures ToCanonical(n) ==
            (match n.version case None => n.package case Some(v) => n.package + Ascii("@") + v)
            + (Ascii("/") + n.interface + Ascii("/") + n.method_)
  {
    assert Ascii("@") == [AT] && Ascii("/") == [SLASH];
  }

  lemma SplitJoins(s: Text, c: byte)
    ensures match SplitAt(s, c)
            case Some((a, b)) => s == a + [c] + b && Free(a, c)
            case None => Free(s, c)
  {
    var n := Find(s, c);
    if n == |s| { assert s[..n] == s; }
  }

  lemma {:induction false} FindIs(s: Text, c: byte, k: nat)
    requires k <= |s| && Free(s[..k], c) && (k < |s| ==> s[k] == c)
    ensures Find(s, c) == k
  {
    if k > 0 {
      assert s[0] == s[..k][0] && s[1..][..k - 1] == s[..k][1..];
      FindIs(s[1..], c, k - 1);
    }
  }

  lemma JoinSplits(a: Text, c: byte, b: Text)
    requires Free(a, c)
    ensures SplitAt(a + [c] + b, c) == Some((a, b))
  {
    var s := a + [c] + b;
    assert s[..|a|] == a && s[|a| + 1..] == b && s[|a|] == c;
    FindIs(s, c, |a|);
  }

  lemma FreeConcat(a: Text, b: Text, c: byte)
    ensures Free(a + b, c) <==> Free(a, c) && Free(b, c)
  {
    if Free(a + b, c) {
      assert forall i :: 0 <= i < |a| ==> a[i] == (a + b)[i];
      assert forall i :: 0 <= i < |b| ==> b[i] == (a + b)[|a| + i];
    }
  }

  lemma PackageParses(n: MethodName)
    requires WellFormed(n)
    ensures ParsePackage(PackagePart(n), n.interface, n.method_) == Some(n) && Free(PackagePart(n), SLASH)
  {
    match n.version
    case None =>
      assert n.package[..|n.package|] == n.package;
      FindIs(n.package, AT, |n.package|);
    case Some(v) =>
      JoinSplits(n.package, AT, v);
      FreeConcat(n.package + [AT], v, SLASH);
      FreeConcat(n.package, [AT], SLASH);
  }

  lemma PackagePrints(part: Text, interface: Text, m: Text)
    requires ParsePackage(part, interface, m).Some? && part != [] && Free(part, SLASH)
    ensures var n := ParsePackage(part, interface, m).value;
            PackagePart(n) == part && n.package != [] && Free(n.package, AT) && Free(n.package, SLASH)
            && (n.version.Some? ==> n.version.value != [] && Free(n.version.value, SLASH))
  {
    SplitJoins(part, AT);
    if SplitAt(part, AT).Some? {
      var (package, version) := SplitAt(part, AT).value;
      FreeConcat(package + [AT], version, SLASH);
      FreeConcat(package, [AT], SLASH);
    }
  }

  lemma Regrouped(part: Text, interface: Text, m: Text)
    ensures part + Tail(interface, m) == part + [SLASH] + (interface + [SLASH] + m)
  {
  }

  /** Any string that parses is a well-formed name and prints back to itself. */
  lemma ParsePrints(s: Text)
    requires Parse(s).Some?
    ensures ToCanonical(Parse(s).value) == s
    ensures WellFormed(Parse(s).value)
  {
    SplitJoins(s, SLASH);
    var (part, rest) := SplitAt(s, SLASH).value;
    SplitJoins(rest, SLASH);
    var (interface, m) := SplitAt(rest, SLASH).value;
    PackagePrints(part, interface, m);
    Regrouped(part, interface, m);
  }

  /** A name prints to a string that parses back to it if and only if it is well formed. */
  lemma PrintParses(n: MethodName)
    ensures Parse(ToCanonical(n)) == Some(n) <==> WellFormed(n)
  {
    if WellFormed(n) {
      PackageParses(n);
      Regrouped(PackagePart(n), n.interface, n.method_);
      JoinSplits(PackagePart(n), SLASH, n.interface + [SLASH] + n.method_);
      JoinSplits(n.interface, SLASH, n.method_);
    } else if Parse(ToCanonical(n)) == Some(n) {
      ParsePrints(ToCanonical(n));
    }
  }
}
