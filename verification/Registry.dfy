/** The versioned method registry (src/method.rs): a prefix and suffix filter with a lexicographic maximum
    that has to implement "the highest version under the same package, interface and method". */
module Registry {
  import opened Bytes
  import opened Methods

  datatype HandlerEntry = UnaryHandler(id: nat) | StreamingHandler(id: nat)

  datatype Panic = InvalidMethodName(name: Text) | VersionMissing(name: Text)

  type HandlerMap = map<Text, HandlerEntry>

  predicate Pinned(name: Text) { Parse(name).Some? && Parse(name).value.version.Some? }

  predicate AllPinned(handlers: HandlerMap) { forall k :: k in handlers ==> Pinned(k) }

  // ---- the byte-wise order of strings

  predicate Less(a: Text, b: Text) {
    b != [] && (a == [] || a[0] < b[0] || (a[0] == b[0] && Less(a[1..], b[1..])))
  }

  lemma {:induction false} LessTotal(a: Text, b: Text)
    ensures a == b || Less(a, b) || Less(b, a)
    ensures !(Less(a, b) && Less(b, a))
    ensures a == b ==> !Less(a, b)
  {
    if a != [] && b != [] {
      LessTotal(a[1..], b[1..]);
      assert a == [a[0]] + a[1..] && b == [b[0]] + b[1..];
    }
  }

  lemma {:induction false} LessTransitive(a: Text, b: Text, c: Text)
    requires Less(a, b) && Less(b, c)
    ensures Less(a, c)
  {
    if a != [] && a[0] == b[0] == c[0] { LessTransitive(a[1..], b[1..], c[1..]); }
  }

  lemma {:induction false} LessAfterCommon(p: Text, a: Text, b: Text)
    ensures Less(p + a, p + b) <==> Less(a, b)
  {
    if p == [] {
      assert p + a == a && p + b == b;
    } else {
      assert (p + a)[1..] == p[1..] + a && (p + b)[1..] == p[1..] + b;
      LessAfterCommon(p[1..], a, b);
    }
  }

  // ---- lookup

  predicate Matches(key: Text, n: MethodName) {
    StartsWith(key, n.package + [AT]) && EndsWith(key, Tail(n.interface, n.method_))
  }

  /** The greatest matching key of some enumeration of the keys. */
  function MaxMatch(order: seq<Text>, n: MethodName): Option<Text> {
    if order == [] then None
    else
      var rest := MaxMatch(order[1..], n);
      if Matches(order[0], n) && (rest.None? || Less(rest.value, order[0])) then Some(order[0]) else rest
  }

  /** A hash map enumerates its keys in any order. */
  ghost predicate Enumerates(order: seq<Text>, handlers: HandlerMap) { forall k :: k in order <==> k in handlers }

  /** The key an entry is found under. */
  function Resolve(handlers: HandlerMap, order: seq<Text>, name: Text): Option<Text> {
    if name in handlers then Some(name)
    else match Parse(name)
      case None => None
      case Some(n) => if n.version.Some? then None else MaxMatch(order, n)
  }

  /** A registration: the last one of a name wins, and one that does not pin a version changes nothing. */
  datatype Registration = Registration(name: Text, entry: HandlerEntry)

  function Insert(handlers: HandlerMap, r: Registration): HandlerMap {
    if Pinned(r.name) then handlers[r.name := r.entry] else handlers
  }

  /** The table after some registrations. */
  function TableAfter(regs: seq<Registration>): HandlerMap {
    if regs == [] then map[] else Insert(TableAfter(regs[..|regs| - 1]), regs[|regs| - 1])
  }

  class MethodRegistry {
    var handlers: HandlerMap

    constructor ()
      ensures handlers == map[] && AllPinned(handlers)
    {
      handlers := map[];
    }

    /** Panics unless the name is canonical and pins a version. */
    static method ValidateCanonical(name: Text) returns (r: Result<(), Panic>)
      ensures r.Ok? <==> Pinned(name)
      ensures r.Err? ==> r.error == if Parse(name).None? then InvalidMethodName(name) else VersionMissing(name)
    {
      var parsed := Parse(name);
      if parsed.None? {
        return Err(InvalidMethodName(name));
      }
      r := if parsed.value.version.Some? then Ok(()) else Err(VersionMissing(name));
    }

    /** The last registration of a name wins; a rejected one changes nothing. */
    method Register(name: Text, handler: nat) returns (r: Result<(), Panic>)
      modifies this
      ensures r.Ok? <==> Pinned(name)
      ensures handlers == Insert(old(handlers), Registration(name, UnaryHandler(handler)))
    {
      r := ValidateCanonical(name);
      if r.Ok? { handlers := handlers[name := UnaryHandler(handler)]; }
    }

    method RegisterStreaming(name: Text, handler: nat) returns (r: Result<(), Panic>)
      modifies this
      ensures r.Ok? <==> Pinned(name)
      ensures handlers == Insert(old(handlers), Registration(name, StreamingHandler(handler)))
    {
      r := ValidateCanonical(name);
      if r.Ok? { handlers := handlers[name := StreamingHandler(handler)]; }
    }
  }

  /** `lookup_entry`; `lookup` and `lookup_streaming` pick the kind of handler. */
  function EntryOf(handlers: HandlerMap, order: seq<Text>, name: Text): Option<HandlerEntry>
    requires Enumerates(order, handlers)
  {
    MaxMatchIsKey(order, name);
    match Resolve(handlers, order, name)
    case None => None
    case Some(key) => Some(handlers[key])
  }

  function UnaryOf(handlers: HandlerMap, order: seq<Text>, name: Text): Option<nat>
    requires Enumerates(order, handlers)
  {
    match EntryOf(handlers, order, name) case Some(UnaryHandler(id)) => Some(id) case _ => None
  }

  function StreamingOf(handlers: HandlerMap, order: seq<Text>, name: Text): Option<nat>
    requires Enumerates(order, handlers)
  {
    match EntryOf(handlers, order, name) case Some(StreamingHandler(id)) => Some(id) case _ => None
  }

  /** The chosen key is one of those enumerated. */
  lemma MaxMatchIsKey(order: seq<Text>, name: Text)
    ensures Parse(name).Some? && MaxMatch(order, Parse(name).value).Some? ==>
              MaxMatch(order, Parse(name).value).value in order
  {
    if Parse(name).Some? { MaxMatchGreatest(order, Parse(name).value); }
  }

  /** The filter and maximum pick a matching key that no other matching key exceeds, if there is one. */
  lemma {:induction false} MaxMatchGreatest(order: seq<Text>, n: MethodName)
    ensures MaxMatch(order, n).Some? ==> MaxMatch(order, n).value in order && Matches(MaxMatch(order, n).value, n)
    ensures forall k :: k in order && Matches(k, n) ==>
              MaxMatch(order, n).Some? && (k == MaxMatch(order, n).value || Less(k, MaxMatch(order, n).value))
  {
    if order != [] {
      MaxMatchGreatest(order[1..], n);
      var rest, top := MaxMatch(order[1..], n), MaxMatch(order, n);
      forall k | k in order && Matches(k, n) ensures top.Some? && (k == top.value || Less(k, top.value)) {
        if rest.Some? { LessTotal(rest.value, order[0]); }
        if k != order[0] {
          assert k in order[1..];
          if top != rest && k != rest.value { LessTransitive(k, rest.value, order[0]); }
        }
      }
    }
  }

  // ---- the filter

  /** The slashes of `h` cannot start a suffix that begins with a slash. */
  lemma SuffixSkips(h: Text, t: Text, sfx: Text)
    requires Free(h, SLASH) && sfx != [] && sfx[0] == SLASH
    ensures EndsWith(h + t, sfx) <==> EndsWith(t, sfx)
  {
    var s := h + t;
    if |sfx| <= |t| {
      assert s[|s| - |sfx|..] == t[|t| - |sfx|..];
    } else if |sfx| <= |s| {
      assert s[|s| - |sfx|..][0] == h[|s| - |sfx|];
    }
  }

  lemma SameTail(i: Text, m: Text, j: Text, k: Text)
    requires Free(i, SLASH) && Free(j, SLASH)
    ensures Tail(i, m) == Tail(j, k) <==> i == j && m == k
  {
    if Tail(i, m) == Tail(j, k) {
      assert Tail(i, m)[1..] == i + [SLASH] + m && Tail(j, k)[1..] == j + [SLASH] + k;
      JoinSplits(i, SLASH, m);
      JoinSplits(j, SLASH, k);
    }
  }

  lemma EndsCons(s: Text, t: Text, sfx: Text)
    requires s != [] && t == s[1..]
    ensures EndsWith(s, sfx) <==> sfx == s || EndsWith(t, sfx)
  {
    if |sfx| <= |t| {
      assert s[|s| - |sfx|..] == t[|t| - |sfx|..];
    }
  }

  lemma TailEnds(i: Text, m: Text, sfx: Text)
    requires Free(i, SLASH) && sfx != [] && sfx[0] == SLASH
    ensures EndsWith(Tail(i, m), sfx) <==> sfx == Tail(i, m) || EndsWith([SLASH] + m, sfx)
  {
    var after := i + ([SLASH] + m);
    assert Tail(i, m)[1..] == after;
    EndsCons(Tail(i, m), after, sfx);
    SuffixSkips(i, [SLASH] + m, sfx);
  }

  lemma PackagePrefix(p: Text, q: Text, rest: Text)
    requires Free(p, AT) && Free(q, AT)
    ensures StartsWith(q + [AT] + rest, p + [AT]) <==> p == q
  {
    var s := q + [AT] + rest;
    if p == q { assert s[..|p| + 1] == p + [AT]; }
    if StartsWith(s, p + [AT]) {
      assert s[|p|] == (p + [AT])[|p|] == AT;
      assert s[..|p|] == s[..|p| + 1][..|p|] == p;
      FindIs(s, AT, |p|);
      assert s[..|q|] == q && s[|q|] == AT;
      FindIs(s, AT, |q|);
    }
  }

  /** The request and the key agree on package, interface and method. */
  predicate SameTriple(k: MethodName, n: MethodName) {
    k.package == n.package && k.interface == n.interface && k.method_ == n.method_
  }

  /** A key whose method contains a slash can pass for another interface and method. */
  predicate Mistaken(k: MethodName, n: MethodName) {
    k.package == n.package && EndsWith([SLASH] + k.method_, Tail(n.interface, n.method_))
  }

  lemma KeyPackage(k: MethodName, p: Text)
    requires WellFormed(k) && k.version.Some? && Free(p, AT)
    ensures StartsWith(ToCanonical(k), p + [AT]) <==> p == k.package
  {
    var rest := k.version.value + Tail(k.interface, k.method_);
    assert ToCanonical(k) == k.package + [AT] + rest;
    PackagePrefix(p, k.package, rest);
  }

  lemma KeyEnds(k: MethodName, sfx: Text)
    requires WellFormed(k) && sfx != [] && sfx[0] == SLASH
    ensures EndsWith(ToCanonical(k), sfx) <==> sfx == Tail(k.interface, k.method_) || EndsWith([SLASH] + k.method_, sfx)
  {
    PackageParses(k);
    SuffixSkips(PackagePart(k), Tail(k.interface, k.method_), sfx);
    TailEnds(k.interface, k.method_, sfx);
  }

  /** Exactly which registered keys the filter lets through for an unpinned request. */
  lemma FilterExact(key: Text, n: MethodName)
    requires Pinned(key) && WellFormed(n) && n.version.None?
    ensures Matches(key, n) <==> SameTriple(Parse(key).value, n) || Mistaken(Parse(key).value, n)
  {
    ParsePrints(key);
    var k := Parse(key).value;
    KeyPackage(k, n.package);
    KeyEnds(k, Tail(n.interface, n.method_));
    SameTail(n.interface, n.method_, k.interface, k.method_);
  }

  lemma MistakenHasSlash(k: MethodName, n: MethodName)
    requires Mistaken(k, n)
    ensures !Free(k.method_, SLASH)
  {
    var s, sfx := [SLASH] + k.method_, Tail(n.interface, n.method_);
    var at := |s| - |sfx| + |n.interface| + 1;
    assert sfx[|n.interface| + 1] == SLASH;
    assert s[|s| - |sfx|..][|n.interface| + 1] == s[at] == k.method_[at - 1];
  }

  /** Without the hypothesis the filter is wrong: every key whose method has a slash inside - as `b/c` in
      `p@1/a/b/c` - also passes for interface `b` and method `c`. */
  lemma FilterMistake(k: MethodName, interface: Text, m: Text)
    requires WellFormed(k) && k.version.Some? && interface != [] && Free(interface, SLASH) && m != []
    requires k.method_ == interface + [SLASH] + m
    ensures var n := MethodName(k.package, None, interface, m);
            Pinned(ToCanonical(k)) && Parse(ToCanonical(k)) == Some(k) && WellFormed(n)
            && Matches(ToCanonical(k), n) && !SameTriple(k, n)
  {
    PrintParses(k);
    WholeTailEnds(k, interface, m);
    FilterExact(ToCanonical(k), MethodName(k.package, None, interface, m));
  }

  /** An unpinned name resolves to the matching key above all others. */
  lemma GreatestMatch(handlers: HandlerMap, order: seq<Text>, n: MethodName, key: Text)
    requires AllPinned(handlers) && Enumerates(order, handlers) && WellFormed(n) && n.version.None?
    requires key in handlers && Matches(key, n)
    requires forall k :: k in handlers && k != key ==> Less(k, key)
    ensures Resolve(handlers, order, ToCanonical(n)) == Some(key)
  {
    PrintParses(n);
    PinnedIsExact(handlers, order, ToCanonical(n));
    MaxMatchGreatest(order, n);
    var found := MaxMatch(order, n);
    LessTotal(key, found.value);
  }

  function TwoKeys(j: Text, a: HandlerEntry, k: Text, b: HandlerEntry): HandlerMap { map[j := a, k := b] }

  lemma TwoKeysResolve(j: Text, a: HandlerEntry, k: Text, b: HandlerEntry, order: seq<Text>, n: MethodName)
    requires Pinned(j) && Pinned(k) && Matches(j, n) && Less(k, j)
    requires Enumerates(order, TwoKeys(j, a, k, b)) && WellFormed(n) && n.version.None?
    ensures AllPinned(TwoKeys(j, a, k, b)) && Resolve(TwoKeys(j, a, k, b), order, ToCanonical(n)) == Some(j)
  {
    GreatestMatch(TwoKeys(j, a, k, b), order, n, j);
  }

  /** And then resolution is wrong: with one such key registered, the request for the other interface and method
      is answered with it, although nothing is registered for what was asked. */
  lemma MisreadResolves(k: MethodName, interface: Text, m: Text, entry: HandlerEntry, order: seq<Text>)
    requires WellFormed(k) && k.version.Some? && interface != [] && Free(interface, SLASH) && m != []
    requires k.method_ == interface + [SLASH] + m && Enumerates(order, map[ToCanonical(k) := entry])
    ensures var handlers: HandlerMap := map[ToCanonical(k) := entry];
            var n := MethodName(k.package, None, interface, m);
            && AllPinned(handlers) && Parse(ToCanonical(n)) == Some(n)
            && Resolve(handlers, order, ToCanonical(n)) == Some(ToCanonical(k))
            && (forall key :: !Candidate(handlers, n, key))
  {
    var handlers: HandlerMap := map[ToCanonical(k) := entry];
    var n := MethodName(k.package, None, interface, m);
    FilterMistake(k, interface, m);
    PrintParses(n);
    GreatestMatch(handlers, order, n, ToCanonical(k));
  }

  lemma WholeTailEnds(k: MethodName, interface: Text, m: Text)
    requires k.method_ == interface + [SLASH] + m
    ensures EndsWith([SLASH] + k.method_, Tail(interface, m)) && k.method_ != m
  {
    assert [SLASH] + k.method_ == Tail(interface, m);
    assert |k.method_| > |m|;
  }

  // ---- resolution

  predicate SlashFreeMethods(handlers: HandlerMap) {
    forall k :: k in handlers && Parse(k).Some? ==> Free(Parse(k).value.method_, SLASH)
  }

  /** The registered keys of a triple. */
  predicate Candidate(handlers: HandlerMap, n: MethodName, key: Text) {
    key in handlers && Parse(key).Some? && SameTriple(Parse(key).value, n)
  }

  /** Resolution finds the greatest key of the triple asked for, or nothing if the triple has none. */
  ghost predicate ResolvesRight(handlers: HandlerMap, n: MethodName, found: Option<Text>) {
    && (found.Some? ==> Candidate(handlers, n, found.value))
    && (forall k :: Candidate(handlers, n, k) ==> found.Some? && (k == found.value || Less(k, found.value)))
  }

  /** A pinned name resolves to exactly itself or, without any fallback, to nothing; a malformed one to nothing. */
  lemma PinnedIsExact(handlers: HandlerMap, order: seq<Text>, name: Text)
    requires AllPinned(handlers) && Enumerates(order, handlers)
    ensures Pinned(name) || Parse(name).None? ==>
              Resolve(handlers, order, name) == if name in handlers then Some(name) else None
    ensures Parse(name).None? ==> name !in handlers
    ensures Parse(name).Some? && !Pinned(name) ==>
              name !in handlers && Resolve(handlers, order, name) == MaxMatch(order, Parse(name).value)
  {
  }

  /** What unpinned resolution returns is a registered key that the filter lets through, and the greatest. */
  lemma UnpinnedGreatest(handlers: HandlerMap, order: seq<Text>, name: Text)
    requires AllPinned(handlers) && Enumerates(order, handlers) && Parse(name).Some? && !Pinned(name)
    ensures var n, found := Parse(name).value, Resolve(handlers, order, name);
            && (found.Some? ==> found.value in handlers && Matches(found.value, n))
            && (forall k :: k in handlers && Matches(k, n) ==>
                  found.Some? && (k == found.value || Less(k, found.value)))
  {
    PinnedIsExact(handlers, order, name);
    MaxMatchGreatest(order, Parse(name).value);
  }

  /** The key that a misread method would have to be to spoil a request. */
  ghost predicate Spoils(handlers: HandlerMap, n: MethodName, key: Text) {
    && key in handlers && Parse(key).Some? && Mistaken(Parse(key).value, n) && !SameTriple(Parse(key).value, n)
    && forall k :: Candidate(handlers, n, k) ==> Less(k, key)
  }

  /** Unpinned resolution returns the greatest key of the triple asked for if and only if no registered key
      of another triple, with a slash in its method, both passes for it and outranks all of its keys. */
  lemma UnpinnedExact(handlers: HandlerMap, order: seq<Text>, name: Text)
    requires AllPinned(handlers) && Enumerates(order, handlers) && Parse(name).Some? && !Pinned(name)
    ensures ResolvesRight(handlers, Parse(name).value, Resolve(handlers, order, name)) <==>
            forall key :: key in handlers ==> !Spoils(handlers, Parse(name).value, key)
  {
    var n, found := Parse(name).value, Resolve(handlers, order, name);
    ParsePrints(name);
    UnpinnedGreatest(handlers, order, name);
    forall k | k in handlers ensures Matches(k, n) <==> SameTriple(Parse(k).value, n) || Mistaken(Parse(k).value, n) {
      FilterExact(k, n);
    }
    if found.Some? && !Candidate(handlers, n, found.value) {
      forall k | Candidate(handlers, n, k) ensures Less(k, found.value) {
        assert Matches(k, n);
      }
      assert Spoils(handlers, n, found.value);
    }
    if found.Some? && Candidate(handlers, n, found.value) {
      forall key | key in handlers ensures !Spoils(handlers, n, key) { LessTotal(key, found.value); }
    }
    if found.None? {
      forall key | key in handlers ensures !Spoils(handlers, n, key) { assert !Matches(key, n); }
    }
  }

  /** With slash-free method segments unpinned resolution is right for every request. */
  lemma UnpinnedIsRight(handlers: HandlerMap, order: seq<Text>, name: Text)
    requires AllPinned(handlers) && SlashFreeMethods(handlers) && Enumerates(order, handlers)
    requires Parse(name).Some? && !Pinned(name)
    ensures ResolvesRight(handlers, Parse(name).value, Resolve(handlers, order, name))
  {
    UnpinnedExact(handlers, order, name);
    forall key | key in handlers ensures !Spoils(handlers, Parse(name).value, key) {
      if Spoils(handlers, Parse(name).value, key) { MistakenHasSlash(Parse(key).value, Parse(name).value); }
    }
  }

  /** The order in which the hash map enumerates its keys makes no difference. */
  lemma OrderIrrelevant(handlers: HandlerMap, order: seq<Text>, other: seq<Text>, name: Text)
    requires AllPinned(handlers) && Enumerates(order, handlers) && Enumerates(other, handlers)
    ensures Resolve(handlers, order, name) == Resolve(handlers, other, name)
  {
    PinnedIsExact(handlers, order, name);
    PinnedIsExact(handlers, other, name);
    if Parse(name).Some? && !Pinned(name) {
      UnpinnedGreatest(handlers, order, name);
      UnpinnedGreatest(handlers, other, name);
      var a, b := Resolve(handlers, order, name), Resolve(handlers, other, name);
      if a.Some? && b.Some? { LessTotal(a.value, b.value); }
    }
  }

  // ---- reachable registries

  /** The last registration of a name that was accepted. */
  function LastOf(regs: seq<Registration>, name: Text): Option<HandlerEntry> {
    if regs == [] then None
    else if regs[|regs| - 1].name == name && Pinned(name) then Some(regs[|regs| - 1].entry)
    else LastOf(regs[..|regs| - 1], name)
  }

  lemma {:induction false} TableHoldsLast(regs: seq<Registration>, name: Text)
    ensures LastOf(regs, name) == if name in TableAfter(regs) then Some(TableAfter(regs)[name]) else None
  {
    if regs != [] { TableHoldsLast(regs[..|regs| - 1], name); }
  }

  predicate Attempted(regs: seq<Registration>, name: Text) { exists i :: 0 <= i < |regs| && regs[i].name == name }

  lemma AttemptedSnoc(regs: seq<Registration>, name: Text)
    requires regs != []
    ensures Attempted(regs, name) <==> Attempted(regs[..|regs| - 1], name) || regs[|regs| - 1].name == name
  {
    var front := regs[..|regs| - 1];
    if Attempted(front, name) {
      var i :| 0 <= i < |front| && front[i].name == name;
      assert regs[i].name == name;
    }
    if Attempted(regs, name) && regs[|regs| - 1].name != name {
      var i :| 0 <= i < |regs| && regs[i].name == name;
      assert front[i].name == name;
    }
  }

  lemma {:induction false} TableHoldsPinned(regs: seq<Registration>, name: Text)
    ensures name in TableAfter(regs) <==> Pinned(name) && Attempted(regs, name)
  {
    if regs != [] {
      TableHoldsPinned(regs[..|regs| - 1], name);
      AttemptedSnoc(regs, name);
    }
  }

  /** After any registrations a name is present if and only if it pins a version and was registered, with
      the last entry registered for it. */
  lemma TableIsLast(regs: seq<Registration>, name: Text)
    ensures LastOf(regs, name) == if name in TableAfter(regs) then Some(TableAfter(regs)[name]) else None
    ensures name in TableAfter(regs) <==> Pinned(name) && Attempted(regs, name)
  {
    TableHoldsLast(regs, name);
    TableHoldsPinned(regs, name);
  }

  predicate SlashFreeRegistrations(regs: seq<Registration>) {
    forall i :: 0 <= i < |regs| && Pinned(regs[i].name) ==> Free(Parse(regs[i].name).value.method_, SLASH)
  }

  /** In every registry that registrations with slash-free methods can produce, whatever else was rejected and
      however the table is enumerated, an unpinned name resolves to the greatest registered key of its triple,
      a pinned one to itself or nothing, and what is found is what was registered last under that key. */
  lemma EveryRegistryResolves(regs: seq<Registration>, order: seq<Text>, name: Text)
    requires SlashFreeRegistrations(regs) && Enumerates(order, TableAfter(regs))
    ensures var handlers := TableAfter(regs);
            var found := Resolve(handlers, order, name);
            && (Parse(name).Some? && !Pinned(name) ==> ResolvesRight(handlers, Parse(name).value, found))
            && (Parse(name).None? || Pinned(name) ==> found == if LastOf(regs, name).Some? then Some(name) else None)
            && EntryOf(handlers, order, name) == (if found.None? then None else LastOf(regs, found.value))
  {
    var handlers := TableAfter(regs);
    forall k | k in handlers ensures Pinned(k) && Free(Parse(k).value.method_, SLASH) {
      TableIsLast(regs, k);
    }
    PinnedIsExact(handlers, order, name);
    TableIsLast(regs, name);
    MaxMatchIsKey(order, name);
    var found := Resolve(handlers, order, name);
    if found.Some? { TableIsLast(regs, found.value); }
    if Parse(name).Some? && !Pinned(name) { UnpinnedIsRight(handlers, order, name); }
  }

  /** The key a name stands for, by the registrations alone: of an unpinned name the greatest key registered for
      its triple, of a pinned one the name itself if it was registered. */
  ghost predicate StandsFor(regs: seq<Registration>, name: Text, found: Option<Text>) {
    match Parse(name)
    case None => found == None
    case Some(n) =>
      if n.version.Some? then found == if LastOf(regs, name).Some? then Some(name) else None
      else
        && (found.Some? ==> RegisteredFor(regs, n, found.value))
        && (forall k :: RegisteredFor(regs, n, k) ==> found.Some? && (k == found.value || Less(k, found.value)))
  }

  predicate RegisteredFor(regs: seq<Registration>, n: MethodName, key: Text) {
    LastOf(regs, key).Some? && Parse(key).Some? && SameTriple(Parse(key).value, n)
  }

  lemma RegisteredIsCandidate(regs: seq<Registration>, n: MethodName, key: Text)
    ensures RegisteredFor(regs, n, key) <==> Candidate(TableAfter(regs), n, key)
  {
    TableIsLast(regs, key);
  }

  /** Resolution finds the key that the name stands for. */
  lemma ResolvesWhatItStandsFor(regs: seq<Registration>, order: seq<Text>, name: Text, found: Option<Text>)
    requires SlashFreeRegistrations(regs) && Enumerates(order, TableAfter(regs)) && StandsFor(regs, name, found)
    ensures Resolve(TableAfter(regs), order, name) == found
  {
    EveryRegistryResolves(regs, order, name);
    TableIsLast(regs, name);
    var got := Resolve(TableAfter(regs), order, name);
    if Parse(name).Some? && !Pinned(name) {
      var n := Parse(name).value;
      if got.Some? { RegisteredIsCandidate(regs, n, got.value); }
      if found.Some? { RegisteredIsCandidate(regs, n, found.value); }
      if got.Some? && found.Some? { LessTotal(got.value, found.value); }
    }
  }

  /** A unary lookup yields exactly a handler registered last, as a unary one, under the key the name stands for;
      a streaming lookup exactly one registered last as a streaming one. */
  lemma LookupsByKind(regs: seq<Registration>, order: seq<Text>, name: Text, found: Option<Text>, handler: nat)
    requires SlashFreeRegistrations(regs) && Enumerates(order, TableAfter(regs)) && StandsFor(regs, name, found)
    ensures UnaryOf(TableAfter(regs), order, name) == Some(handler) <==>
            found.Some? && LastOf(regs, found.value) == Some(UnaryHandler(handler))
    ensures StreamingOf(TableAfter(regs), order, name) == Some(handler) <==>
            found.Some? && LastOf(regs, found.value) == Some(StreamingHandler(handler))
  {
    ResolvesWhatItStandsFor(regs, order, name, found);
    EveryRegistryResolves(regs, order, name);
  }
}
