/**
 * cacheKeyFlags (internal/compiler/cache_key.go): the bytes that stand for a command line in a
 * cache key. What does not change the object must not change them; what may, must.
 */
module CacheKey {
  import opened Bytes
  import opened Sorting
  import opened FlagTable
  import opened Argv

  const NUL: char := '\0'

  // ---- filterIrrelevantPassthrough ----

  predicate DepSwitch(a: string)
  {
    a == "-MD" || a == "-MMD" || a == "/showIncludes"
  }

  /** Is the filter about to swallow the next entry? */
  predicate Skips(p: seq<string>)
  {
    p != [] && !Skips(p[..|p| - 1]) && DepTaker(p[|p| - 1])
  }

  function Filter(p: seq<string>): (r: seq<string>)
  {
    if p == [] then []
    else
      var head, a := p[..|p| - 1], p[|p| - 1];
      if Skips(head) || DepSwitch(a) || DepTaker(a) then Filter(head) else Filter(head) + [a]
  }

  method FilterIrrelevant(passthrough: seq<string>) returns (out: seq<string>)
    ensures out == Filter(passthrough)
  {
    out := [];
    var skipNext := false;
    for i := 0 to |passthrough|
      invariant out == Filter(passthrough[..i]) && skipNext == Skips(passthrough[..i])
    {
      var a := passthrough[i];
      assert passthrough[..i + 1][..i] == passthrough[..i];
      if skipNext {
        skipNext := false;
        continue;
      }
      if a == "-MD" || a == "-MMD" {
        continue;
      }
      if a == "-MF" || a == "-MT" || a == "-MQ" {
        skipNext := true;
        continue;
      }
      if a == "/showIncludes" {
        continue;
      }
      out := out + [a];
    }
    TakeAll(passthrough);
  }

  // ---- What the filter keeps ----

  /** The arguments that only ask for dependency output. */
  predicate DepOnly(a: string)
  {
    a == "-MD" || a == "-MMD" || a == "/showIncludes" || a == "-MF" || a == "-MT" || a == "-MQ"
  }

  /** Entry `i` is the value of the -MF, -MT or -MQ before it. */
  predicate Swallowed(p: seq<string>, i: nat)
    requires i <= |p|
    decreases i
  {
    i > 0 && (p[i - 1] == "-MF" || p[i - 1] == "-MT" || p[i - 1] == "-MQ") && !Swallowed(p, i - 1)
  }

  predicate Dropped(p: seq<string>, i: nat)
    requires i < |p|
  {
    DepOnly(p[i]) || Swallowed(p, i)
  }

  lemma {:induction false} SkipsIs(p: seq<string>, i: nat)
    requires i <= |p|
    ensures Skips(p[..i]) <==> Swallowed(p, i)
    decreases i
  {
    if i > 0 {
      assert p[..i][..i - 1] == p[..i - 1];
      SkipsIs(p, i - 1);
    }
  }

  /** The filter keeps, in order, exactly the entries that are neither a dependency flag nor the value of one. */
  lemma {:induction false} FilterKeeps(p: seq<string>) returns (places: seq<nat>)
    ensures Picks(p, places, Filter(p))
    ensures forall i: nat | i < |p| :: i in places <==> !Dropped(p, i)
  {
    places := FilterUpTo(p, |p|);
    TakeAll(p);
  }

  lemma {:induction false} FilterUpTo(p: seq<string>, n: nat) returns (places: seq<nat>)
    requires n <= |p|
    ensures Picks(p, places, Filter(p[..n])) && forall j | 0 <= j < |places| :: places[j] < n
    ensures forall i: nat | i < n :: i in places <==> !Dropped(p, i)
    decreases n
  {
    if n == 0 {
      places := [];
    } else {
      places := FilterUpTo(p, n - 1);
      assert p[..n][..n - 1] == p[..n - 1];
      SkipsIs(p, n - 1);
      if !Dropped(p, n - 1) {
        places := places + [n - 1];
      }
    }
  }

  /** So without such flags it keeps everything. */
  lemma {:induction false} FilterSame(p: seq<string>)
    requires forall i | 0 <= i < |p| :: !DepOnly(p[i])
    ensures Filter(p) == p && !Skips(p)
    decreases |p|
  {
    if p != [] {
      var n := |p| - 1;
      FilterSame(p[..n]);
      assert p == p[..n] + [p[n]];
    }
  }

  // ---- The encoding ----

  function Items(items: seq<string>): (r: string)
  {
    if items == [] then [] else items[0] + [NUL] + Items(items[1..])
  }

  function ListOf(tag: string, items: seq<string>): (r: string)
  {
    tag + [NUL] + Items(items) + [NUL]
  }

  function Pair(tag: string, value: string): (r: string)
  {
    tag + "=" + value + [NUL]
  }

  function ModeDigit(m: Mode): (c: char)
  {
    match m
    case UnknownMode => '0'
    case CompileMode => '1'
    case PreprocessMode => '2'
    case AssembleMode => '3'
    case LinkMode => '4'
    case DepOnlyMode => '5'
  }

  /** A string's characters as numbers, the order slices.Sort compares them in. */
  function Codes(s: string): (r: seq<int>)
    ensures |r| == |s| && forall i | 0 <= i < |s| :: r[i] == s[i] as int
  {
    seq(|s|, i requires 0 <= i < |s| => s[i] as int)
  }

  const CodeOf: string -> seq<int> := (s: string) => Codes(s)

  lemma {:induction false} CodesInjective(a: string, b: string)
    requires Codes(a) == Codes(b)
    ensures a == b
  {
    forall i | 0 <= i < |a|
      ensures a[i] == b[i]
    {
      assert Codes(a)[i] == Codes(b)[i];
    }
  }

  ghost predicate KeysInOrder(m: map<string, string>, ks: seq<string>)
  {
    StrictlySorted(ks, CodeOf) && forall k :: k in ks <==> k in m
  }

  /** Only one order is possible, whatever order the map gave its keys in. */
  lemma {:induction false} OneOrder(m: map<string, string>, a: seq<string>, b: seq<string>)
    requires KeysInOrder(m, a) && KeysInOrder(m, b)
    ensures a == b
  {
    StrictUnique(a, b, CodeOf);
  }

  function Entries(m: map<string, string>, ks: seq<string>): (r: seq<string>)
    requires forall k | k in ks :: k in m
    ensures |r| == |ks|
  {
    seq(|ks|, i requires 0 <= i < |ks| => ks[i] + "=" + m[ks[i]])
  }

  /** The key of a command line, its macro names given in order. */
  function KeyWith(inv: Inv, ks: seq<string>): (r: string)
    requires forall k | k in ks :: k in inv.defines
  {
    ListOf("I", inv.includes) + (ListOf("isystem", inv.systemIncludes) + (ListOf("U", inv.undefines)
      + (ListOf("D", Entries(inv.defines, ks)) + Scalars(inv))))
  }

  function Scalars(inv: Inv): (r: string)
  {
    Pair("std", inv.std) + (Pair("opt", inv.optim) + (Pair("dbg", inv.debug) + (Pair("lang", inv.language)
      + (Pair("mode", [ModeDigit(inv.mode)]) + Tail(inv)))))
  }

  function Tail(inv: Inv): (r: string)
  {
    ListOf("W", inv.warnings) + (ListOf("f", inv.features) + (ListOf("m", inv.machine)
      + (ListOf("pass", Filter(inv.passthrough)) + ListOf("unk", inv.unknown))))
  }

  ghost predicate IsKey(inv: Inv, r: string)
  {
    exists ks :: KeysInOrder(inv.defines, ks) && r == KeyWith(inv, ks)
  }

  // ---- The buffer ----

  method WriteList(b: string, tag: string, items: seq<string>) returns (r: string)
    ensures r == b + ListOf(tag, items)
  {
    r := b + tag;
    r := r + [NUL];
    ghost var head := r;
    for i := 0 to |items|
      invariant r + Items(items[i..]) == head + Items(items)
    {
      assert items[i..][1..] == items[i + 1..];
      Assoc(r, items[i] + [NUL], Items(items[i + 1..]));
      Assoc(r, items[i], [NUL]);
      r := r + items[i];
      r := r + [NUL];
    }
    Nil(r);
    Assoc(b, tag, [NUL]);
    Assoc(b, tag + [NUL], Items(items));
    Assoc(b, tag + [NUL] + Items(items), [NUL]);
    r := r + [NUL];
  }

  method WriteKV(b: string, tag: string, value: string) returns (r: string)
    ensures r == b + Pair(tag, value)
  {
    Assoc(b, tag + "=" + value, [NUL]);
    Assoc(b, tag + "=", value);
    Assoc(b, tag, "=");
    r := b + tag + "=" + value + [NUL];
  }

  /** The keys of the map in whatever order it gives them, then sorted. */
  method SortedKeys(m: map<string, string>) returns (ks: seq<string>)
    ensures KeysInOrder(m, ks)
  {
    var found: seq<string> := [];
    var rest := m.Keys;
    while rest != {}
      invariant rest <= m.Keys
      invariant forall k :: k in found <==> k in m && k !in rest
      invariant forall i, j | 0 <= i < j < |found| :: found[i] != found[j]
      decreases |rest|
    {
      var k :| k in rest;
      found := found + [k];
      rest := rest - {k};
    }
    ks := Sort(found, CodeOf);
    SortSorts(found, CodeOf);
    InMultiset(found, ks);
    DistinctSorted(found, ks);
  }

  lemma {:induction false} DistinctSorted(found: seq<string>, ks: seq<string>)
    requires multiset(found) == multiset(ks) && Sorted(ks, CodeOf)
    requires forall i, j | 0 <= i < j < |found| :: found[i] != found[j]
    ensures StrictlySorted(ks, CodeOf)
  {
    DistinctKept(found, ks);
    forall i, j | 0 <= i < j < |ks|
      ensures CodeOf(ks[i]) != CodeOf(ks[j])
    {
      if CodeOf(ks[i]) == CodeOf(ks[j]) {
        CodesInjective(ks[i], ks[j]);
      }
    }
    SortedDistinctIsStrict(ks, CodeOf);
  }

  method CacheKeyFlags(inv: Inv) returns (b: string)
    ensures IsKey(inv, b)
  {
    b := WriteList("", "I", inv.includes);
    b := WriteList(b, "isystem", inv.systemIncludes);
    b := WriteList(b, "U", inv.undefines);
    var ks := SortedKeys(inv.defines);
    b := WriteList(b, "D", Entries(inv.defines, ks));
    ghost var lists := b;
    b := WriteKV(b, "std", inv.std);
    b := WriteKV(b, "opt", inv.optim);
    b := WriteKV(b, "dbg", inv.debug);
    b := WriteKV(b, "lang", inv.language);
    b := WriteKV(b, "mode", [ModeDigit(inv.mode)]);
    ghost var scalars := b;
    b := WriteList(b, "W", inv.warnings);
    b := WriteList(b, "f", inv.features);
    b := WriteList(b, "m", inv.machine);
    var pass := FilterIrrelevant(inv.passthrough);
    b := WriteList(b, "pass", pass);
    b := WriteList(b, "unk", inv.unknown);
    TailJoins(inv, scalars);
    ScalarsJoin(inv, lists);
    ListsJoin(inv, ks);
  }

  lemma {:induction false} TailJoins(inv: Inv, b: string)
    ensures b + ListOf("W", inv.warnings) + ListOf("f", inv.features) + ListOf("m", inv.machine)
            + ListOf("pass", Filter(inv.passthrough)) + ListOf("unk", inv.unknown) == b + Tail(inv)
  {
    Join5(b, ListOf("W", inv.warnings), ListOf("f", inv.features), ListOf("m", inv.machine),
          ListOf("pass", Filter(inv.passthrough)), ListOf("unk", inv.unknown));
  }

  lemma {:induction false} ScalarsJoin(inv: Inv, b: string)
    ensures b + Pair("std", inv.std) + Pair("opt", inv.optim) + Pair("dbg", inv.debug) + Pair("lang", inv.language)
            + Pair("mode", [ModeDigit(inv.mode)]) + Tail(inv) == b + Scalars(inv)
  {
    Join5(b, Pair("std", inv.std), Pair("opt", inv.optim), Pair("dbg", inv.debug), Pair("lang", inv.language),
          Pair("mode", [ModeDigit(inv.mode)]) + Tail(inv));
    Assoc(b + Pair("std", inv.std) + Pair("opt", inv.optim) + Pair("dbg", inv.debug) + Pair("lang", inv.language),
          Pair("mode", [ModeDigit(inv.mode)]), Tail(inv));
  }

  lemma {:induction false} ListsJoin(inv: Inv, ks: seq<string>)
    requires forall k | k in ks :: k in inv.defines
    ensures [] + ListOf("I", inv.includes) + ListOf("isystem", inv.systemIncludes) + ListOf("U", inv.undefines)
            + ListOf("D", Entries(inv.defines, ks)) + Scalars(inv) == KeyWith(inv, ks)
  {
    Join5([], ListOf("I", inv.includes), ListOf("isystem", inv.systemIncludes), ListOf("U", inv.undefines),
          ListOf("D", Entries(inv.defines, ks)), Scalars(inv));
    Nil(KeyWith(inv, ks));
  }

  lemma {:induction false} Join5(b: string, p: string, q: string, r: string, s: string, t: string)
    ensures b + p + q + r + s + t == b + (p + (q + (r + (s + t))))
  {
    Assoc(b + p + q + r, s, t);
    Assoc(b + p + q, r, s + t);
    Assoc(b + p, q, r + (s + t));
    Assoc(b, p, q + (r + (s + t)));
  }

  // ---- Nothing is lost ----

  predicate Solid(items: seq<string>)
  {
    forall i | 0 <= i < |items| :: items[i] != "" && NUL !in items[i]
  }

  /** No NUL anywhere, no empty list entry, no '=' in a macro name. */
  predicate Clean(inv: Inv)
  {
    && Solid(inv.includes) && Solid(inv.systemIncludes) && Solid(inv.undefines) && Solid(inv.warnings)
        && Solid(inv.features)
    && Solid(inv.machine) && Solid(inv.passthrough) && Solid(inv.unknown)
    && NUL !in inv.std && NUL !in inv.optim && NUL !in inv.debug && NUL !in inv.language
    && (forall k | k in inv.defines :: NUL !in k && '=' !in k && NUL !in inv.defines[k])
  }

  lemma {:induction false} FieldCancel(x: string, y: string, r: string, s: string, c: char)
    requires c !in x && c !in y && x + [c] + r == y + [c] + s
    ensures x == y && r == s
    decreases |x|
  {
    FieldFront(x, c, r);
    FieldFront(y, c, s);
    if x != [] && y != [] {
      FieldCancel(x[1..], y[1..], r, s, c);
      HeadTail(x);
      HeadTail(y);
    }
  }

  /** A field starts with its own first character, or is over. */
  lemma {:induction false} FieldFront(x: string, c: char, r: string)
    requires c !in x
    ensures
      var a := x + [c] + r;
      if x == [] then a[0] == c && a[1..] == r else a[0] == x[0] && a[0] != c && a[1..] == x[1..] + [c] + r
  {
    assert x != [] ==> x[0] in x;
  }

  lemma {:induction false} ItemsCancel(a: seq<string>, b: seq<string>, r: string, s: string)
    requires Solid(a) && Solid(b) && Items(a) + [NUL] + r == Items(b) + [NUL] + s
    ensures a == b && r == s
    decreases |a|
  {
    ItemsFront(a, r);
    ItemsFront(b, s);
    if a != [] && b != [] {
      FieldCancel(a[0], b[0], Items(a[1..]) + [NUL] + r, Items(b[1..]) + [NUL] + s, NUL);
      ItemsCancel(a[1..], b[1..], r, s);
      HeadTail(a);
      HeadTail(b);
    }
  }

  /** A non-empty list starts with its first entry, so with something other than NUL; an empty one with NUL. */
  lemma {:induction false} ItemsFront(a: seq<string>, r: string)
    requires Solid(a)
    ensures
      var all := Items(a) + [NUL] + r;
      if a == [] then all[0] == NUL && all[1..] == r
      else all == a[0] + [NUL] + (Items(a[1..]) + [NUL] + r) && all[0] != NUL && NUL !in a[0]
  {
    if a != [] {
      Assoc(a[0] + [NUL], Items(a[1..]), [NUL]);
      Assoc(a[0] + [NUL], Items(a[1..]) + [NUL], r);
      assert a[0][0] in a[0];
      assert (Items(a) + [NUL] + r)[0] == a[0][0];
    }
  }

  lemma {:induction false} ListCancel(tag: string, a: seq<string>, b: seq<string>, r: string, s: string)
    requires Solid(a) && Solid(b) && ListOf(tag, a) + r == ListOf(tag, b) + s
    ensures a == b && r == s
  {
    var t := tag + [NUL];
    Behind(t, Items(a), [NUL], r);
    Behind(t, Items(b), [NUL], s);
    ItemsCancel(a, b, r, s);
  }

  lemma {:induction false} Behind(t: string, x: string, y: string, r: string)
    ensures (t + x + y + r)[|t|..] == x + y + r
  {
  }

  lemma {:induction false} PairCancel(tag: string, v: string, w: string, r: string, s: string)
    requires NUL !in v && NUL !in w && Pair(tag, v) + r == Pair(tag, w) + s
    ensures v == w && r == s
  {
    var t := tag + "=";
    Behind(t, v, [NUL], r);
    Behind(t, w, [NUL], s);
    FieldCancel(v, w, r, s, NUL);
  }

  lemma {:induction false} FilterSolid(p: seq<string>)
    requires Solid(p)
    ensures Solid(Filter(p))
    decreases |p|
  {
    if p != [] {
      FilterSolid(p[..|p| - 1]);
    }
  }

  lemma {:induction false} EntriesSolid(inv: Inv, ks: seq<string>)
    requires Clean(inv) && forall k | k in ks :: k in inv.defines
    ensures Solid(Entries(inv.defines, ks))
  {
    forall i | 0 <= i < |ks|
      ensures Entries(inv.defines, ks)[i] != "" && NUL !in Entries(inv.defines, ks)[i]
    {
      assert ks[i] in ks;
      assert "=" == ['='] && NUL != '=';
    }
  }

  lemma {:induction false} EntriesEqual(a: Inv, b: Inv, ks: seq<string>, ls: seq<string>)
    requires Clean(a) && Clean(b) && KeysInOrder(a.defines, ks) && KeysInOrder(b.defines, ls)
    requires Entries(a.defines, ks) == Entries(b.defines, ls)
    ensures a.defines == b.defines
  {
    assert |ks| == |ls|;
    forall i | 0 <= i < |ks|
      ensures ks[i] == ls[i] && a.defines[ks[i]] == b.defines[ls[i]]
    {
      assert ks[i] in ks && ls[i] in ls;
      assert Entries(a.defines, ks)[i] == Entries(b.defines, ls)[i];
      assert "=" == ['='];
      FieldCancel(ks[i], ls[i], a.defines[ks[i]], b.defines[ls[i]], '=');
    }
    assert ks == ls;
    forall k
      ensures k in a.defines <==> k in b.defines
    {
      assert k in ks <==> k in ls;
    }
    forall k | k in a.defines
      ensures a.defines[k] == b.defines[k]
    {
      assert k in ks;
    }
  }

  /** What the key distinguishes. */
  predicate SameKeyed(a: Inv, b: Inv)
  {
    && a.includes == b.includes && a.systemIncludes == b.systemIncludes && a.undefines == b.undefines
        && a.defines == b.defines
    && a.std == b.std && a.optim == b.optim && a.debug == b.debug && a.language == b.language && a.mode == b.mode
    && a.warnings == b.warnings && a.features == b.features && a.machine == b.machine
    && Filter(a.passthrough) == Filter(b.passthrough) && a.unknown == b.unknown
  }

  lemma {:induction false} TailInjective(a: Inv, b: Inv)
    requires Clean(a) && Clean(b) && Tail(a) == Tail(b)
    ensures a.warnings == b.warnings && a.features == b.features && a.machine == b.machine
    ensures Filter(a.passthrough) == Filter(b.passthrough) && a.unknown == b.unknown
  {
    FilterSolid(a.passthrough);
    FilterSolid(b.passthrough);
    var u, v := ListOf("unk", a.unknown), ListOf("unk", b.unknown);
    var p, q := ListOf("pass", Filter(a.passthrough)), ListOf("pass", Filter(b.passthrough));
    var m, n := ListOf("m", a.machine), ListOf("m", b.machine);
    var f, g := ListOf("f", a.features), ListOf("f", b.features);
    ListCancel("W", a.warnings, b.warnings, f + (m + (p + u)), g + (n + (q + v)));
    ListCancel("f", a.features, b.features, m + (p + u), n + (q + v));
    ListCancel("m", a.machine, b.machine, p + u, q + v);
    ListCancel("pass", Filter(a.passthrough), Filter(b.passthrough), u, v);
    Nil(u);
    Nil(v);
    ListCancel("unk", a.unknown, b.unknown, [], []);
  }

  lemma {:induction false} ScalarsInjective(a: Inv, b: Inv)
    requires Clean(a) && Clean(b) && Scalars(a) == Scalars(b)
    ensures a.std == b.std && a.optim == b.optim && a.debug == b.debug && a.language == b.language && a.mode == b.mode
    ensures Tail(a) == Tail(b)
  {
    var m, n := Pair("mode", [ModeDigit(a.mode)]) + Tail(a), Pair("mode", [ModeDigit(b.mode)]) + Tail(b);
    var l, k := Pair("lang", a.language) + m, Pair("lang", b.language) + n;
    var d, e := Pair("dbg", a.debug) + l, Pair("dbg", b.debug) + k;
    var o, p := Pair("opt", a.optim) + d, Pair("opt", b.optim) + e;
    PairCancel("std", a.std, b.std, o, p);
    PairCancel("opt", a.optim, b.optim, d, e);
    PairCancel("dbg", a.debug, b.debug, l, k);
    PairCancel("lang", a.language, b.language, m, n);
    PairCancel("mode", [ModeDigit(a.mode)], [ModeDigit(b.mode)], Tail(a), Tail(b));
  }

  /** The key is a function of what it distinguishes, in any order the map gives its names in. */
  lemma {:induction false} KeyDetermined(a: Inv, b: Inv, x: string, y: string)
    requires SameKeyed(a, b) && IsKey(a, x) && IsKey(b, y)
    ensures x == y
  {
    var ks :| KeysInOrder(a.defines, ks) && x == KeyWith(a, ks);
    var ls :| KeysInOrder(b.defines, ls) && y == KeyWith(b, ls);
    OneOrder(a.defines, ks, ls);
  }

  /** Two clean command lines with the same key agree on everything the key is for, and conversely. */
  lemma {:induction false} KeyInjective(a: Inv, b: Inv, x: string, y: string)
    requires Clean(a) && Clean(b) && IsKey(a, x) && IsKey(b, y)
    ensures x == y <==> SameKeyed(a, b)
  {
    if SameKeyed(a, b) {
      KeyDetermined(a, b, x, y);
    }
    if x == y {
      var ks :| KeysInOrder(a.defines, ks) && x == KeyWith(a, ks);
      var ls :| KeysInOrder(b.defines, ls) && y == KeyWith(b, ls);
      ListsInjective(a, b, ks, ls);
      ScalarsInjective(a, b);
      TailInjective(a, b);
    }
  }

  /** What only some tool reads still tells two command lines apart, unless it is about dependency output. */
  lemma {:induction false} PassthroughKeyed(a: Inv, b: Inv, x: string, y: string)
    requires Clean(a) && Clean(b) && IsKey(a, x) && IsKey(b, y)
    requires forall q | q in a.passthrough + b.passthrough :: !DepOnly(q)
    ensures a.passthrough != b.passthrough ==> x != y
  {
    forall i | 0 <= i < |a.passthrough|
      ensures !DepOnly(a.passthrough[i])
    {
      assert a.passthrough[i] in a.passthrough + b.passthrough;
    }
    forall i | 0 <= i < |b.passthrough|
      ensures !DepOnly(b.passthrough[i])
    {
      assert b.passthrough[i] in a.passthrough + b.passthrough;
    }
    FilterSame(a.passthrough);
    FilterSame(b.passthrough);
    KeyInjective(a, b, x, y);
  }

  lemma {:induction false} ListsInjective(a: Inv, b: Inv, ks: seq<string>, ls: seq<string>)
    requires Clean(a) && Clean(b) && KeysInOrder(a.defines, ks) && KeysInOrder(b.defines, ls)
               && KeyWith(a, ks) == KeyWith(b, ls)
    ensures a.includes == b.includes && a.systemIncludes == b.systemIncludes && a.undefines == b.undefines
              && a.defines == b.defines
    ensures Scalars(a) == Scalars(b)
  {
    EntriesSolid(a, ks);
    EntriesSolid(b, ls);
    var d, e := ListOf("D", Entries(a.defines, ks)) + Scalars(a), ListOf("D", Entries(b.defines, ls)) + Scalars(b);
    var u, v := ListOf("U", a.undefines) + d, ListOf("U", b.undefines) + e;
    var i, j := ListOf("isystem", a.systemIncludes) + u, ListOf("isystem", b.systemIncludes) + v;
    ListCancel("I", a.includes, b.includes, i, j);
    ListCancel("isystem", a.systemIncludes, b.systemIncludes, u, v);
    ListCancel("U", a.undefines, b.undefines, d, e);
    ListCancel("D", Entries(a.defines, ks), Entries(b.defines, ls), Scalars(a), Scalars(b));
    EntriesEqual(a, b, ks, ls);
  }

  // ---- Macro order does not matter ----

  /** A complete -D flag, glued or separate. */
  predicate IsDefine(d: seq<string>, def: string)
  {
    d == ["-D", def] || (def != "" && d == ["-D" + def])
  }

  lemma {:induction false} DefineToken(tbl: Table, d: seq<string>, def: string, more: seq<string>)
    requires GoodTable(tbl)
    requires IsDefine(d, def)
    ensures TokenAt(tbl, d + more) == Flag(DefineFlag, def, |d|)
  {
    var arg := d[0];
    assert HasPrefix(arg, "-D");
    assert (d + more)[0] == arg;
    DefineSpec(tbl, arg);
    if |d| == 2 {
      assert (d + more)[1] == def;
    } else {
      assert arg == "-D" + def && |arg| > 2;
      assert arg[2..] == def;
    }
  }

  lemma {:induction false} DefineParses(tbl: Table, inv: Inv, d: seq<string>, def: string, more: seq<string>)
    requires GoodTable(tbl)
    requires IsDefine(d, def)
    ensures ParseAll(tbl, inv, d + more) == ParseAll(tbl, Define(inv, def), more)
  {
    DefineToken(tbl, d, def, more);
    assert (d + more)[|d|..] == more;
  }

  /** No flag in `args` sets the macro `name`. */
  predicate Leaves(tbl: Table, args: seq<string>, name: string)
    decreases |args|
  {
    args == [] || (match TokenAt(tbl, args)
                   case End => true
                   case Input(_) => Leaves(tbl, args[1..], name)
                   case Stray(_) => Leaves(tbl, args[1..], name)
                   case Flag(spec, v, n) =>
                     (spec.category.CatDefine? ==> NameOf(v) != name) && Leaves(tbl, args[n..], name))
  }

  lemma {:induction false} DefineCommutes(tbl: Table, inv: Inv, def: string, args: seq<string>)
    requires Leaves(tbl, args, NameOf(def))
    ensures ParseAll(tbl, Define(inv, def), args) == Define(ParseAll(tbl, inv, args), def)
    decreases |args|
  {
    if args != [] {
      match TokenAt(tbl, args) {
        case End =>
        case Input(a) => DefineCommutes(tbl, inv.(inputs := inv.inputs + [a]), def, args[1..]);
        case Stray(a) => DefineCommutes(tbl, inv.(unknown := inv.unknown + [a]), def, args[1..]);
        case Flag(spec, v, n) =>
          ApplyCommutes(inv, def, spec, v);
          DefineCommutes(tbl, Apply(inv, spec, v), def, args[n..]);
      }
    }
  }

  lemma {:induction false} DefinesCommute(inv: Inv, a: string, b: string)
    requires NameOf(a) != NameOf(b)
    ensures Define(Define(inv, a), b) == Define(Define(inv, b), a)
  {
    assert inv.defines[NameOf(a) := ValueOf(a)][NameOf(b) := ValueOf(b)]
        == inv.defines[NameOf(b) := ValueOf(b)][NameOf(a) := ValueOf(a)];
  }

  lemma {:induction false} OthersCommute(inv: Inv, def: string, spec: FlagSpec, v: string)
    requires !spec.category.CatDefine?
    ensures Apply(Define(inv, def), spec, v) == Define(Apply(inv, spec, v), def)
  {
  }

  lemma {:induction false} ApplyCommutes(inv: Inv, def: string, spec: FlagSpec, v: string)
    requires spec.category.CatDefine? ==> NameOf(v) != NameOf(def)
    ensures Apply(Define(inv, def), spec, v) == Define(Apply(inv, spec, v), def)
  {
    if spec.category.CatDefine? {
      DefinesCommute(inv, def, v);
    } else {
      OthersCommute(inv, def, spec, v);
    }
  }

  /** A -D flag may move past any complete flags that do not set the same macro. */
  lemma {:induction false} DefinesReorder(tbl: Table, pre: seq<string>, d: seq<string>, def: string,
                                          mid: seq<string>, post: seq<string>)
    requires GoodTable(tbl)
    requires Whole(tbl, pre) && Whole(tbl, mid) && IsDefine(d, def) && Leaves(tbl, mid, NameOf(def))
    ensures Parse(tbl, pre + (d + (mid + post))) == Parse(tbl, pre + (mid + (d + post)))
  {
    var inv := ParseAll(tbl, Blank, pre);
    Boundary(tbl, Blank, pre, d + (mid + post));
    Boundary(tbl, Blank, pre, mid + (d + post));
    DefineParses(tbl, inv, d, def, mid + post);
    Boundary(tbl, Define(inv, def), mid, post);
    Boundary(tbl, inv, mid, d + post);
    DefineParses(tbl, ParseAll(tbl, inv, mid), d, def, post);
    DefineCommutes(tbl, inv, def, mid);
  }

  // ---- Dependency output does not matter ----

  /** A complete dependency flag and what it leaves in the passthrough list. */
  predicate IsDep(d: seq<string>)
  {
    d == ["-MD"] || d == ["-MMD"] || (|d| == 2 && DepTaker(d[0]))
  }

  lemma {:induction false} DepSpecs(tbl: Table)
    requires GoodTable(tbl)
    ensures Spec(tbl, "-MD") == [FlagSpec("-MD", NoValue, CatPassthrough)]
    ensures Spec(tbl, "-MMD") == [FlagSpec("-MMD", NoValue, CatPassthrough)]
    ensures forall a | DepTaker(a) :: Spec(tbl, a) == [FlagSpec(a, SeparateValue, CatPassthrough)]
  {
    forall i | 0 <= i < 5
      ensures Spec(tbl, DepFlags[i].name) != [] && Spec(tbl, DepFlags[i].name)[0].name == DepFlags[i].name
      ensures Named(Spec(tbl, DepFlags[i].name)[0])
    {
      assert DepFlags[i] in DepFlags;
      ExactName(tbl, DepFlags[i]);
    }
    assert DepFlags[0].name == "-MD" && DepFlags[1].name == "-MMD";
    assert DepFlags[2].name == "-MF" && DepFlags[3].name == "-MT" && DepFlags[4].name == "-MQ";
  }

  lemma {:induction false} DepToken(tbl: Table, d: seq<string>, more: seq<string>)
    requires GoodTable(tbl)
    requires IsDep(d)
    ensures TokenAt(tbl, d + more).Flag? && TokenAt(tbl, d + more).consumed == |d|
    ensures
      var t := TokenAt(tbl, d + more);
      t.spec.category.CatPassthrough? && Pass(t.spec, t.val) == d
  {
    DepSpecs(tbl);
    var all := d + more;
    assert all[0] == d[0] && Dashed(d[0]) && d[0] != "--";
    if |d| == 2 {
      assert all[1] == d[1];
    }
  }

  lemma {:induction false} DepParses(tbl: Table, inv: Inv, d: seq<string>, more: seq<string>)
    requires GoodTable(tbl)
    requires IsDep(d)
    ensures ParseAll(tbl, inv, d + more) == ParseAll(tbl, inv.(passthrough := inv.passthrough + d), more)
  {
    DepToken(tbl, d, more);
    assert (d + more)[|d|..] == more;
  }

  /** Flags only ever append to the passthrough list. */
  lemma {:induction false} PassAppends(tbl: Table, inv: Inv, p: seq<string>, args: seq<string>)
    ensures
      var r := ParseAll(tbl, inv.(passthrough := []), args);
      ParseAll(tbl, inv.(passthrough := p), args) == r.(passthrough := p + r.passthrough)
    decreases |args|
  {
    if args == [] {
      Nil(p);
    } else {
      match TokenAt(tbl, args) {
        case End => Nil(p);
        case Input(a) => PassAppends(tbl, inv.(inputs := inv.inputs + [a]), p, args[1..]);
        case Stray(a) => PassAppends(tbl, inv.(unknown := inv.unknown + [a]), p, args[1..]);
        case Flag(spec, v, n) =>
          var next := Apply(inv.(passthrough := []), spec, v);
          var e := next.passthrough;
          ApplyAppends(inv, p, spec, v);
          PassAppends(tbl, next, p + e, args[n..]);
          PassAppends(tbl, next, e, args[n..]);
          assert next.(passthrough := e) == next;
          Assoc(p, e, ParseAll(tbl, next.(passthrough := []), args[n..]).passthrough);
      }
    }
  }

  lemma {:induction false} ApplyAppends(inv: Inv, p: seq<string>, spec: FlagSpec, v: string)
    ensures
      var next := Apply(inv.(passthrough := []), spec, v);
      Apply(inv.(passthrough := p), spec, v) == next.(passthrough := p + next.passthrough)
  {
    if spec.category.CatPassthrough? {
      Nil(Pass(spec, v));
    } else {
      ApplyLeaves(inv, p, spec, v);
      Nil(p);
    }
  }

  lemma {:induction false} ApplyLeaves(inv: Inv, p: seq<string>, spec: FlagSpec, v: string)
    requires !spec.category.CatPassthrough?
    ensures Apply(inv.(passthrough := p), spec, v) == Apply(inv, spec, v).(passthrough := p)
    ensures Apply(inv.(passthrough := []), spec, v) == Apply(inv, spec, v).(passthrough := [])
  {
  }

  lemma {:induction false} FilterLast(p: seq<string>, q: seq<string>)
    requires q != []
    ensures
      var n := |q| - 1;
      var all, head := p + q, p + q[..n];
      && Skips(all) == (!Skips(head) && DepTaker(q[n]))
      && Filter(all) == if Skips(head) || DepSwitch(q[n]) || DepTaker(q[n]) then Filter(head) else Filter(head) + [q[n]]
  {
    assert (p + q)[..|p + q| - 1] == p + q[..|q| - 1];
  }

  lemma {:induction false} FilterConcat(p: seq<string>, q: seq<string>)
    requires !Skips(p)
    ensures Filter(p + q) == Filter(p) + Filter(q) && Skips(p + q) == Skips(q)
    decreases |q|
  {
    if q == [] {
      Nil(p);
      Nil(Filter(p));
    } else {
      var n := |q| - 1;
      FilterConcat(p, q[..n]);
      FilterLast(p, q);
      Assoc(Filter(p), Filter(q[..n]), [q[n]]);
    }
  }

  lemma {:induction false} OneTaker(a: string)
    requires DepTaker(a)
    ensures Filter([a]) == [] && Skips([a])
  {
    var p := [a];
    assert p[..|p| - 1] == [] && p[|p| - 1] == a;
    assert Filter(p[..|p| - 1]) == [];
  }

  lemma {:induction false} DepInvisible(d: seq<string>)
    requires IsDep(d)
    ensures Filter(d) == [] && !Skips(d)
  {
    if |d| == 2 {
      assert d[..1] == [d[0]];
      OneTaker(d[0]);
    } else {
      assert d[..0] == [];
    }
  }

  lemma {:induction false} FilterContinues(p: seq<string>, p': seq<string>, q: seq<string>)
    requires Filter(p) == Filter(p') && Skips(p) == Skips(p')
    ensures Filter(p + q) == Filter(p' + q) && Skips(p + q) == Skips(p' + q)
    decreases |q|
  {
    if q == [] {
      Nil(p);
      Nil(p');
    } else {
      FilterContinues(p, p', q[..|q| - 1]);
      FilterLast(p, q);
      FilterLast(p', q);
    }
  }

  /**
   * A dependency flag behind `p` is lost on the filter: it is dropped whole, or its own value is the
   * next one to swallow.
   */
  predicate Harmless(p: seq<string>, d: seq<string>)
  {
    !Skips(p) || (|d| == 2 && DepTaker(d[1]))
  }

  lemma {:induction false} FilterTwo(p: seq<string>, a: string, b: string)
    requires Skips(p)
    ensures Skips(p + [a, b]) == DepTaker(b)
    ensures Filter(p + [a, b]) == if DepSwitch(b) || DepTaker(b) then Filter(p) else Filter(p) + [b]
  {
    var q := [a, b];
    assert q[..1] == [a] && [a][..0] == [];
    FilterLast(p, q);
    FilterLast(p, q[..1]);
    Nil(p);
  }

  lemma {:induction false} HarmlessKeeps(p: seq<string>, d: seq<string>)
    requires IsDep(d) && Harmless(p, d)
    ensures Filter(p + d) == Filter(p) && Skips(p + d) == Skips(p)
  {
    if Skips(p) {
      assert d == [d[0], d[1]];
      FilterTwo(p, d[0], d[1]);
    } else {
      DepInvisible(d);
      FilterConcat(p, d);
      Nil(Filter(p));
    }
  }

  lemma {:induction false} DepPasses(tbl: Table, pre: seq<string>, d: seq<string>, post: seq<string>)
    requires GoodTable(tbl) && Whole(tbl, pre) && IsDep(d)
    ensures
      var p := ParseAll(tbl, Blank, pre).passthrough;
      var q := ParseAll(tbl, ParseAll(tbl, Blank, pre).(passthrough := []), post).passthrough;
      var with, without := ParseAll(tbl, Blank, pre + (d + post)), ParseAll(tbl, Blank, pre + post);
      && with.passthrough == p + d + q && without.passthrough == p + q
      && with == without.(passthrough := with.passthrough)
  {
    var inv := ParseAll(tbl, Blank, pre);
    Boundary(tbl, Blank, pre, d + post);
    Boundary(tbl, Blank, pre, post);
    DepParses(tbl, inv, d, post);
    PassAppends(tbl, inv, inv.passthrough + d, post);
    PassAppends(tbl, inv, inv.passthrough, post);
    assert inv.(passthrough := inv.passthrough) == inv;
  }

  /** A harmless dependency flag leaves no trace, whatever follows. */
  lemma {:induction false} DepFlagsInvisible(tbl: Table, pre: seq<string>, d: seq<string>, post: seq<string>)
    requires GoodTable(tbl) && Whole(tbl, pre) && IsDep(d) && Harmless(ParseAll(tbl, Blank, pre).passthrough, d)
    ensures SameKeyed(Parse(tbl, pre + (d + post)), Parse(tbl, pre + post))
  {
    var inv := ParseAll(tbl, Blank, pre);
    var q := ParseAll(tbl, inv.(passthrough := []), post).passthrough;
    DepPasses(tbl, pre, d, post);
    HarmlessKeeps(inv.passthrough, d);
    FilterContinues(inv.passthrough + d, inv.passthrough, q);
    FinishKeyed(ParseAll(tbl, Blank, pre + (d + post)), ParseAll(tbl, Blank, pre + post));
  }

  /** What gives a dependency flag away that is not harmless. */
  function Telltale(d: seq<string>): (post: seq<string>)
  {
    if |d| == 2 && !DepSwitch(d[1]) then [] else ["-MF", "x"]
  }

  lemma {:induction false} FilterShows(p: seq<string>, d: seq<string>)
    requires IsDep(d) && !Harmless(p, d)
    ensures Filter(p + d + Telltale(d)) != Filter(p + Telltale(d))
  {
    if |d| == 2 {
      assert d == [d[0], d[1]];
      FilterTwo(p, d[0], d[1]);
    } else {
      assert d[..0] == [];
      FilterLast(p, d);
      Nil(p);
    }
    if Telltale(d) == [] {
      Nil(p);
      Nil(p + d);
      assert |Filter(p) + [d[1]]| == |Filter(p)| + 1;
    } else {
      FilterTwo(p, "-MF", "x");
      DepInvisible(["-MF", "x"]);
      FilterConcat(p + d, ["-MF", "x"]);
      Nil(Filter(p + d));
      assert |Filter(p) + ["x"]| == |Filter(p)| + 1;
    }
  }

  lemma {:induction false} TelltalePasses(tbl: Table, inv: Inv, d: seq<string>)
    requires GoodTable(tbl)
    ensures ParseAll(tbl, inv.(passthrough := []), Telltale(d)).passthrough == Telltale(d)
  {
    var t := Telltale(d);
    if t != [] {
      Nil(t);
      DepParses(tbl, inv.(passthrough := []), t, []);
    }
  }

  lemma {:induction false} DepFlagsShow(tbl: Table, pre: seq<string>, d: seq<string>)
    requires GoodTable(tbl) && Whole(tbl, pre) && IsDep(d) && !Harmless(ParseAll(tbl, Blank, pre).passthrough, d)
    ensures !SameKeyed(Parse(tbl, pre + (d + Telltale(d))), Parse(tbl, pre + Telltale(d)))
  {
    var inv := ParseAll(tbl, Blank, pre);
    DepPasses(tbl, pre, d, Telltale(d));
    TelltalePasses(tbl, inv, d);
    FilterShows(inv.passthrough, d);
    FinishMirrors(ParseAll(tbl, Blank, pre + (d + Telltale(d))));
    FinishMirrors(ParseAll(tbl, Blank, pre + Telltale(d)));
  }

  ghost predicate Invisible(tbl: Table, pre: seq<string>, d: seq<string>)
  {
    forall post :: SameKeyed(Parse(tbl, pre + (d + post)), Parse(tbl, pre + post))
  }

  /** Inserting a dependency flag at a flag boundary never shows in the key if and only if it is harmless there. */
  lemma {:induction false} DepFlagsInvisibleIff(tbl: Table, pre: seq<string>, d: seq<string>)
    requires GoodTable(tbl) && Whole(tbl, pre) && IsDep(d)
    ensures Invisible(tbl, pre, d) <==> Harmless(ParseAll(tbl, Blank, pre).passthrough, d)
  {
    if Harmless(ParseAll(tbl, Blank, pre).passthrough, d) {
      forall post
        ensures SameKeyed(Parse(tbl, pre + (d + post)), Parse(tbl, pre + post))
      {
        DepFlagsInvisible(tbl, pre, d, post);
      }
    } else {
      DepFlagsShow(tbl, pre, d);
    }
  }

  lemma {:induction false} FinishKeyed(a: Inv, b: Inv)
    requires SameKeyed(a, b)
    ensures SameKeyed(Finish(a), Finish(b))
  {
    FinishMirrors(a);
    FinishMirrors(b);
  }

  /** A passthrough value that is not spelled like a dependency flag never leaves the filter dangling. */
  lemma {:induction false} QuietPass(p: seq<string>, spec: FlagSpec, v: string)
    requires !Skips(p) && Shape(spec) && spec.category.CatPassthrough? && !DepTaker(v)
    ensures !Skips(p + Pass(spec, v))
  {
    match spec.value {
      case NoValue =>
        FilterConcat(p, [spec.name]);
        assert [spec.name][..0] == [];
      case JoinedValue =>
        FilterConcat(p, [spec.name + v]);
        assert [spec.name + v][..0] == [];
        assert |spec.name + v| > 3;
      case SeparateValue => SeparateQuiet(p, spec.name, v);
      case JoinedOrSeparate => SeparateQuiet(p, spec.name, v);
    }
  }

  lemma {:induction false} SeparateQuiet(p: seq<string>, name: string, v: string)
    requires !Skips(p) && !DepTaker(v)
    ensures !Skips(p + [name, v])
  {
    FilterConcat(p, [name, v]);
    assert [name, v][..1] == [name];
  }

  /** No passthrough flag in `args` has a value spelled like -MF, -MT or -MQ. */
  predicate QuietValues(tbl: Table, args: seq<string>)
    decreases |args|
  {
    args == [] || (match TokenAt(tbl, args)
                   case End => true
                   case Input(_) => QuietValues(tbl, args[1..])
                   case Stray(_) => QuietValues(tbl, args[1..])
                   case Flag(spec, v, n) =>
                     (spec.category.CatPassthrough? ==> !DepTaker(v)) && QuietValues(tbl, args[n..]))
  }

  /** On such a command line the condition holds at every flag boundary. */
  lemma {:induction false} QuietArgs(tbl: Table, inv: Inv, args: seq<string>)
    requires GoodTable(tbl) && QuietValues(tbl, args) && !Skips(inv.passthrough)
    ensures !Skips(ParseAll(tbl, inv, args).passthrough)
    decreases |args|
  {
    if args != [] {
      match TokenAt(tbl, args) {
        case End =>
        case Input(a) => QuietArgs(tbl, inv.(inputs := inv.inputs + [a]), args[1..]);
        case Stray(a) => QuietArgs(tbl, inv.(unknown := inv.unknown + [a]), args[1..]);
        case Flag(spec, v, n) =>
          Found(tbl, args[0]);
          ApplyQuiet(inv, spec, v);
          QuietArgs(tbl, Apply(inv, spec, v), args[n..]);
      }
    }
  }

  lemma {:induction false} ApplyQuiet(inv: Inv, spec: FlagSpec, v: string)
    requires !Skips(inv.passthrough) && Shape(spec) && (spec.category.CatPassthrough? ==> !DepTaker(v))
    ensures !Skips(Apply(inv, spec, v).passthrough)
  {
    if spec.category.CatPassthrough? {
      QuietPass(inv.passthrough, spec, v);
    } else {
      ApplyLeaves(inv, inv.passthrough, spec, v);
    }
  }

  lemma {:induction false} XlinkerToken(tbl: Table, p: seq<string>)
    requires GoodTable(tbl) && |p| == 2 && p[0] == "-Xlinker"
    ensures TokenAt(tbl, p) == Flag(XlinkerFlag, p[1], 2) && p[2..] == []
  {
    ExactName(tbl, XlinkerFlag);
  }

  /** Otherwise it can: after `-Xlinker -MF` the filter swallows whatever comes next, here the new flag itself. */
  lemma {:induction false} DanglingHappens(tbl: Table, p: seq<string>)
    requires GoodTable(tbl) && p == ["-Xlinker", "-MF"]
    ensures Whole(tbl, p) && !Harmless(ParseAll(tbl, Blank, p).passthrough, ["-MD"])
    ensures !SameKeyed(Parse(tbl, p + (["-MD"] + ["-MF", "x"])), Parse(tbl, p + ["-MF", "x"]))
  {
    XlinkerToken(tbl, p);
    assert Whole(tbl, p[2..]);
    assert ParseAll(tbl, Apply(Blank, XlinkerFlag, p[1]), p[2..]) == Apply(Blank, XlinkerFlag, p[1]);
    assert [] + ["-Xlinker", "-MF"] == p;
    assert p[..1] == ["-Xlinker"] && ["-Xlinker"][..0] == [];
    assert !Skips(p[..1]);
    DepFlagsShow(tbl, p, ["-MD"]);
  }
}
