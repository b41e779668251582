/**
 * The GNU flag table (internal/compiler/grammar.go) and the search in it (matchGNUFlag,
 * internal/compiler/parser.go:111-143): longer names first, so the first hit is the longest one.
 */
module FlagTable {
  datatype ValueMode = NoValue | JoinedValue | SeparateValue | JoinedOrSeparate

  datatype Category =
    | CatMode | CatOutput | CatInclude | CatSystemInclude | CatDefine | CatUndefine | CatLibrary | CatLibraryDir
    | CatStandard | CatOptim | CatDebug | CatWarning | CatFeature | CatMachine | CatLanguage | CatPassthrough

  datatype FlagSpec = FlagSpec(name: string, value: ValueMode, category: Category)

  const ModeFlags: seq<FlagSpec> := [
    FlagSpec("-c", NoValue, CatMode),
    FlagSpec("-E", NoValue, CatMode),
    FlagSpec("-S", NoValue, CatMode),
    FlagSpec("-M", NoValue, CatMode),
    FlagSpec("-MM", NoValue, CatMode)
  ]

  const PathFlags: seq<FlagSpec> := [
    FlagSpec("-o", SeparateValue, CatOutput),
    FlagSpec("-I", JoinedOrSeparate, CatInclude),
    FlagSpec("-isystem", SeparateValue, CatSystemInclude),
    FlagSpec("-iquote", SeparateValue, CatSystemInclude),
    FlagSpec("-D", JoinedOrSeparate, CatDefine),
    FlagSpec("-U", JoinedOrSeparate, CatUndefine),
    FlagSpec("-l", JoinedOrSeparate, CatLibrary),
    FlagSpec("-L", JoinedOrSeparate, CatLibraryDir)
  ]

  const CodeFlags: seq<FlagSpec> := [
    FlagSpec("-std=", JoinedValue, CatStandard),
    FlagSpec("-x", SeparateValue, CatLanguage),
    FlagSpec("-O", JoinedValue, CatOptim),
    FlagSpec("-g", JoinedValue, CatDebug),
    FlagSpec("-W", JoinedValue, CatWarning),
    FlagSpec("-f", JoinedValue, CatFeature),
    FlagSpec("-m", JoinedValue, CatMachine)
  ]

  const ToolFlags: seq<FlagSpec> := [
    FlagSpec("-Wl,", JoinedValue, CatPassthrough),
    FlagSpec("-Wa,", JoinedValue, CatPassthrough),
    FlagSpec("-Wp,", JoinedValue, CatPassthrough),
    FlagSpec("-Xlinker", SeparateValue, CatPassthrough),
    FlagSpec("-Xassembler", SeparateValue, CatPassthrough),
    FlagSpec("-Xpreprocessor", SeparateValue, CatPassthrough),
    FlagSpec("-include", SeparateValue, CatPassthrough)
  ]

  const DepFlags: seq<FlagSpec> := [
    FlagSpec("-MD", NoValue, CatPassthrough),
    FlagSpec("-MMD", NoValue, CatPassthrough),
    FlagSpec("-MF", SeparateValue, CatPassthrough),
    FlagSpec("-MT", SeparateValue, CatPassthrough),
    FlagSpec("-MQ", SeparateValue, CatPassthrough)
  ]

  const GnuFlags: seq<FlagSpec> := ModeFlags + PathFlags + CodeFlags + ToolFlags + DepFlags

  // ---- What later proofs need to know about the entries ----

  predicate KeptCategory(c: Category)
  {
    c.CatStandard? || c.CatOptim? || c.CatDebug? || c.CatWarning? || c.CatFeature? || c.CatMachine?
  }

  /** Dependency flags that take a value. */
  predicate DepTaker(a: string)
  {
    a == "-MF" || a == "-MT" || a == "-MQ"
  }

  predicate Shape(s: FlagSpec)
  {
    && |s.name| >= 2 && s.name[0] == '-'
    && (KeptCategory(s.category) ==> s.value.JoinedValue?)
    && (s.category.CatWarning? ==> s.name == "-W")
    && (s.name[1] == 'D' ==> s == FlagSpec("-D", JoinedOrSeparate, CatDefine))
    && (s.value.NoValue? ==> !DepTaker(s.name))
    && (s.value.JoinedValue? && s.category.CatPassthrough? ==> |s.name| == 4)
  }

  /** The entries whose names are spelled out elsewhere. */
  predicate Named(s: FlagSpec)
  {
    && (s.name == "-c" ==> s == FlagSpec("-c", NoValue, CatMode))
    && (s.name == "-o" ==> s == FlagSpec("-o", SeparateValue, CatOutput))
    && (s.name == "-x" ==> s == FlagSpec("-x", SeparateValue, CatLanguage))
    && (s.name == "-Xlinker" ==> s == FlagSpec("-Xlinker", SeparateValue, CatPassthrough))
    && (s.name == "-MD" ==> s == FlagSpec("-MD", NoValue, CatPassthrough))
    && (s.name == "-MMD" ==> s == FlagSpec("-MMD", NoValue, CatPassthrough))
    && (DepTaker(s.name) ==> s == FlagSpec(s.name, SeparateValue, CatPassthrough))
  }

  lemma {:induction false} ModeShapes(s: FlagSpec)
    requires s in ModeFlags
    ensures Shape(s) && Named(s)
  {
  }

  lemma {:induction false} PathShapes(s: FlagSpec)
    requires s in PathFlags
    ensures Shape(s) && Named(s)
  {
  }

  lemma {:induction false} CodeShapes(s: FlagSpec)
    requires s in CodeFlags
    ensures Shape(s) && Named(s)
  {
  }

  lemma {:induction false} ToolShapes(s: FlagSpec)
    requires s in ToolFlags
    ensures Shape(s) && Named(s)
  {
  }

  lemma {:induction false} DepShapes(s: FlagSpec)
    requires s in DepFlags
    ensures Shape(s) && Named(s)
  {
  }

  lemma {:induction false} Shapes(s: FlagSpec)
    requires s in GnuFlags
    ensures Shape(s) && Named(s)
  {
    if s in ModeFlags {
      ModeShapes(s);
    } else if s in PathFlags {
      PathShapes(s);
    } else if s in CodeFlags {
      CodeShapes(s);
    } else if s in ToolFlags {
      ToolShapes(s);
    } else {
      DepShapes(s);
    }
  }

  // ---- The length-descending copy ----

  /** `x` goes behind everything at least as long. */
  function InsertByLength(s: seq<FlagSpec>, x: FlagSpec): (r: seq<FlagSpec>)
  {
    if s == [] || |s[|s| - 1].name| >= |x.name| then s + [x]
    else InsertByLength(s[..|s| - 1], x) + [s[|s| - 1]]
  }

  function SortByLength(s: seq<FlagSpec>): (r: seq<FlagSpec>)
  {
    if s == [] then [] else InsertByLength(SortByLength(s[..|s| - 1]), s[|s| - 1])
  }

  predicate Descending(s: seq<FlagSpec>)
  {
    forall i, j | 0 <= i < j < |s| :: |s[i].name| >= |s[j].name|
  }

  lemma {:induction false} InsertPermutes(s: seq<FlagSpec>, x: FlagSpec)
    ensures multiset(InsertByLength(s, x)) == multiset(s) + multiset{x}
    decreases |s|
  {
    if s != [] && |s[|s| - 1].name| < |x.name| {
      var n := |s| - 1;
      InsertPermutes(s[..n], x);
      assert s == s[..n] + [s[n]];
    }
  }

  lemma {:induction false} InsertedFrom(s: seq<FlagSpec>, x: FlagSpec, y: FlagSpec)
    requires y in InsertByLength(s, x)
    ensures y == x || y in s
  {
    InsertPermutes(s, x);
    assert y in multiset(InsertByLength(s, x));
  }

  lemma {:induction false} InsertKeeps(s: seq<FlagSpec>, x: FlagSpec)
    requires Descending(s)
    ensures Descending(InsertByLength(s, x))
    decreases |s|
  {
    if s != [] && |s[|s| - 1].name| < |x.name| {
      var n := |s| - 1;
      InsertKeeps(s[..n], x);
      var r := InsertByLength(s[..n], x);
      forall i | 0 <= i < |r|
        ensures |r[i].name| >= |s[n].name|
      {
        InsertedFrom(s[..n], x, r[i]);
      }
      DescendingSnoc(r, s[n]);
    }
  }

  lemma {:induction false} DescendingSnoc(r: seq<FlagSpec>, x: FlagSpec)
    requires Descending(r) && forall i | 0 <= i < |r| :: |r[i].name| >= |x.name|
    ensures Descending(r + [x])
  {
  }

  /** The copy holds the same entries, longest names first. */
  lemma {:induction false} SortKeeps(s: seq<FlagSpec>)
    ensures Descending(SortByLength(s)) && multiset(SortByLength(s)) == multiset(s)
    decreases |s|
  {
    if s != [] {
      var n := |s| - 1;
      SortKeeps(s[..n]);
      InsertKeeps(SortByLength(s[..n]), s[n]);
      InsertPermutes(SortByLength(s[..n]), s[n]);
      assert s == s[..n] + [s[n]];
    }
  }

  function OfLength(s: seq<FlagSpec>, n: nat): (r: seq<FlagSpec>)
  {
    if s == [] then []
    else OfLength(s[..|s| - 1], n) + if |s[|s| - 1].name| == n then [s[|s| - 1]] else []
  }

  lemma {:induction false} InsertStable(s: seq<FlagSpec>, x: FlagSpec, n: nat)
    requires Descending(s)
    ensures OfLength(InsertByLength(s, x), n) == OfLength(s, n) + if |x.name| == n then [x] else []
    decreases |s|
  {
    var r := InsertByLength(s, x);
    if s == [] || |s[|s| - 1].name| >= |x.name| {
      assert r[..|r| - 1] == s;
    } else {
      var k := |s| - 1;
      InsertStable(s[..k], x, n);
      assert r[..|r| - 1] == InsertByLength(s[..k], x);
      if |x.name| == n {
        assert OfLength(s, n) == OfLength(s[..k], n) + [];
      }
    }
  }

  /** Entries of one length stay in the order the grammar lists them in. */
  lemma {:induction false} SortStable(s: seq<FlagSpec>, n: nat)
    ensures OfLength(SortByLength(s), n) == OfLength(s, n)
    decreases |s|
  {
    if s != [] {
      var k := |s| - 1;
      SortStable(s[..k], n);
      SortKeeps(s[..k]);
      InsertStable(SortByLength(s[..k]), s[k], n);
    }
  }

  lemma {:induction false} InsertIs(s: seq<FlagSpec>, x: FlagSpec, j: nat)
    requires j <= |s| && (j > 0 ==> |s[j - 1].name| >= |x.name|)
    requires forall k | j <= k < |s| :: |s[k].name| < |x.name|
    ensures InsertByLength(s, x) == s[..j] + [x] + s[j..]
    decreases |s|
  {
    if j == |s| {
      assert s[..j] == s && s[j..] == [];
    } else {
      var n := |s| - 1;
      InsertIs(s[..n], x, j);
      assert s[..n][..j] == s[..j] && s[j..] == s[..n][j..] + [s[n]];
    }
  }

  /** Sifts element `i` down to its place among the ones before it. */
  method InsertInto(a: array<FlagSpec>, i: nat)
    requires i < a.Length
    modifies a
    ensures a[..i + 1] == InsertByLength(old(a[..i]), old(a[i])) && a[i + 1..] == old(a[i + 1..])
  {
    ghost var done, x := a[..i], a[i];
    var j := i;
    while j > 0 && |a[j - 1].name| < |a[j].name|
      invariant 0 <= j <= i && a[j] == x
      invariant forall k | 0 <= k < j :: a[k] == done[k]
      invariant forall k | j < k <= i :: a[k] == done[k - 1]
      invariant forall k | j <= k < i :: |done[k].name| < |x.name|
      invariant forall k | i < k < a.Length :: a[k] == old(a[k])
    {
      a[j], a[j - 1] := a[j - 1], a[j];
      j := j - 1;
    }
    InsertIs(done, x, j);
    assert a[..i + 1] == done[..j] + [x] + done[j..];
  }

  /** The package init: a copy of the table, put in order in place. */
  method SortTable(a: array<FlagSpec>)
    modifies a
    ensures a[..] == SortByLength(old(a[..]))
  {
    ghost var all := a[..];
    for i := 0 to a.Length
      invariant a[..i] == SortByLength(all[..i]) && a[i..] == all[i..]
    {
      assert all[..i + 1][..i] == all[..i] && a[i] == all[i..][0];
      assert all[i + 1..] == all[i..][1..] && a[i + 1..] == a[i..][1..];
      InsertInto(a, i);
    }
    assert a[..] == a[..a.Length] && all[..|all|] == all;
  }

  // ---- The search ----

  predicate HasPrefix(s: string, p: string)
  {
    |p| <= |s| && s[..|p|] == p
  }

  /** What the switch over value modes accepts. */
  predicate Matches(spec: FlagSpec, arg: string)
  {
    match spec.value
    case NoValue => arg == spec.name
    case SeparateValue => arg == spec.name
    case JoinedValue => HasPrefix(arg, spec.name)
    case JoinedOrSeparate => HasPrefix(arg, spec.name)
  }

  /** The entry the scan of the table settles on, if any. */
  function Spec(table: seq<FlagSpec>, arg: string): (r: seq<FlagSpec>)
    ensures |r| <= 1
  {
    if table == [] then [] else if Matches(table[0], arg) then [table[0]] else Spec(table[1..], arg)
  }

  /** The first match in a length-descending table is the longest of all; no match means there is none. */
  lemma {:induction false} SpecIsLongest(table: seq<FlagSpec>, arg: string)
    requires Descending(table)
    ensures
      var r := Spec(table, arg);
      && (r == [] ==> forall s | s in table :: !Matches(s, arg))
      && (r != [] ==> r[0] in table && Matches(r[0], arg)
                      && forall s | s in table && Matches(s, arg) :: |s.name| <= |r[0].name|)
    decreases |table|
  {
    if table != [] && !Matches(table[0], arg) {
      SpecIsLongest(table[1..], arg);
      assert forall s | s in table :: s == table[0] || s in table[1..];
    }
  }

  // ---- Tables made from the grammar ----

  const DefineFlag: FlagSpec := FlagSpec("-D", JoinedOrSeparate, CatDefine)
  const CompileFlag: FlagSpec := FlagSpec("-c", NoValue, CatMode)
  const OutputFlag: FlagSpec := FlagSpec("-o", SeparateValue, CatOutput)
  const LanguageFlag: FlagSpec := FlagSpec("-x", SeparateValue, CatLanguage)
  const XlinkerFlag: FlagSpec := FlagSpec("-Xlinker", SeparateValue, CatPassthrough)

  /** What the proofs about parsing use of the table. */
  ghost predicate GoodTable(table: seq<FlagSpec>)
  {
    && Descending(table)
    && (forall s | s in table :: Shape(s) && Named(s))
    && DefineFlag in table && CompileFlag in table && OutputFlag in table && LanguageFlag in table
        && XlinkerFlag in table
    && (forall s | s in DepFlags :: s in table)
  }

  /** Some order of the grammar's entries, longer names first. */
  ghost predicate GnuTable(table: seq<FlagSpec>)
  {
    Descending(table) && forall s :: s in table <==> s in GnuFlags
  }

  /** Any order of the grammar's entries that puts longer names first will do. */
  lemma {:induction false} TableIsGood(table: seq<FlagSpec>)
    requires GnuTable(table)
    ensures GoodTable(table)
  {
    forall s | s in table
      ensures Shape(s) && Named(s)
    {
      Shapes(s);
    }
    assert PathFlags[4] == DefineFlag && PathFlags[0] == OutputFlag && ModeFlags[0] == CompileFlag
        && CodeFlags[1] == LanguageFlag;
    assert ToolFlags[3] == XlinkerFlag;
  }

  lemma {:induction false} SortedTableIsGnu(table: seq<FlagSpec>)
    requires table == SortByLength(GnuFlags)
    ensures GnuTable(table)
  {
    var all := GnuFlags;
    SortKeeps(all);
    forall s
      ensures s in table <==> s in all
    {
      assert s in multiset(table) <==> s in multiset(all);
    }
  }

  /** So the table the package init makes is good. */
  lemma {:induction false} SortedTableIsGood(table: seq<FlagSpec>)
    requires table == SortByLength(GnuFlags)
    ensures GoodTable(table)
  {
    SortedTableIsGnu(table);
    TableIsGood(table);
  }

  /** What is known about an entry that was found, without looking at the table again. */
  lemma {:induction false} Found(table: seq<FlagSpec>, arg: string)
    requires GoodTable(table) && Spec(table, arg) != []
    ensures Matches(Spec(table, arg)[0], arg) && Shape(Spec(table, arg)[0]) && Named(Spec(table, arg)[0])
  {
    SpecIsLongest(table, arg);
  }

  lemma {:induction false} MatchFront(s: FlagSpec, arg: string)
    requires Matches(s, arg) && |s.name| >= 2
    ensures |arg| >= 2 && arg[1] == s.name[1]
  {
  }

  /** Whatever starts with -D is a macro definition. */
  lemma {:induction false} DefineSpec(table: seq<FlagSpec>, arg: string)
    requires GoodTable(table) && HasPrefix(arg, "-D")
    ensures Spec(table, arg) == [DefineFlag]
  {
    SpecIsLongest(table, arg);
    assert Matches(DefineFlag, arg);
    Found(table, arg);
    MatchFront(Spec(table, arg)[0], arg);
    assert arg[1] == arg[..2][1] == 'D';
  }

  /** An argument spelled exactly like an entry's name finds an entry of that name. */
  lemma {:induction false} ExactName(table: seq<FlagSpec>, s: FlagSpec)
    requires GoodTable(table) && s in table
    ensures Spec(table, s.name) != [] && Spec(table, s.name)[0].name == s.name && Named(Spec(table, s.name)[0])
  {
    SpecIsLongest(table, s.name);
    assert Matches(s, s.name);
    Found(table, s.name);
  }
}
