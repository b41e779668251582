/**
 * What stands on a command line and which entry of the flag table it names: the table by flag name,
 * the ways to spell a flag, and the token each spelling is read as.
 */
module Spelling {
  import opened FlagTable
  import opened Argv

  // ---- The table by name ----

  function CategoryOf(name: string): (c: Category)
  {
    if name == "-c" || name == "-E" || name == "-S" || name == "-M" || name == "-MM" then CatMode
    else if name == "-o" then CatOutput
    else if name == "-I" then CatInclude
    else if name == "-isystem" || name == "-iquote" then CatSystemInclude
    else if name == "-D" then CatDefine
    else if name == "-U" then CatUndefine
    else if name == "-l" then CatLibrary
    else if name == "-L" then CatLibraryDir
    else if name == "-std=" then CatStandard
    else if name == "-x" then CatLanguage
    else if name == "-O" then CatOptim
    else if name == "-g" then CatDebug
    else if name == "-W" then CatWarning
    else if name == "-f" then CatFeature
    else if name == "-m" then CatMachine
    else CatPassthrough
  }

  predicate Toolwise(name: string)
  {
    name == "-Wl," || name == "-Wa," || name == "-Wp,"
  }

  function ValueModeOf(name: string): (m: ValueMode)
  {
    if CategoryOf(name).CatMode? || name == "-MD" || name == "-MMD" then NoValue
    else if name == "-I" || name == "-D" || name == "-U" || name == "-l" || name == "-L" then JoinedOrSeparate
    else if KeptCategory(CategoryOf(name)) || Toolwise(name) then JoinedValue
    else SeparateValue
  }

  function EntryOf(name: string): (s: FlagSpec)
  {
    FlagSpec(name, ValueModeOf(name), CategoryOf(name))
  }

  /** A flag that takes a joined value shares its first letter with no other, but for -W. */
  predicate Lettered(s: FlagSpec)
  {
    && |s.name| >= 2 && s.name[0] == '-' && s.name[1] != '-'
    && (s.name[1] == 'I' ==> s.name == "-I") && (s.name[1] == 'D' ==> s.name == "-D")
    && (s.name[1] == 'U' ==> s.name == "-U") && (s.name[1] == 'l' ==> s.name == "-l")
    && (s.name[1] == 'L' ==> s.name == "-L") && (s.name[1] == 's' ==> s.name == "-std=")
    && (s.name[1] == 'O' ==> s.name == "-O") && (s.name[1] == 'g' ==> s.name == "-g")
    && (s.name[1] == 'f' ==> s.name == "-f") && (s.name[1] == 'm' ==> s.name == "-m")
    && (s.name[1] == 'W' ==> s.name == "-W" || Toolwise(s.name))
  }

  predicate Known(s: FlagSpec)
  {
    s == EntryOf(s.name) && Lettered(s)
  }

  lemma {:induction false} ModeKnown(s: FlagSpec)
    requires s in ModeFlags
    ensures Known(s)
  {
  }

  lemma {:induction false} PathEntries(s: FlagSpec)
    requires s in PathFlags
    ensures s == EntryOf(s.name)
  {
  }

  lemma {:induction false} PathLetters(s: FlagSpec)
    requires s in PathFlags
    ensures Lettered(s)
  {
  }

  lemma {:induction false} CodeEntries(s: FlagSpec)
    requires s in CodeFlags
    ensures s == EntryOf(s.name)
  {
  }

  lemma {:induction false} CodeLetters(s: FlagSpec)
    requires s in CodeFlags
    ensures Lettered(s)
  {
  }

  lemma {:induction false} ToolEntries(s: FlagSpec)
    requires s in ToolFlags
    ensures s == EntryOf(s.name)
  {
  }

  lemma {:induction false} ToolLetters(s: FlagSpec)
    requires s in ToolFlags
    ensures Lettered(s)
  {
  }

  lemma {:induction false} DepKnown(s: FlagSpec)
    requires s in DepFlags
    ensures Known(s)
  {
  }

  /** The entries of the grammar are determined by their names. */
  lemma {:induction false} AllKnown(s: FlagSpec)
    requires s in GnuFlags
    ensures Known(s)
  {
    if s in ModeFlags {
      ModeKnown(s);
    } else if s in PathFlags {
      PathEntries(s);
      PathLetters(s);
    } else if s in CodeFlags {
      CodeEntries(s);
      CodeLetters(s);
    } else if s in ToolFlags {
      ToolEntries(s);
      ToolLetters(s);
    } else {
      DepKnown(s);
    }
  }

  lemma {:induction false} PathListed(s: FlagSpec)
    requires s in PathFlags
    ensures s in GnuFlags && s == EntryOf(s.name)
  {
    PathEntries(s);
  }

  lemma {:induction false} CodeListed(s: FlagSpec)
    requires s in CodeFlags
    ensures s in GnuFlags && s == EntryOf(s.name)
  {
    CodeEntries(s);
  }

  // ---- Spellings ----

  /** The ways to write flag `s` with value `v`. */
  predicate Spells(s: FlagSpec, v: string, args: seq<string>)
  {
    match s.value
    case NoValue => v == "" && args == [s.name]
    case JoinedValue => args == [s.name + v]
    case SeparateValue => args == [s.name, v]
    case JoinedOrSeparate => args == [s.name, v] || (v != "" && args == [s.name + v])
  }

  /** -Wl, -Wa, and -Wp, are flags of their own. */
  predicate OwnValue(s: FlagSpec, v: string)
  {
    s.name == "-W" ==> !HasPrefix(v, "l,") && !HasPrefix(v, "a,") && !HasPrefix(v, "p,")
  }

  lemma {:induction false} PrefixesNest(a: string, b: string, arg: string)
    requires HasPrefix(arg, a) && HasPrefix(arg, b) && |a| <= |b|
    ensures HasPrefix(b, a)
  {
    assert b[..|a|] == arg[..|b|][..|a|] == arg[..|a|];
  }

  lemma {:induction false} WarningsApart(v: string, name: string)
    requires HasPrefix("-W" + v, name) && Toolwise(name)
    ensures HasPrefix(v, name[2..])
  {
    var arg := "-W" + v;
    assert arg[..|name|][2..] == name[2..];
    assert v[..|name| - 2] == arg[2..|name|];
  }

  /** Of two entries that match, the longer is the same, unless the shorter is -W. */
  lemma {:induction false} LongerIsSame(s: FlagSpec, r: FlagSpec, arg: string)
    requires Known(s) && Known(r) && Matches(s, arg) && Matches(r, arg) && |s.name| <= |r.name|
    ensures r == s || (s.name == "-W" && Toolwise(r.name))
  {
    assert HasPrefix(arg, s.name) && HasPrefix(arg, r.name);
    PrefixesNest(s.name, r.name, arg);
    if |s.name| == |r.name| {
      assert r.name[..|s.name|] == r.name;
    } else {
      assert s.value.JoinedValue? || s.value.JoinedOrSeparate?;
      assert r.name[1] == r.name[..|s.name|][1] == s.name[1];
      JoinedLetter(s, r);
    }
  }

  lemma {:induction false} JoinedLetter(s: FlagSpec, r: FlagSpec)
    requires Known(s) && Known(r) && (s.value.JoinedValue? || s.value.JoinedOrSeparate?) && r.name[1] == s.name[1]
    requires |s.name| < |r.name|
    ensures s.name == "-W" && Toolwise(r.name)
  {
  }

  ghost predicate KnownTable(tbl: Table)
  {
    Descending(tbl) && forall s | s in tbl :: Known(s)
  }

  lemma {:induction false} GnuKnown(tbl: Table)
    requires GnuTable(tbl)
    ensures KnownTable(tbl)
  {
    forall s | s in tbl
      ensures Known(s)
    {
      AllKnown(s);
    }
  }

  /** An argument that starts with a flag's name, or is it, finds that flag. */
  lemma {:induction false} EntryFound(tbl: Table, s: FlagSpec, arg: string)
    requires KnownTable(tbl) && s in tbl && Matches(s, arg)
    requires s.name == "-W" ==> forall name | Toolwise(name) :: !HasPrefix(arg, name)
    ensures Spec(tbl, arg) == [s]
  {
    SpecIsLongest(tbl, arg);
    LongerIsSame(s, Spec(tbl, arg)[0], arg);
  }

  lemma {:induction false} JoinedFound(tbl: Table, s: FlagSpec, v: string)
    requires KnownTable(tbl) && s in tbl && (s.value.JoinedValue? || s.value.JoinedOrSeparate?) && OwnValue(s, v)
    ensures Spec(tbl, s.name + v) == [s]
  {
    var arg := s.name + v;
    assert arg[..|s.name|] == s.name;
    if s.name == "-W" {
      forall name | Toolwise(name)
        ensures !HasPrefix(arg, name)
      {
        if HasPrefix(arg, name) {
          WarningsApart(v, name);
        }
      }
    }
    EntryFound(tbl, s, arg);
  }

  lemma {:induction false} NameFound(tbl: Table, s: FlagSpec)
    requires KnownTable(tbl) && s in tbl
    ensures Spec(tbl, s.name) == [s]
  {
    assert s.name[..|s.name|] == s.name;
    if s.name == "-W" {
      assert forall name | Toolwise(name) :: |name| > |s.name|;
    }
    EntryFound(tbl, s, s.name);
  }

  lemma {:induction false} DashedName(s: FlagSpec, v: string)
    requires Lettered(s)
    ensures Dashed(s.name + v) && s.name + v != "--" && (s.name + v)[|s.name|..] == v
    ensures Dashed(s.name) && s.name != "--"
  {
    var arg := s.name + v;
    assert arg[0] == '-' && arg[1] == s.name[1];
    assert arg[..1] == "-" && s.name[..1] == "-";
  }

  /** However a flag is spelled, it is read as that flag with its value. */
  lemma {:induction false} SpelledToken(tbl: Table, s: FlagSpec, v: string, args: seq<string>, rest: seq<string>)
    requires KnownTable(tbl) && s in tbl && Spells(s, v, args) && OwnValue(s, v)
    ensures args != [] && TokenAt(tbl, args + rest) == Flag(s, v, |args|)
  {
    DashedName(s, v);
    var all := args + rest;
    assert all[0] == args[0] && (|args| == 2 ==> all[1] == args[1]);
    if all[0] == s.name {
      NameFound(tbl, s);
    } else {
      JoinedFound(tbl, s, v);
    }
  }

  /** What else an argument can be; a flag's token is the flag as spelled, or its bare name at the end. */
  lemma {:induction false} TokenKinds(tbl: Table, args: seq<string>)
    requires GnuTable(tbl) && args != []
    ensures
      var a, t := args[0], TokenAt(tbl, args);
      && (t.End? <==> a == "--")
      && (t == Input(a) <==> a == "-" || a == "" || a[0] != '-')
      && (t == Stray(a) <==> |a| > 1 && a[0] == '-' && a != "--" && forall s | s in GnuFlags :: !Matches(s, a))
  {
    var a := args[0];
    SpecIsLongest(tbl, a);
    if a != "" {
      assert a[..1] == [a[0]];
    }
    if Spec(tbl, a) != [] {
      assert Spec(tbl, a)[0] in GnuFlags;
    }
  }

  lemma {:induction false} FlagToken(tbl: Table, args: seq<string>)
    requires Descending(tbl) && args != [] && TokenAt(tbl, args).Flag?
    ensures
      var t := TokenAt(tbl, args);
      && t.spec in tbl
      && (Spells(t.spec, t.val, args[..t.consumed]) || (args == [t.spec.name] && t.val == "" && t.consumed == 1))
  {
    var a, t := args[0], TokenAt(tbl, args);
    SpecIsLongest(tbl, a);
    assert args[..1] == [a];
    if |args| > 1 {
      assert args[..2] == [a, args[1]];
    }
    if HasPrefix(a, t.spec.name) {
      PrefixRest(a, t.spec.name);
    }
  }

  lemma {:induction false} PrefixRest(a: string, name: string)
    requires HasPrefix(a, name)
    ensures a == name + a[|name|..] && (a == name <==> a[|name|..] == "")
  {
    assert a == a[..|name|] + a[|name|..];
  }
}
