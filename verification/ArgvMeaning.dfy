/**
 * What a parsed command line says, by flag name: every field is the values of its own flags in the
 * order they were given, or the last of them, for every argument list.
 */
module ArgvMeaning {
  import opened Bytes
  import opened FlagTable
  import opened Argv
  import opened Spelling

  // ---- The tokens of a line ----

  /** Everything behind "--" is an input. */
  function AllInputs(args: seq<string>): (ts: seq<Token>)
  {
    if args == [] then [] else [Input(args[0])] + AllInputs(args[1..])
  }

  function Tokens(tbl: Table, args: seq<string>): (ts: seq<Token>)
    decreases |args|
  {
    if args == [] then []
    else
      match TokenAt(tbl, args)
      case End => AllInputs(args[1..])
      case Input(a) => [Input(a)] + Tokens(tbl, args[1..])
      case Stray(a) => [Stray(a)] + Tokens(tbl, args[1..])
      case Flag(s, v, n) => [Flag(s, v, n)] + Tokens(tbl, args[n..])
  }

  // ---- Which flags a field is made of ----

  datatype ListField =
    | InputList | IncludeList | SystemIncludeList | UndefineList | LibraryList | LibraryDirList
    | WarningList | FeatureList | MachineList | PassthroughList | UnknownList

  function ListOf(inv: Inv, f: ListField): seq<string>
  {
    match f
    case InputList => inv.inputs
    case IncludeList => inv.includes
    case SystemIncludeList => inv.systemIncludes
    case UndefineList => inv.undefines
    case LibraryList => inv.libraries
    case LibraryDirList => inv.libraryDirs
    case WarningList => inv.warnings
    case FeatureList => inv.features
    case MachineList => inv.machine
    case PassthroughList => inv.passthrough
    case UnknownList => inv.unknown
  }

  predicate Feeds(name: string, f: ListField)
  {
    match f
    case IncludeList => name == "-I"
    case SystemIncludeList => name == "-isystem" || name == "-iquote"
    case UndefineList => name == "-U"
    case LibraryList => name == "-l"
    case LibraryDirList => name == "-L"
    case WarningList => name == "-W"
    case FeatureList => name == "-f"
    case MachineList => name == "-m"
    case InputList => false
    case PassthroughList => false
    case UnknownList => false
  }

  /** A flag that only some tool reads is kept as it was written. */
  function Passed(name: string, v: string): seq<string>
  {
    if !CategoryOf(name).CatPassthrough? then []
    else if Toolwise(name) then [name + v]
    else if name == "-MD" || name == "-MMD" then [name]
    else [name, v]
  }

  /** What a flag adds to a list. */
  function Adds(name: string, v: string, f: ListField): seq<string>
  {
    if f.PassthroughList? then Passed(name, v) else if Feeds(name, f) then [v] else []
  }

  function Gives(t: Token, f: ListField): seq<string>
  {
    match t
    case End => []
    case Input(a) => if f.InputList? then [a] else []
    case Stray(a) => if f.UnknownList? then [a] else []
    case Flag(s, v, _) => Adds(s.name, v, f)
  }

  function Collect(ts: seq<Token>, f: ListField): seq<string>
  {
    if ts == [] then [] else Gives(ts[0], f) + Collect(ts[1..], f)
  }

  datatype Setting = OutputFile | Standard | OptimLevel | DebugLevel | Language

  function SettingOf(inv: Inv, k: Setting): string
  {
    match k
    case OutputFile => inv.output
    case Standard => inv.std
    case OptimLevel => inv.optim
    case DebugLevel => inv.debug
    case Language => inv.language
  }

  function Setter(k: Setting): string
  {
    match k
    case OutputFile => "-o"
    case Standard => "-std="
    case OptimLevel => "-O"
    case DebugLevel => "-g"
    case Language => "-x"
  }

  predicate IsFlag(t: Token, name: string)
  {
    t.Flag? && t.spec.name == name
  }

  /** The value of the last such flag, `was` if there is none. */
  function Last(ts: seq<Token>, name: string, was: string): string
  {
    if ts == [] then was else Last(ts[1..], name, if IsFlag(ts[0], name) then ts[0].val else was)
  }

  predicate Selects(name: string, m: Mode)
  {
    match m
    case CompileMode => name == "-c"
    case PreprocessMode => name == "-E"
    case AssembleMode => name == "-S"
    case DepOnlyMode => name == "-M" || name == "-MM"
    case LinkMode => false
    case UnknownMode => false
  }

  predicate IsMode(name: string)
  {
    || Selects(name, CompileMode) || Selects(name, PreprocessMode)
    || Selects(name, AssembleMode) || Selects(name, DepOnlyMode)
  }

  /** The name of the last mode flag, `was` if there is none. */
  function LastMode(ts: seq<Token>, was: string): string
  {
    if ts == [] then was
    else LastMode(ts[1..], if ts[0].Flag? && IsMode(ts[0].spec.name) then ts[0].spec.name else was)
  }

  /** What `-D v` makes of macro `name`, if it is about it. */
  function Macro(v: string, name: string): (r: Option<string>)
  {
    if '=' in name then None
    else if v == name then Some("")
    else if HasPrefix(v, name + "=") then Some(v[|name| + 1..])
    else None
  }

  function LastMacro(ts: seq<Token>, name: string, was: Option<string>): (r: Option<string>)
  {
    if ts == [] then was
    else LastMacro(ts[1..], name, if IsFlag(ts[0], "-D") && Macro(ts[0].val, name).Some? then Macro(ts[0].val, name)
                   else was)
  }

  function Value(m: map<string, string>, name: string): (r: Option<string>)
  {
    if name in m then Some(m[name]) else None
  }

  // ---- One flag ----

  function ListCategory(f: ListField): Category
  {
    match f
    case IncludeList => CatInclude
    case SystemIncludeList => CatSystemInclude
    case UndefineList => CatUndefine
    case LibraryList => CatLibrary
    case LibraryDirList => CatLibraryDir
    case WarningList => CatWarning
    case FeatureList => CatFeature
    case MachineList => CatMachine
    case InputList => CatPassthrough
    case PassthroughList => CatPassthrough
    case UnknownList => CatPassthrough
  }

  lemma {:induction false} FeedsIs(name: string, f: ListField)
    requires !f.InputList? && !f.PassthroughList? && !f.UnknownList?
    ensures Feeds(name, f) <==> CategoryOf(name) == ListCategory(f)
  {
  }

  lemma {:induction false} CategoryAdds(inv: Inv, s: FlagSpec, v: string, f: ListField)
    requires !f.InputList? && !f.PassthroughList? && !f.UnknownList?
    ensures ListOf(Apply(inv, s, v), f) == ListOf(inv, f) + if s.category == ListCategory(f) then [v] else []
  {
  }

  lemma {:induction false} PassedIs(s: FlagSpec, v: string)
    requires s == EntryOf(s.name)
    ensures Passed(s.name, v) == if s.category.CatPassthrough? then Pass(s, v) else []
  {
  }

  lemma {:induction false} CategoryPasses(inv: Inv, s: FlagSpec, v: string)
    ensures Apply(inv, s, v).passthrough == inv.passthrough + if s.category.CatPassthrough? then Pass(s, v) else []
    ensures Apply(inv, s, v).inputs == inv.inputs && Apply(inv, s, v).unknown == inv.unknown
  {
  }

  lemma {:induction false} FlagAdds(inv: Inv, s: FlagSpec, v: string, f: ListField)
    requires s == EntryOf(s.name)
    ensures ListOf(Apply(inv, s, v), f) == ListOf(inv, f) + Adds(s.name, v, f)
  {
    if f.InputList? || f.PassthroughList? || f.UnknownList? {
      PassedIs(s, v);
      CategoryPasses(inv, s, v);
    } else {
      FeedsIs(s.name, f);
      CategoryAdds(inv, s, v, f);
    }
  }

  function SettingCategory(k: Setting): Category
  {
    match k
    case OutputFile => CatOutput
    case Standard => CatStandard
    case OptimLevel => CatOptim
    case DebugLevel => CatDebug
    case Language => CatLanguage
  }

  lemma {:induction false} SetterIs(name: string, k: Setting)
    ensures name == Setter(k) <==> CategoryOf(name) == SettingCategory(k)
  {
  }

  lemma {:induction false} CategorySets(inv: Inv, s: FlagSpec, v: string, k: Setting)
    ensures SettingOf(Apply(inv, s, v), k) == if s.category == SettingCategory(k) then v else SettingOf(inv, k)
  {
  }

  lemma {:induction false} FlagSets(inv: Inv, s: FlagSpec, v: string, k: Setting)
    requires s == EntryOf(s.name)
    ensures SettingOf(Apply(inv, s, v), k) == if s.name == Setter(k) then v else SettingOf(inv, k)
  {
    SetterIs(s.name, k);
    CategorySets(inv, s, v, k);
  }

  lemma {:induction false} FlagSelects(inv: Inv, s: FlagSpec, v: string)
    requires s == EntryOf(s.name)
    ensures forall m | Selects(s.name, m) :: Apply(inv, s, v).mode == m
    ensures !IsMode(s.name) ==> Apply(inv, s, v).mode == inv.mode
  {
  }

  lemma {:induction false} IndexOfIs(s: string, c: char, i: nat)
    requires i <= |s| && (forall k | 0 <= k < i :: s[k] != c) && (i < |s| ==> s[i] == c)
    ensures IndexOf(s, c) == i
  {
  }

  lemma {:induction false} MacroIs(v: string, name: string)
    ensures Macro(v, name) == if NameOf(v) == name then Some(ValueOf(v)) else None
  {
    var i := IndexOf(v, '=');
    if '=' !in name {
      if v == name {
        IndexOfIs(v, '=', |v|);
      } else if HasPrefix(v, name + "=") {
        assert v[..|name| + 1] == name + "=";
        assert forall k | 0 <= k < |name| :: v[k] == v[..|name| + 1][k] == name[k];
        IndexOfIs(v, '=', |name|);
        assert v[..|name|] == name;
      } else if i < |v| {
        assert v[..i + 1] == v[..i] + "=";
      }
    }
  }

  lemma {:induction false} FlagDefines(inv: Inv, s: FlagSpec, v: string, name: string)
    requires s == EntryOf(s.name)
    ensures Value(Apply(inv, s, v).defines, name)
            == if s.name == "-D" && Macro(v, name).Some? then Macro(v, name) else Value(inv.defines, name)
  {
    MacroIs(v, name);
  }

  // ---- The whole line ----

  lemma {:induction false} InputsCollect(args: seq<string>, f: ListField)
    ensures Collect(AllInputs(args), f) == if f.InputList? then args else []
    decreases |args|
  {
    if args != [] {
      InputsCollect(args[1..], f);
      OneMore(Input(args[0]), AllInputs(args[1..]), f);
      assert [args[0]] + args[1..] == args;
    }
  }

  lemma {:induction false} OneMore(t: Token, ts: seq<Token>, f: ListField)
    ensures Collect([t] + ts, f) == Gives(t, f) + Collect(ts, f)
  {
    assert ([t] + ts)[1..] == ts;
  }

  lemma {:induction false} KnownToken(tbl: Table, args: seq<string>)
    requires KnownTable(tbl) && args != [] && TokenAt(tbl, args).Flag?
    ensures TokenAt(tbl, args).spec == EntryOf(TokenAt(tbl, args).spec.name)
  {
    SpecIsLongest(tbl, args[0]);
  }

  /** What the first token makes of the fields, and where the next one starts. */
  function First(tbl: Table, inv: Inv, args: seq<string>): (r: (Inv, nat))
    requires args != [] && !TokenAt(tbl, args).End?
    ensures 1 <= r.1 <= |args|
  {
    match TokenAt(tbl, args)
    case Input(a) => (inv.(inputs := inv.inputs + [a]), 1)
    case Stray(a) => (inv.(unknown := inv.unknown + [a]), 1)
    case Flag(s, v, n) => (Apply(inv, s, v), n)
  }

  lemma {:induction false} FirstOf(tbl: Table, inv: Inv, args: seq<string>)
    requires args != [] && !TokenAt(tbl, args).End?
    ensures
      var (next, n) := First(tbl, inv, args);
      && ParseAll(tbl, inv, args) == ParseAll(tbl, next, args[n..])
      && Tokens(tbl, args) == [TokenAt(tbl, args)] + Tokens(tbl, args[n..])
  {
  }

  lemma {:induction false} FirstGives(tbl: Table, inv: Inv, args: seq<string>, f: ListField)
    requires KnownTable(tbl) && args != [] && !TokenAt(tbl, args).End?
    ensures ListOf(First(tbl, inv, args).0, f) == ListOf(inv, f) + Gives(TokenAt(tbl, args), f)
  {
    var t := TokenAt(tbl, args);
    if t.Flag? {
      KnownToken(tbl, args);
      FlagAdds(inv, t.spec, t.val, f);
    }
  }

  /** Every list field is the values of its own flags, in order. */
  lemma {:induction false} ListsAre(tbl: Table, inv: Inv, args: seq<string>, f: ListField)
    requires KnownTable(tbl)
    ensures ListOf(ParseAll(tbl, inv, args), f) == ListOf(inv, f) + Collect(Tokens(tbl, args), f)
    decreases |args|
  {
    if args != [] {
      if TokenAt(tbl, args).End? {
        InputsCollect(args[1..], f);
      } else {
        var (next, n) := First(tbl, inv, args);
        FirstOf(tbl, inv, args);
        FirstGives(tbl, inv, args, f);
        ListsAre(tbl, next, args[n..], f);
        OneMore(TokenAt(tbl, args), Tokens(tbl, args[n..]), f);
        Assoc(ListOf(inv, f), Gives(TokenAt(tbl, args), f), Collect(Tokens(tbl, args[n..]), f));
      }
    }
  }

  lemma {:induction false} LastOfInputs(args: seq<string>, name: string, was: string)
    ensures Last(AllInputs(args), name, was) == was
    decreases |args|
  {
    if args != [] {
      assert AllInputs(args)[1..] == AllInputs(args[1..]);
      LastOfInputs(args[1..], name, was);
    }
  }

  lemma {:induction false} FirstSets(tbl: Table, inv: Inv, args: seq<string>, k: Setting)
    requires KnownTable(tbl) && args != [] && !TokenAt(tbl, args).End?
    ensures
      var t := TokenAt(tbl, args);
      SettingOf(First(tbl, inv, args).0, k) == if IsFlag(t, Setter(k)) then t.val else SettingOf(inv, k)
  {
    var t := TokenAt(tbl, args);
    if t.Flag? {
      KnownToken(tbl, args);
      FlagSets(inv, t.spec, t.val, k);
    }
  }

  /** Every setting is the value of the last of its own flags. */
  lemma {:induction false} SettingsAre(tbl: Table, inv: Inv, args: seq<string>, k: Setting)
    requires KnownTable(tbl)
    ensures SettingOf(ParseAll(tbl, inv, args), k) == Last(Tokens(tbl, args), Setter(k), SettingOf(inv, k))
    decreases |args|
  {
    if args != [] {
      if TokenAt(tbl, args).End? {
        LastOfInputs(args[1..], Setter(k), SettingOf(inv, k));
      } else {
        var (next, n) := First(tbl, inv, args);
        FirstOf(tbl, inv, args);
        FirstSets(tbl, inv, args, k);
        SettingsAre(tbl, next, args[n..], k);
        assert Tokens(tbl, args)[1..] == Tokens(tbl, args[n..]);
      }
    }
  }

  lemma {:induction false} MacrosOfInputs(args: seq<string>, name: string, was: Option<string>)
    ensures LastMacro(AllInputs(args), name, was) == was
    decreases |args|
  {
    if args != [] {
      assert AllInputs(args)[1..] == AllInputs(args[1..]);
      MacrosOfInputs(args[1..], name, was);
    }
  }

  lemma {:induction false} FirstDefines(tbl: Table, inv: Inv, args: seq<string>, name: string)
    requires KnownTable(tbl) && args != [] && !TokenAt(tbl, args).End?
    ensures
      var t := TokenAt(tbl, args);
      Value(First(tbl, inv, args).0.defines, name)
      == if IsFlag(t, "-D") && Macro(t.val, name).Some? then Macro(t.val, name) else Value(inv.defines, name)
  {
    var t := TokenAt(tbl, args);
    if t.Flag? {
      KnownToken(tbl, args);
      FlagDefines(inv, t.spec, t.val, name);
    }
  }

  /** A macro has the value the last -D about it gives it. */
  lemma {:induction false} DefinesAre(tbl: Table, inv: Inv, args: seq<string>, name: string)
    requires KnownTable(tbl)
    ensures Value(ParseAll(tbl, inv, args).defines, name)
            == LastMacro(Tokens(tbl, args), name, Value(inv.defines, name))
    decreases |args|
  {
    if args != [] {
      if TokenAt(tbl, args).End? {
        MacrosOfInputs(args[1..], name, Value(inv.defines, name));
      } else {
        var (next, n) := First(tbl, inv, args);
        FirstOf(tbl, inv, args);
        FirstDefines(tbl, inv, args, name);
        DefinesAre(tbl, next, args[n..], name);
        assert Tokens(tbl, args)[1..] == Tokens(tbl, args[n..]);
      }
    }
  }

  lemma {:induction false} ModesOfInputs(args: seq<string>, was: string)
    ensures LastMode(AllInputs(args), was) == was
    decreases |args|
  {
    if args != [] {
      assert AllInputs(args)[1..] == AllInputs(args[1..]);
      ModesOfInputs(args[1..], was);
    }
  }

  /** The mode is the one named `was`; without a name it is `m`. */
  predicate ModeNamed(inv: Inv, was: string, m: Mode)
  {
    if was == "" then inv.mode == m else Selects(was, inv.mode)
  }

  lemma {:induction false} FirstSelects(tbl: Table, inv: Inv, args: seq<string>, was: string, m: Mode)
    requires KnownTable(tbl) && args != [] && !TokenAt(tbl, args).End? && ModeNamed(inv, was, m)
    ensures
      var t := TokenAt(tbl, args);
      ModeNamed(First(tbl, inv, args).0, if t.Flag? && IsMode(t.spec.name) then t.spec.name else was, m)
  {
    var t := TokenAt(tbl, args);
    if t.Flag? {
      KnownToken(tbl, args);
      FlagSelects(inv, t.spec, t.val);
    }
  }

  /** The mode is the one the last mode flag selects. */
  lemma {:induction false} ModeIs(tbl: Table, inv: Inv, args: seq<string>, was: string, m: Mode)
    requires KnownTable(tbl) && ModeNamed(inv, was, m)
    ensures ModeNamed(ParseAll(tbl, inv, args), LastMode(Tokens(tbl, args), was), m)
    decreases |args|
  {
    if args != [] {
      if TokenAt(tbl, args).End? {
        ModesOfInputs(args[1..], was);
      } else {
        var t := TokenAt(tbl, args);
        var (next, n) := First(tbl, inv, args);
        FirstOf(tbl, inv, args);
        FirstSelects(tbl, inv, args, was, m);
        ModeIs(tbl, next, args[n..], if t.Flag? && IsMode(t.spec.name) then t.spec.name else was, m);
        assert Tokens(tbl, args)[1..] == Tokens(tbl, args[n..]);
      }
    }
  }

  // ---- The parse of a line ----

  /** The end of the parse touches only an unknown mode and a missing output. */
  lemma {:induction false} FinishKeeps(inv: Inv)
    ensures Finish(inv).(mode := inv.mode, output := inv.output) == inv
    ensures Finish(inv).mode == if inv.mode == UnknownMode then LinkMode else inv.mode
    ensures inv.output != "" ==> Finish(inv).output == inv.output
  {
  }

  lemma {:induction false} FieldsKept(a: Inv, b: Inv)
    requires b.(mode := a.mode, output := a.output) == a
    ensures forall f :: ListOf(b, f) == ListOf(a, f)
    ensures forall k: Setting | !k.OutputFile? :: SettingOf(b, k) == SettingOf(a, k)
    ensures b.defines == a.defines
  {
  }

  lemma {:induction false} ParsedLists(tbl: Table, args: seq<string>, f: ListField)
    requires GnuTable(tbl)
    ensures ListOf(Parse(tbl, args), f) == Collect(Tokens(tbl, args), f)
  {
    var inv, blank := ParseAll(tbl, Blank, args), Blank;
    GnuKnown(tbl);
    ListsAre(tbl, blank, args, f);
    Nil(Collect(Tokens(tbl, args), f));
    FinishKeeps(inv);
    FieldsKept(inv, Finish(inv));
  }

  lemma {:induction false} ParsedSettings(tbl: Table, args: seq<string>, k: Setting)
    requires GnuTable(tbl) && (k.OutputFile? ==> Last(Tokens(tbl, args), "-o", "") != "")
    ensures SettingOf(Parse(tbl, args), k) == Last(Tokens(tbl, args), Setter(k), "")
  {
    var inv, blank := ParseAll(tbl, Blank, args), Blank;
    GnuKnown(tbl);
    SettingsAre(tbl, blank, args, k);
    FinishKeeps(inv);
    FieldsKept(inv, Finish(inv));
  }

  lemma {:induction false} ParsedMacros(tbl: Table, args: seq<string>, name: string)
    requires GnuTable(tbl)
    ensures Value(Parse(tbl, args).defines, name) == LastMacro(Tokens(tbl, args), name, None)
  {
    var inv, blank := ParseAll(tbl, Blank, args), Blank;
    GnuKnown(tbl);
    DefinesAre(tbl, blank, args, name);
    FinishKeeps(inv);
    FieldsKept(inv, Finish(inv));
  }

  lemma {:induction false} ParsedMode(tbl: Table, args: seq<string>)
    requires GnuTable(tbl)
    ensures
      var m := LastMode(Tokens(tbl, args), "");
      if m == "" then Parse(tbl, args).mode == LinkMode else Selects(m, Parse(tbl, args).mode)
  {
    var inv, blank, none := ParseAll(tbl, Blank, args), Blank, "";
    GnuKnown(tbl);
    ModeIs(tbl, blank, args, none, UnknownMode);
    FinishKeeps(inv);
  }

  // ---- Flags as they are spelled ----

  lemma {:induction false} TokensJoin(tbl: Table, args: seq<string>, more: seq<string>)
    requires Whole(tbl, args)
    ensures Tokens(tbl, args + more) == Tokens(tbl, args) + Tokens(tbl, more)
    decreases |args|
  {
    if args == [] {
      Nil(more);
      Nil(Tokens(tbl, more));
    } else {
      TokenStays(tbl, args, more);
      var t := TokenAt(tbl, args);
      var n := if t.Flag? then t.consumed else 1;
      assert (args + more)[n..] == args[n..] + more;
      TokensJoin(tbl, args[n..], more);
      Assoc([t], Tokens(tbl, args[n..]), Tokens(tbl, more));
    }
  }

  /** A flag spelled behind complete flags is read as that flag; what follows is read as if alone. */
  lemma {:induction false} SpelledIn(tbl: Table, pre: seq<string>, s: FlagSpec, v: string, args: seq<string>,
                                     post: seq<string>)
    requires GnuTable(tbl) && Whole(tbl, pre) && s in tbl && Spells(s, v, args) && OwnValue(s, v)
    ensures Tokens(tbl, pre + args + post) == Tokens(tbl, pre) + ([Flag(s, v, |args|)] + Tokens(tbl, post))
  {
    GnuKnown(tbl);
    SpelledToken(tbl, s, v, args, post);
    assert (args + post)[|args|..] == post;
    TokensJoin(tbl, pre, args + post);
    Assoc(pre, args, post);
  }

  lemma {:induction false} CollectJoins(a: seq<Token>, b: seq<Token>, f: ListField)
    ensures Collect(a + b, f) == Collect(a, f) + Collect(b, f)
    decreases |a|
  {
    if a == [] {
      Nil(b);
      Nil(Collect(b, f));
    } else {
      assert (a + b)[1..] == a[1..] + b;
      CollectJoins(a[1..], b, f);
      Assoc(Gives(a[0], f), Collect(a[1..], f), Collect(b, f));
    }
  }

  /** Such a flag adds its value to the list it is named for, in its place, and to no other. */
  lemma {:induction false} FlagListed(tbl: Table, pre: seq<string>, s: FlagSpec, v: string, args: seq<string>,
                                      post: seq<string>, f: ListField)
    requires GnuTable(tbl) && Whole(tbl, pre) && s in tbl && Spells(s, v, args) && OwnValue(s, v)
    ensures ListOf(Parse(tbl, pre + args + post), f)
            == ListOf(Parse(tbl, pre), f) + (Adds(s.name, v, f) + Collect(Tokens(tbl, post), f))
  {
    SpelledIn(tbl, pre, s, v, args, post);
    ParsedLists(tbl, pre + args + post, f);
    ParsedLists(tbl, pre, f);
    CollectJoins(Tokens(tbl, pre), [Flag(s, v, |args|)] + Tokens(tbl, post), f);
    OneMore(Flag(s, v, |args|), Tokens(tbl, post), f);
  }

  predicate NoFlag(ts: seq<Token>, name: string)
  {
    forall i | 0 <= i < |ts| :: !IsFlag(ts[i], name)
  }

  lemma {:induction false} LastIs(a: seq<Token>, t: Token, b: seq<Token>, name: string, was: string)
    requires NoFlag(b, name)
    ensures IsFlag(t, name) ==> Last(a + ([t] + b), name, was) == t.val
    ensures !IsFlag(t, name) ==> Last(a + ([t] + b), name, was) == Last(a, name, was)
    decreases |a| + |b|
  {
    var all := a + ([t] + b);
    if a != [] {
      assert all[1..] == a[1..] + ([t] + b);
      LastIs(a[1..], t, b, name, if IsFlag(a[0], name) then a[0].val else was);
    } else {
      assert all == [t] + b && all[1..] == b;
      LastNone(b, name, if IsFlag(t, name) then t.val else was);
    }
  }

  lemma {:induction false} LastNone(ts: seq<Token>, name: string, was: string)
    requires NoFlag(ts, name)
    ensures Last(ts, name, was) == was
    decreases |ts|
  {
    if ts != [] {
      assert forall i | 0 <= i < |ts[1..]| :: ts[1..][i] == ts[i + 1];
      LastNone(ts[1..], name, was);
    }
  }

  function Written(k: Setting, v: string): (args: seq<string>)
  {
    match k
    case OutputFile => ["-o", v]
    case Standard => ["-std=" + v]
    case OptimLevel => ["-O" + v]
    case DebugLevel => ["-g" + v]
    case Language => ["-x", v]
  }

  lemma {:induction false} SetterListed(name: string, k: Setting)
    requires name == Setter(k)
    ensures EntryOf(name) in GnuFlags
  {
    match k {
      case OutputFile => PathListed(PathFlags[0]);
      case Standard => CodeListed(CodeFlags[0]);
      case OptimLevel => CodeListed(CodeFlags[2]);
      case DebugLevel => CodeListed(CodeFlags[3]);
      case Language => CodeListed(CodeFlags[1]);
    }
  }

  lemma {:induction false} SetterSpells(k: Setting, v: string)
    ensures Spells(EntryOf(Setter(k)), v, Written(k, v)) && OwnValue(EntryOf(Setter(k)), v)
  {
  }

  /** The last -O, -g, -std=, -x or -o decides its own field. */
  lemma {:induction false} SettingSpelled(tbl: Table, pre: seq<string>, v: string, post: seq<string>, k: Setting)
    requires GnuTable(tbl) && Whole(tbl, pre) && NoFlag(Tokens(tbl, post), Setter(k)) && (k.OutputFile? ==> v != "")
    ensures SettingOf(Parse(tbl, pre + Written(k, v) + post), k) == v
  {
    var s, args := EntryOf(Setter(k)), Written(k, v);
    SetterListed(Setter(k), k);
    SetterSpells(k, v);
    SpelledIn(tbl, pre, s, v, args, post);
    LastIs(Tokens(tbl, pre), Flag(s, v, |args|), Tokens(tbl, post), Setter(k), "");
    ParsedSettings(tbl, pre + args + post, k);
  }

  lemma {:induction false} FeederListed(name: string, f: ListField)
    requires Feeds(name, f)
    ensures EntryOf(name) in GnuFlags
  {
    match f {
      case IncludeList => PathListed(PathFlags[1]);
      case SystemIncludeList => PathListed(PathFlags[if name == "-isystem" then 2 else 3]);
      case UndefineList => PathListed(PathFlags[5]);
      case LibraryList => PathListed(PathFlags[6]);
      case LibraryDirList => PathListed(PathFlags[7]);
      case WarningList => CodeListed(CodeFlags[4]);
      case FeatureList => CodeListed(CodeFlags[5]);
      case MachineList => CodeListed(CodeFlags[6]);
    }
  }

  /** -I, -isystem, -iquote, -U, -l, -L, -W, -f and -m put their values into their own lists. */
  lemma {:induction false} ListSpelled(tbl: Table, pre: seq<string>, name: string, v: string, args: seq<string>,
                                       post: seq<string>, f: ListField)
    requires GnuTable(tbl) && Whole(tbl, pre) && Feeds(name, f)
    requires Spells(EntryOf(name), v, args) && OwnValue(EntryOf(name), v)
    ensures ListOf(Parse(tbl, pre + args + post), f)
            == ListOf(Parse(tbl, pre), f) + ([v] + Collect(Tokens(tbl, post), f))
  {
    FeederListed(name, f);
    FlagListed(tbl, pre, EntryOf(name), v, args, post, f);
  }

  predicate NoMode(ts: seq<Token>)
  {
    forall i | 0 <= i < |ts| && ts[i].Flag? :: !IsMode(ts[i].spec.name)
  }

  lemma {:induction false} LastModeIs(a: seq<Token>, t: Token, b: seq<Token>, was: string)
    requires t.Flag? && IsMode(t.spec.name) && NoMode(b)
    ensures LastMode(a + ([t] + b), was) == t.spec.name
    decreases |a|
  {
    var all := a + ([t] + b);
    if a != [] {
      assert all[1..] == a[1..] + ([t] + b);
      LastModeIs(a[1..], t, b, if a[0].Flag? && IsMode(a[0].spec.name) then a[0].spec.name else was);
    } else {
      assert all == [t] + b && all[1..] == b;
      NoLaterMode(b, t.spec.name);
    }
  }

  lemma {:induction false} NoLaterMode(ts: seq<Token>, was: string)
    requires NoMode(ts)
    ensures LastMode(ts, was) == was
    decreases |ts|
  {
    if ts != [] {
      assert forall i | 0 <= i < |ts[1..]| :: ts[1..][i] == ts[i + 1];
      NoLaterMode(ts[1..], was);
    }
  }

  lemma {:induction false} ModeListed(name: string)
    requires IsMode(name)
    ensures EntryOf(name) in GnuFlags && name != "-W" && name != "" && EntryOf(name).value.NoValue?
  {
    assert ModeFlags[0] == EntryOf("-c") && ModeFlags[1] == EntryOf("-E") && ModeFlags[2] == EntryOf("-S");
    assert ModeFlags[3] == EntryOf("-M") && ModeFlags[4] == EntryOf("-MM");
  }

  /** The last of -c, -E, -S, -M and -MM decides the mode. */
  lemma {:induction false} ModeSpelled(tbl: Table, pre: seq<string>, name: string, post: seq<string>, m: Mode)
    requires GnuTable(tbl) && Whole(tbl, pre) && Selects(name, m) && NoMode(Tokens(tbl, post))
    ensures Parse(tbl, pre + [name] + post).mode == m
  {
    var s, args := EntryOf(name), [name];
    ModeListed(name);
    SpelledIn(tbl, pre, s, "", args, post);
    LastModeIs(Tokens(tbl, pre), Flag(s, "", 1), Tokens(tbl, post), "");
    ParsedMode(tbl, pre + args + post);
  }

  predicate NoMacro(ts: seq<Token>, name: string)
  {
    forall i | 0 <= i < |ts| :: !(IsFlag(ts[i], "-D") && Macro(ts[i].val, name).Some?)
  }

  lemma {:induction false} LastMacroIs(a: seq<Token>, t: Token, b: seq<Token>, name: string, was: Option<string>)
    requires IsFlag(t, "-D") && Macro(t.val, name).Some? && NoMacro(b, name)
    ensures LastMacro(a + ([t] + b), name, was) == Macro(t.val, name)
    decreases |a|
  {
    var all := a + ([t] + b);
    if a != [] {
      assert all[1..] == a[1..] + ([t] + b);
      LastMacroIs(a[1..], t, b, name,
                  if IsFlag(a[0], "-D") && Macro(a[0].val, name).Some? then Macro(a[0].val, name) else was);
    } else {
      assert all == [t] + b && all[1..] == b;
      NoLaterMacro(b, name, Macro(t.val, name));
    }
  }

  lemma {:induction false} NoLaterMacro(ts: seq<Token>, name: string, was: Option<string>)
    requires NoMacro(ts, name)
    ensures LastMacro(ts, name, was) == was
    decreases |ts|
  {
    if ts != [] {
      assert forall i | 0 <= i < |ts[1..]| :: ts[1..][i] == ts[i + 1];
      NoLaterMacro(ts[1..], name, was);
    }
  }

  /** A definition as it is written: with a value, or without one. */
  predicate Defining(def: string, name: string, value: string)
  {
    '=' !in name && (def == name + ("=" + value) || (def == name && value == ""))
  }

  lemma {:induction false} DefiningIs(def: string, name: string, value: string)
    requires Defining(def, name, value)
    ensures Macro(def, name) == Some(value)
  {
    if def != name {
      assert def[..|name| + 1] == name + "=" && def[|name| + 1..] == value;
    }
  }

  /** The last -D about a macro decides its value. */
  lemma {:induction false} MacroSpelled(tbl: Table, pre: seq<string>, def: string, name: string, value: string,
                                        args: seq<string>, post: seq<string>)
    requires GnuTable(tbl) && Whole(tbl, pre) && Defining(def, name, value) && NoMacro(Tokens(tbl, post), name)
    requires args == ["-D", def] || (def != "" && args == ["-D" + def])
    ensures
      var defines := Parse(tbl, pre + args + post).defines;
      name in defines && defines[name] == value
  {
    var s := DefineFlag;
    assert PathFlags[4] == s;
    SpelledIn(tbl, pre, s, def, args, post);
    DefiningIs(def, name, value);
    LastMacroIs(Tokens(tbl, pre), Flag(s, def, |args|), Tokens(tbl, post), name, None);
    ParsedMacros(tbl, pre + args + post, name);
  }
}
