/**
 * Parsing a compiler command line (internal/compiler/parser.go, after response files are expanded)
 * and the rewriting for preprocessed source (internal/compiler/rewrite.go:377-477).
 */
module Argv {
  import opened Bytes
  import opened FlagTable

  /** The sorted flag table. */
  type Table = seq<FlagSpec>

  datatype Mode = UnknownMode | CompileMode | LinkMode | PreprocessMode | AssembleMode | DepOnlyMode

  /** The parsed command line. */
  datatype Inv = Inv(mode: Mode, inputs: seq<string>, output: string, includes: seq<string>,
                     systemIncludes: seq<string>,
                     defines: map<string, string>, undefines: seq<string>, libraries: seq<string>,
                         libraryDirs: seq<string>,
                     std: string, optim: string, debug: string, warnings: seq<string>, features: seq<string>,
                     machine: seq<string>, language: string, passthrough: seq<string>, unknown: seq<string>)

  const Blank := Inv(UnknownMode, [], "", [], [], map[], [], [], [], "", "", "", [], [], [], "", [], [])

  // ---- One token ----

  datatype Token = End | Input(arg: string) | Stray(arg: string) | Flag(spec: FlagSpec, val: string, consumed: nat)

  predicate Dashed(a: string)
  {
    HasPrefix(a, "-") && a != "-"
  }

  predicate TakesNext(spec: FlagSpec, arg: string)
  {
    spec.value.SeparateValue? || (spec.value.JoinedOrSeparate? && arg == spec.name)
  }

  /** What stands at the front of a non-empty argument list. */
  function TokenAt(tbl: Table, args: seq<string>): (t: Token)
    requires args != []
    ensures t.Flag? ==> 1 <= t.consumed <= |args|
  {
    var a := args[0];
    if a == "--" then End
    else if !Dashed(a) then Input(a)
    else if Spec(tbl, a) == [] then Stray(a)
    else
      var spec := Spec(tbl, a)[0];
      if spec.value.NoValue? then Flag(spec, "", 1)
      else if TakesNext(spec, a) then
        if |args| > 1 then Flag(spec, args[1], 2) else Flag(spec, "", 1)
      else Flag(spec, if |spec.name| <= |a| then a[|spec.name|..] else "", 1)
  }

  // ---- applyFlag ----

  function IndexOf(s: string, c: char): (i: nat)
    ensures i <= |s| && (forall k | 0 <= k < i :: s[k] != c) && (i < |s| ==> s[i] == c)
  {
    if s == [] || s[0] == c then 0 else 1 + IndexOf(s[1..], c)
  }

  function NameOf(def: string): (n: string)
    ensures '=' !in n
  {
    def[..IndexOf(def, '=')]
  }

  function ValueOf(def: string): (v: string)
  {
    var i := IndexOf(def, '=');
    if i < |def| then def[i + 1..] else ""
  }

  function Define(inv: Inv, def: string): (r: Inv)
  {
    inv.(defines := inv.defines[NameOf(def) := ValueOf(def)])
  }

  function ModeOf(name: string, was: Mode): Mode
  {
    if name == "-c" then CompileMode
    else if name == "-E" then PreprocessMode
    else if name == "-S" then AssembleMode
    else if name == "-M" || name == "-MM" then DepOnlyMode
    else was
  }

  function Pass(spec: FlagSpec, v: string): (r: seq<string>)
  {
    match spec.value
    case NoValue => [spec.name]
    case JoinedValue => [spec.name + v]
    case SeparateValue => [spec.name, v]
    case JoinedOrSeparate => [spec.name, v]
  }

  function Apply(inv: Inv, spec: FlagSpec, v: string): (r: Inv)
  {
    match spec.category
    case CatMode => inv.(mode := ModeOf(spec.name, inv.mode))
    case CatOutput => inv.(output := v)
    case CatInclude => inv.(includes := inv.includes + [v])
    case CatSystemInclude => inv.(systemIncludes := inv.systemIncludes + [v])
    case CatDefine => Define(inv, v)
    case CatUndefine => inv.(undefines := inv.undefines + [v])
    case CatLibrary => inv.(libraries := inv.libraries + [v])
    case CatLibraryDir => inv.(libraryDirs := inv.libraryDirs + [v])
    case CatStandard => inv.(std := v)
    case CatOptim => inv.(optim := v)
    case CatDebug => inv.(debug := v)
    case CatWarning => inv.(warnings := inv.warnings + [v])
    case CatFeature => inv.(features := inv.features + [v])
    case CatMachine => inv.(machine := inv.machine + [v])
    case CatLanguage => inv.(language := v)
    case CatPassthrough => inv.(passthrough := inv.passthrough + Pass(spec, v))
  }

  // ---- The whole line ----

  function ParseAll(tbl: Table, inv: Inv, args: seq<string>): (r: Inv)
    decreases |args|
  {
    if args == [] then inv
    else
      match TokenAt(tbl, args)
      case End => inv.(inputs := inv.inputs + args[1..])
      case Input(a) => ParseAll(tbl, inv.(inputs := inv.inputs + [a]), args[1..])
      case Stray(a) => ParseAll(tbl, inv.(unknown := inv.unknown + [a]), args[1..])
      case Flag(spec, v, n) => ParseAll(tbl, Apply(inv, spec, v), args[n..])
  }

  function LastOf(s: string, cs: set<char>): (i: int)
    ensures -1 <= i < |s|
  {
    if s == "" then -1 else if s[|s| - 1] in cs then |s| - 1 else LastOf(s[..|s| - 1], cs)
  }

  const Separators: set<char> := {'/', '\\'}

  /** inferDefaultOutput: the object file a compile of one named input leaves behind. */
  function DefaultOutput(inv: Inv, objExt: string): (r: Inv)
  {
    if inv.mode != CompileMode || inv.output != "" || |inv.inputs| != 1 || inv.inputs[0] == "-" then inv
    else
      var input := inv.inputs[0];
      var file := input[LastOf(input, Separators) + 1..];
      var dot := LastOf(file, {'.'});
      var stem := if dot > 0 then file[..dot] else file;
      if stem == "" then inv else inv.(output := stem + objExt)
  }

  lemma {:induction false} LastOfIs(s: string, cs: set<char>, i: int)
    requires -1 <= i < |s| && (i >= 0 ==> s[i] in cs) && forall k | i < k < |s| :: s[k] !in cs
    ensures LastOf(s, cs) == i
    decreases |s|
  {
    if s != "" && s[|s| - 1] !in cs {
      LastOfIs(s[..|s| - 1], cs, i);
    }
  }

  lemma {:induction false} FilePart(dir: string, file: string)
    requires dir != "" ==> dir[|dir| - 1] in Separators
    requires forall c | c in file :: c !in Separators
    ensures LastOf(dir + file, Separators) == |dir| - 1 && (dir + file)[|dir|..] == file
  {
    forall k | |dir| <= k < |dir + file|
      ensures (dir + file)[k] !in Separators
    {
      assert (dir + file)[k] == file[k - |dir|];
    }
    LastOfIs(dir + file, Separators, |dir| - 1);
  }

  lemma {:induction false} StemPart(stem: string, ext: string)
    requires '.' !in ext
    ensures var file := stem + ("." + ext); LastOf(file, {'.'}) == |stem| && file[..|stem|] == stem
  {
    var file := stem + ("." + ext);
    assert file[|stem|] == '.';
    forall k | |stem| < k < |file|
      ensures file[k] != '.'
    {
      assert file[k] == ext[k - |stem| - 1];
    }
    LastOfIs(file, {'.'}, |stem|);
  }

  /** dir/stem.ext leaves stem.o in the working directory, however the directory is written. */
  lemma {:induction false} DefaultOutputIs(inv: Inv, dir: string, stem: string, ext: string)
    requires inv.mode == CompileMode && inv.output == "" && stem != "" && inv.inputs == [dir + (stem + ("." + ext))]
    requires dir != "" ==> dir[|dir| - 1] in Separators
    requires (forall c | c in stem + ("." + ext) :: c !in Separators) && '.' !in ext
    ensures DefaultOutput(inv, ".o") == inv.(output := stem + ".o")
  {
    var file := stem + ("." + ext);
    FilePart(dir, file);
    StemPart(stem, ext);
    OutputFrom(inv, dir + file, file, stem);
  }

  lemma {:induction false} OutputFrom(inv: Inv, input: string, file: string, stem: string)
    requires inv.mode == CompileMode && inv.output == "" && inv.inputs == [input] && stem != "" && |input| > 1
    requires input[LastOf(input, Separators) + 1..] == file
    requires LastOf(file, {'.'}) == |stem| && file[..|stem|] == stem
    ensures DefaultOutput(inv, ".o") == inv.(output := stem + ".o")
  {
  }

  /** A file without an extension, or with none but a leading dot, keeps its whole name. */
  lemma {:induction false} DefaultOutputPlain(inv: Inv, dir: string, file: string)
    requires inv.mode == CompileMode && inv.output == "" && file != "" && inv.inputs == [dir + file]
               && dir + file != "-"
    requires dir != "" ==> dir[|dir| - 1] in Separators
    requires (forall c | c in file :: c !in Separators) && '.' !in file[1..]
    ensures DefaultOutput(inv, ".o") == inv.(output := file + ".o")
  {
    FilePart(dir, file);
    if file[0] == '.' {
      DotAtMost(file, 0);
    } else {
      DotAtMost(file, -1);
    }
  }

  lemma {:induction false} DotAtMost(file: string, i: int)
    requires -1 <= i <= 0 && file != "" && (i == 0 <==> file[0] == '.') && '.' !in file[1..]
    ensures LastOf(file, {'.'}) == i
  {
    forall k | i < k < |file|
      ensures file[k] != '.'
    {
      if k > 0 {
        assert file[k] == file[1..][k - 1];
      }
    }
    LastOfIs(file, {'.'}, i);
  }

  /** Any other invocation keeps the output it has. */
  lemma {:induction false} DefaultOutputElse(inv: Inv, ext: string)
    requires inv.mode != CompileMode || inv.output != "" || |inv.inputs| != 1 || inv.inputs == ["-"]
    ensures DefaultOutput(inv, ext) == inv
  {
  }

  function Finish(inv: Inv): (r: Inv)
  {
    DefaultOutput(if inv.mode == UnknownMode then inv.(mode := LinkMode) else inv, ".o")
  }

  function Parse(tbl: Table, args: seq<string>): (r: Inv)
  {
    Finish(ParseAll(tbl, Blank, args))
  }

  // ---- The parser object ----

  class Invocation {
    const tbl: Table
    var inv: Inv

    constructor (tbl: Table)
      ensures this.tbl == tbl && inv == Blank
    {
      this.tbl := tbl;
      inv := Blank;
    }

    method ApplyFlag(spec: FlagSpec, v: string)
      modifies this
      ensures inv == Apply(old(inv), spec, v)
    {
      match spec.category {
        case CatMode =>
          if spec.name == "-c" {
            inv := inv.(mode := CompileMode);
          } else if spec.name == "-E" {
            inv := inv.(mode := PreprocessMode);
          } else if spec.name == "-S" {
            inv := inv.(mode := AssembleMode);
          } else if spec.name == "-M" || spec.name == "-MM" {
            inv := inv.(mode := DepOnlyMode);
          }
        case CatOutput => inv := inv.(output := v);
        case CatInclude => inv := inv.(includes := inv.includes + [v]);
        case CatSystemInclude => inv := inv.(systemIncludes := inv.systemIncludes + [v]);
        case CatDefine => inv := inv.(defines := inv.defines[NameOf(v) := ValueOf(v)]);
        case CatUndefine => inv := inv.(undefines := inv.undefines + [v]);
        case CatLibrary => inv := inv.(libraries := inv.libraries + [v]);
        case CatLibraryDir => inv := inv.(libraryDirs := inv.libraryDirs + [v]);
        case CatStandard => inv := inv.(std := v);
        case CatOptim => inv := inv.(optim := v);
        case CatDebug => inv := inv.(debug := v);
        case CatWarning => inv := inv.(warnings := inv.warnings + [v]);
        case CatFeature => inv := inv.(features := inv.features + [v]);
        case CatMachine => inv := inv.(machine := inv.machine + [v]);
        case CatLanguage => inv := inv.(language := v);
        case CatPassthrough => inv := inv.(passthrough := inv.passthrough + Pass(spec, v));
      }
    }

    method ParseGNU(args: seq<string>)
      requires inv == Blank
      modifies this
      ensures inv == Parse(tbl, args)
    {
      var i := 0;
      while i < |args|
        invariant 0 <= i <= |args|
        invariant ParseAll(tbl, inv, args[i..]) == ParseAll(tbl, Blank, args)
      {
        var a := args[i];
        assert args[i..][1..] == args[i + 1..];
        if a == "--" {
          inv := inv.(inputs := inv.inputs + args[i + 1..]);
          i := |args|;
          break;
        }
        if !Dashed(a) {
          inv := inv.(inputs := inv.inputs + [a]);
          i := i + 1;
          continue;
        }
        var ok, spec, v, consumed := MatchGNUFlag(tbl, args, i);
        if !ok {
          inv := inv.(unknown := inv.unknown + [a]);
          i := i + 1;
          continue;
        }
        assert args[i..][consumed..] == args[i + consumed..];
        ApplyFlag(spec, v);
        i := i + consumed;
      }
      assert inv == ParseAll(tbl, Blank, args);
      if inv.mode == UnknownMode {
        inv := inv.(mode := LinkMode);
      }
      inv := DefaultOutput(inv, ".o");
    }
  }

  /** The scan of the sorted table; the outcome is the token at `i`. */
  method MatchGNUFlag(tbl: Table, args: seq<string>, i: nat)
                      returns (ok: bool, spec: FlagSpec, v: string, consumed: nat)
    requires i < |args| && Dashed(args[i]) && args[i] != "--"
    ensures TokenAt(tbl, args[i..]) == if ok then Flag(spec, v, consumed) else Stray(args[i])
    ensures ok ==> 1 <= consumed && i + consumed <= |args|
  {
    var arg := args[i];
    assert args[i..][0] == arg && (|args| > i + 1 ==> args[i..][1] == args[i + 1]);
    v, consumed, spec := "", 0, FlagSpec("", NoValue, CatMode);
    var k := 0;
    while k < |tbl|
      invariant 0 <= k <= |tbl|
      invariant Spec(tbl[k..], arg) == Spec(tbl, arg)
    {
      spec := tbl[k];
      assert tbl[k..][1..] == tbl[k + 1..];
      match spec.value {
        case NoValue =>
          if arg == spec.name {
            return true, spec, "", 1;
          }
        case SeparateValue =>
          if arg == spec.name {
            if i + 1 < |args| {
              return true, spec, args[i + 1], 2;
            }
            return true, spec, "", 1;
          }
        case JoinedValue =>
          if HasPrefix(arg, spec.name) {
            return true, spec, arg[|spec.name|..], 1;
          }
        case JoinedOrSeparate =>
          if arg == spec.name {
            if i + 1 < |args| {
              return true, spec, args[i + 1], 2;
            }
            return true, spec, "", 1;
          }
          if HasPrefix(arg, spec.name) {
            return true, spec, arg[|spec.name|..], 1;
          }
      }
      k := k + 1;
    }
    return false, spec, "", 0;
  }

  // ---- Flag boundaries ----

  /** `args` parses as complete tokens whatever follows it. */
  predicate Whole(tbl: Table, args: seq<string>)
    decreases |args|
  {
    args == [] || (match TokenAt(tbl, args)
                   case End => false
                   case Input(_) => Whole(tbl, args[1..])
                   case Stray(_) => Whole(tbl, args[1..])
                   case Flag(spec, _, n) => (TakesNext(spec, args[0]) ==> n == 2) && Whole(tbl, args[n..]))
  }

  lemma {:induction false} TokenStays(tbl: Table, args: seq<string>, more: seq<string>)
    requires args != [] && Whole(tbl, args)
    ensures TokenAt(tbl, args + more) == TokenAt(tbl, args)
  {
  }

  lemma {:induction false} Boundary(tbl: Table, inv: Inv, args: seq<string>, more: seq<string>)
    requires Whole(tbl, args)
    ensures ParseAll(tbl, inv, args + more) == ParseAll(tbl, ParseAll(tbl, inv, args), more)
    decreases |args|
  {
    if args == [] {
      Nil(more);
    } else {
      TokenStays(tbl, args, more);
      match TokenAt(tbl, args) {
        case Input(a) =>
          assert (args + more)[1..] == args[1..] + more;
          Boundary(tbl, inv.(inputs := inv.inputs + [a]), args[1..], more);
        case Stray(a) =>
          assert (args + more)[1..] == args[1..] + more;
          Boundary(tbl, inv.(unknown := inv.unknown + [a]), args[1..], more);
        case Flag(spec, v, n) =>
          assert (args + more)[n..] == args[n..] + more;
          Boundary(tbl, Apply(inv, spec, v), args[n..], more);
      }
    }
  }

  // ---- Rewriting for preprocessed source ----

  predicate IsWerror(arg: string)
  {
    arg == "-Werror" || HasPrefix(arg, "-Werror=")
  }

  predicate Kept(spec: FlagSpec, arg: string)
  {
    KeptCategory(spec.category) && !(spec.category.CatWarning? && IsWerror(arg))
  }

  function Keep(tbl: Table, args: seq<string>): (r: seq<string>)
    decreases |args|
  {
    if args == [] then []
    else
      match TokenAt(tbl, args)
      case End => []
      case Input(_) => Keep(tbl, args[1..])
      case Stray(a) => [a] + Keep(tbl, args[1..])
      case Flag(spec, _, n) => (if Kept(spec, args[0]) then args[..n] else []) + Keep(tbl, args[n..])
  }

  /** gnuKeepForPreprocessed. */
  method KeepForPreprocessed(tbl: Table, args: seq<string>) returns (out: seq<string>)
    ensures out == Keep(tbl, args)
  {
    out := [];
    var i := 0;
    while i < |args|
      invariant 0 <= i <= |args|
      invariant out + Keep(tbl, args[i..]) == Keep(tbl, args)
    {
      var a := args[i];
      assert args[i..][1..] == args[i + 1..];
      if a == "--" {
        Nil(out);
        return;
      }
      if !Dashed(a) {
        i := i + 1;
        continue;
      }
      var ok, spec, v, n := MatchGNUFlag(tbl, args, i);
      if !ok {
        Assoc(out, [a], Keep(tbl, args[i + 1..]));
        out := out + [a];
        i := i + 1;
        continue;
      }
      assert args[i..][n..] == args[i + n..] && args[i..][..n] == args[i..i + n];
      Assoc(out, args[i..i + n], Keep(tbl, args[i + n..]));
      Nil(Keep(tbl, args[i + n..]));
      if KeptCategory(spec.category) && !(spec.category.CatWarning? && IsWerror(a)) {
        out := out + args[i..i + n];
      }
      i := i + n;
    }
    Nil(out);
  }

  function RewriteArgs(tbl: Table, raw: seq<string>, output: string, srcPath: string, lang: string): (args: seq<string>)
  {
    ["-x", lang] + (["-c"] + ([srcPath] + (if output != "" then ["-o", output] else []))) + Keep(tbl, raw)
  }

  // ---- What survives ----

  function DropErrors(ws: seq<string>): (r: seq<string>)
  {
    if ws == [] then []
    else
      var r, w := DropErrors(ws[..|ws| - 1]), ws[|ws| - 1];
      if w == "error" || HasPrefix(w, "error=") then r else r + [w]
  }

  /** `b` has the code generation settings of `a`, its warnings short of the promotions to errors. */
  predicate Mirrors(a: Inv, b: Inv)
  {
    && b.std == a.std && b.optim == a.optim && b.debug == a.debug
    && b.features == a.features && b.machine == a.machine && b.unknown == a.unknown
    && b.warnings == DropErrors(a.warnings)
  }

  /** Everything the kept flags do not touch. */
  predicate SameRest(b: Inv, r: Inv)
  {
    && r.mode == b.mode && r.inputs == b.inputs && r.output == b.output && r.includes == b.includes
    && r.systemIncludes == b.systemIncludes && r.defines == b.defines && r.undefines == b.undefines
    && r.libraries == b.libraries && r.libraryDirs == b.libraryDirs && r.language == b.language
    && r.passthrough == b.passthrough
  }

  lemma {:induction false} WerrorValue(arg: string)
    requires HasPrefix(arg, "-W")
    ensures IsWerror(arg) <==> arg[2..] == "error" || HasPrefix(arg[2..], "error=")
  {
    assert "-Werror" == "-W" + "error" && "-Werror=" == "-W" + "error=";
    assert arg == "-W" + arg[2..];
    if HasPrefix(arg, "-Werror=") {
      assert arg[2..][..6] == arg[2..8] == "error=";
    }
    if HasPrefix(arg[2..], "error=") {
      assert arg[..8] == "-W" + arg[2..][..6];
    }
  }

  lemma {:induction false} DropSnoc(ws: seq<string>, w: string)
    ensures DropErrors(ws + [w]) == DropErrors(ws) + if w == "error" || HasPrefix(w, "error=") then [] else [w]
  {
    assert (ws + [w])[..|ws|] == ws;
  }

  /** One kept flag: the same token is found for it again, and it does the same thing. */
  lemma {:induction false} KeptToken(tbl: Table, args: seq<string>, more: seq<string>)
    requires GoodTable(tbl)
    requires args != [] && TokenAt(tbl, args).Flag? && Kept(TokenAt(tbl, args).spec, args[0])
    ensures TokenAt(tbl, args).consumed == 1
    ensures TokenAt(tbl, [args[0]] + more) == TokenAt(tbl, args)
  {
    Found(tbl, args[0]);
  }

  lemma {:induction false} UnkeptApply(a: Inv, b: Inv, spec: FlagSpec, v: string)
    requires Mirrors(a, b) && !KeptCategory(spec.category)
    ensures Mirrors(Apply(a, spec, v), b)
  {
  }

  lemma {:induction false} KeptApply(a: Inv, b: Inv, spec: FlagSpec, v: string)
    requires Mirrors(a, b) && KeptCategory(spec.category) && !spec.category.CatWarning?
    ensures Mirrors(Apply(a, spec, v), Apply(b, spec, v)) && SameRest(b, Apply(b, spec, v))
  {
  }

  lemma {:induction false} WarningApply(a: Inv, b: Inv, spec: FlagSpec, arg: string)
    requires Mirrors(a, b) && spec.category.CatWarning? && HasPrefix(arg, "-W")
    ensures
      var a' := Apply(a, spec, arg[2..]);
      if IsWerror(arg) then Mirrors(a', b)
      else Mirrors(a', Apply(b, spec, arg[2..])) && SameRest(b, Apply(b, spec, arg[2..]))
  {
    WerrorValue(arg);
    DropSnoc(a.warnings, arg[2..]);
    Nil(DropErrors(a.warnings));
  }

  lemma {:induction false} MirrorStep(tbl: Table, a: Inv, b: Inv, args: seq<string>)
    requires GoodTable(tbl)
    requires args != [] && TokenAt(tbl, args).Flag? && Mirrors(a, b)
    ensures
      var t := TokenAt(tbl, args);
      var a' := Apply(a, t.spec, t.val);
      if Kept(t.spec, args[0]) then Mirrors(a', Apply(b, t.spec, t.val)) && SameRest(b, Apply(b, t.spec, t.val))
      else Mirrors(a', b)
  {
    var t := TokenAt(tbl, args);
    Found(tbl, args[0]);
    if !KeptCategory(t.spec.category) {
      UnkeptApply(a, b, t.spec, t.val);
    } else if t.spec.category.CatWarning? {
      WarningApply(a, b, t.spec, args[0]);
    } else {
      KeptApply(a, b, t.spec, t.val);
    }
  }

  lemma {:induction false} KeepMirrors(tbl: Table, a: Inv, b: Inv, args: seq<string>)
    requires GoodTable(tbl)
    requires Mirrors(a, b)
    ensures Mirrors(ParseAll(tbl, a, args), ParseAll(tbl, b, Keep(tbl, args)))
              && SameRest(b, ParseAll(tbl, b, Keep(tbl, args)))
    decreases |args|
  {
    if args != [] {
      match TokenAt(tbl, args) {
        case End =>
        case Input(x) =>
          KeepMirrors(tbl, a.(inputs := a.inputs + [x]), b, args[1..]);
        case Stray(x) =>
          var ks := Keep(tbl, args[1..]);
          assert TokenAt(tbl, [x] + ks) == Stray(x) && ([x] + ks)[1..] == ks;
          KeepMirrors(tbl, a.(unknown := a.unknown + [x]), b.(unknown := b.unknown + [x]), args[1..]);
        case Flag(spec, v, n) =>
          MirrorStep(tbl, a, b, args);
          var ks := Keep(tbl, args[n..]);
          if Kept(spec, args[0]) {
            KeptToken(tbl, args, ks);
            assert args[..1] == [args[0]] && ([args[0]] + ks)[1..] == ks;
            KeepMirrors(tbl, Apply(a, spec, v), Apply(b, spec, v), args[n..]);
          } else {
            Nil(ks);
            KeepMirrors(tbl, Apply(a, spec, v), b, args[n..]);
          }
      }
    }
  }

  /** The filter has nothing more to drop the second time. */
  lemma {:induction false} KeepIdempotent(tbl: Table, args: seq<string>)
    requires GoodTable(tbl)
    ensures Keep(tbl, Keep(tbl, args)) == Keep(tbl, args)
    decreases |args|
  {
    if args != [] {
      match TokenAt(tbl, args) {
        case End =>
        case Input(x) => KeepIdempotent(tbl, args[1..]);
        case Stray(x) =>
          KeepIdempotent(tbl, args[1..]);
          var ks := Keep(tbl, args[1..]);
          assert TokenAt(tbl, [x] + ks) == Stray(x) && ([x] + ks)[1..] == ks;
        case Flag(spec, v, n) =>
          KeepIdempotent(tbl, args[n..]);
          var ks := Keep(tbl, args[n..]);
          if Kept(spec, args[0]) {
            KeptToken(tbl, args, ks);
            assert args[..1] == [args[0]] && ([args[0]] + ks)[1..] == ks && ([args[0]] + ks)[..1] == [args[0]];
          } else {
            Nil(ks);
          }
      }
    }
  }

  lemma {:induction false} FrontFlags(tbl: Table)
    requires GoodTable(tbl)
    ensures Spec(tbl, "-c") == [CompileFlag] && Spec(tbl, "-x") == [LanguageFlag] && Spec(tbl, "-o") == [OutputFlag]
  {
    ExactName(tbl, CompileFlag);
    ExactName(tbl, LanguageFlag);
    ExactName(tbl, OutputFlag);
  }

  /** The fixed front of a rewritten command line. */
  lemma {:induction false} FrontParses(tbl: Table, srcPath: string, lang: string, output: string)
    requires GoodTable(tbl)
    requires !Dashed(srcPath)
    ensures
      var front := ["-x", lang] + (["-c"] + ([srcPath] + (if output != "" then ["-o", output] else [])));
      && Whole(tbl, front)
      && ParseAll(tbl, Blank, front) == Blank.(language := lang, mode := CompileMode, inputs := [srcPath],
          output := output)
  {
    FrontTokens(tbl, lang);
    var tail := if output != "" then ["-o", output] else [];
    var i1 := Apply(Blank, LanguageFlag, lang);
    var i2 := Apply(i1, CompileFlag, "");
    TailParses(tbl, i2.(inputs := i2.inputs + [srcPath]), output, tail);
    OneInput(tbl, i2, srcPath, tail);
    OneFlag(tbl, i1, ["-c"], CompileFlag, "", [srcPath] + tail);
    OneFlag(tbl, Blank, ["-x", lang], LanguageFlag, lang, ["-c"] + ([srcPath] + tail));
  }

  lemma {:induction false} FrontTokens(tbl: Table, lang: string)
    requires GoodTable(tbl)
    ensures Spec(tbl, "-x") == [LanguageFlag] && TokenAt(tbl, ["-x", lang]) == Flag(LanguageFlag, lang, 2)
              && Dashed("-x")
    ensures Spec(tbl, "-c") == [CompileFlag] && TokenAt(tbl, ["-c"]) == Flag(CompileFlag, "", 1) && Dashed("-c")
  {
    FrontFlags(tbl);
  }

  lemma {:induction false} OneFlag(tbl: Table, inv: Inv, d: seq<string>, spec: FlagSpec, v: string, more: seq<string>)
    requires d != [] && TokenAt(tbl, d) == Flag(spec, v, |d|) && (TakesNext(spec, d[0]) ==> |d| == 2)
               && Spec(tbl, d[0]) == [spec]
    requires Dashed(d[0]) && d[0] != "--" && Whole(tbl, more)
    ensures Whole(tbl, d + more) && ParseAll(tbl, inv, d + more) == ParseAll(tbl, Apply(inv, spec, v), more)
  {
    var all := d + more;
    assert all[0] == d[0] && all[|d|..] == more;
    assert |d| == 2 ==> all[1] == d[1];
  }

  lemma {:induction false} OneInput(tbl: Table, inv: Inv, a: string, more: seq<string>)
    requires !Dashed(a) && Whole(tbl, more)
    ensures Whole(tbl, [a] + more) && ParseAll(tbl, inv, [a] + more)
              == ParseAll(tbl, inv.(inputs := inv.inputs + [a]), more)
  {
    assert ([a] + more)[0] == a && ([a] + more)[1..] == more;
    assert TokenAt(tbl, [a] + more) == Input(a);
  }

  lemma {:induction false} TailParses(tbl: Table, inv: Inv, output: string, tail: seq<string>)
    requires GoodTable(tbl)
    requires tail == if output != "" then ["-o", output] else []
    requires inv.output == ""
    ensures Whole(tbl, tail) && ParseAll(tbl, inv, tail) == inv.(output := output)
  {
    FrontFlags(tbl);
    if output != "" {
      assert TokenAt(tbl, tail) == Flag(Spec(tbl, "-o")[0], output, 2);
      assert tail[2..] == [];
    }
  }

  /**
   * Re-parsing the rewritten command line: a compile of the one given source, to the same output,
   * in the given language, with the same code generation settings, every warning but the
   * promotions to errors, and nothing left over for preprocessor, linker or passthrough.
   */
  lemma {:induction false} RewriteReparses(tbl: Table, raw: seq<string>, srcPath: string, lang: string)
    requires GoodTable(tbl)
    requires !Dashed(srcPath)
    ensures
      var inv := Parse(tbl, raw);
      var r := Parse(tbl, RewriteArgs(tbl, raw, inv.output, srcPath, lang));
      && r.mode == CompileMode && r.inputs == [srcPath] && r.language == lang
      && (inv.output != "" ==> r.output == inv.output)
      && r.includes == [] && r.systemIncludes == [] && r.defines == map[] && r.undefines == []
      && r.libraries == [] && r.libraryDirs == [] && r.passthrough == []
      && Mirrors(inv, r)
  {
    var inv := Parse(tbl, raw);
    var front := ["-x", lang] + (["-c"] + ([srcPath] + (if inv.output != "" then ["-o", inv.output] else [])));
    var b := Blank.(language := lang, mode := CompileMode, inputs := [srcPath], output := inv.output);
    FrontParses(tbl, srcPath, lang, inv.output);
    Boundary(tbl, Blank, front, Keep(tbl, raw));
    KeepMirrors(tbl, Blank, b, raw);
    FinishMirrors(ParseAll(tbl, Blank, raw));
    FinishMirrors(ParseAll(tbl, b, Keep(tbl, raw)));
  }

  /** Settling mode and output touches nothing else. */
  lemma {:induction false} FinishMirrors(inv: Inv)
    ensures
      var r := Finish(inv);
      && r.std == inv.std && r.optim == inv.optim && r.debug == inv.debug && r.features == inv.features
      && r.machine == inv.machine && r.unknown == inv.unknown && r.warnings == inv.warnings
      && r.inputs == inv.inputs && r.language == inv.language && r.includes == inv.includes
      && r.systemIncludes == inv.systemIncludes && r.defines == inv.defines && r.undefines == inv.undefines
      && r.libraries == inv.libraries && r.libraryDirs == inv.libraryDirs && r.passthrough == inv.passthrough
      && (inv.mode != UnknownMode ==> r.mode == inv.mode) && (inv.output != "" ==> r.output == inv.output)
  {
  }
}
