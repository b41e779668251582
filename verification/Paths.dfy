/** Absolute canonical paths (squashfs/writer.go:330-348) and the path.Dir / path.Base used on them. */
module Paths {
  import opened Bytes

  type Path = Bytes

  const SLASH: byte := 47
  const DOT: byte := 46
  const Root: Path := [SLASH]

  predicate ValidName(c: Bytes)
  {
    c != [] && c != [DOT] && c != [DOT, DOT] && SLASH !in c
  }

  /** Index of the first slash at or after `i`, or the length. */
  function NextSlash(s: Bytes, i: nat): (j: nat)
    requires i <= |s|
    ensures i <= j <= |s|
    ensures j < |s| ==> s[j] == SLASH
    ensures forall k | i <= k < j :: s[k] != SLASH
    decreases |s| - i
  {
    if i == |s| || s[i] == SLASH then i else NextSlash(s, i + 1)
  }

  /** strings.Split(s, "/"). */
  function Split(s: Bytes): (parts: seq<Bytes>)
    ensures parts != []
    decreases |s|
  {
    var i := NextSlash(s, 0);
    if i == |s| then [s] else [s[..i]] + Split(s[i + 1..])
  }

  predicate ValidPath(p: Bytes)
  {
    && p != [] && p != Root
    && p[0] == SLASH
    && p[|p| - 1] != SLASH
    && var parts := Split(p[1..]);
       forall k | 0 <= k < |parts| :: parts[k] != [] && parts[k] != [DOT] && parts[k] != [DOT, DOT]
  }

  /** Index of the last slash before `n`, or -1. */
  function LastSlashBefore(p: Bytes, n: nat): (i: int)
    requires n <= |p|
    ensures -1 <= i < n
    ensures i >= 0 ==> p[i] == SLASH
    ensures forall k | i < k < n :: p[k] != SLASH
  {
    if n == 0 then -1 else if p[n - 1] == SLASH then n - 1 else LastSlashBefore(p, n - 1)
  }

  function LastSlash(p: Bytes): (i: int)
    ensures -1 <= i < |p|
  {
    LastSlashBefore(p, |p|)
  }

  /** path.Dir on a canonical path. */
  function Dir(p: Path): (d: Path)
  {
    if LastSlash(p) <= 0 then Root else p[..LastSlash(p)]
  }

  /** path.Base on a canonical path. */
  function Base(p: Path): (n: Bytes)
  {
    p[LastSlash(p) + 1..]
  }

  function Child(d: Path, name: Bytes): (p: Path)
  {
    if d == Root then d + name else d + [SLASH] + name
  }

  /** The path reached from `d` by following names. */
  function PathFrom(d: Path, names: seq<Bytes>): (p: Path)
    decreases |names|
  {
    if names == [] then d else PathFrom(Child(d, names[0]), names[1..])
  }

  lemma {:induction false} DirOfRoot()
    ensures Dir(Root) == Root
  {
    assert LastSlashBefore(Root, 1) == 0;
  }

  lemma {:induction false} LastSlashIs(p: Bytes, i: int)
    requires -1 <= i < |p| && (i >= 0 ==> p[i] == SLASH)
    requires forall k | i < k < |p| :: p[k] != SLASH
    ensures LastSlash(p) == i
  {
    var j := LastSlash(p);
    if j >= 0 {
      assert p[j] == SLASH;
    }
  }

  lemma {:induction false} DirOfChild(d: Path, name: Bytes)
    requires d != [] && SLASH !in name
    ensures Dir(Child(d, name)) == d && Base(Child(d, name)) == name
  {
    var p := Child(d, name);
    var i := if d == Root then 0 else |d|;
    assert p[i + 1..] == name;
    assert forall k | i < k < |p| :: p[k] == name[k - i - 1];
    LastSlashIs(p, i);
    assert d != Root ==> p[..i] == d;
  }

  lemma {:induction false} ChildLonger(d: Path, name: Bytes)
    requires name != []
    ensures |Child(d, name)| > |d|
  {
  }

  /** The last slash of a string is found behind any slash in it. */
  lemma {:induction false} LastSlashBehind(s: Bytes, i: nat)
    requires i < |s| && s[i] == SLASH
    ensures LastSlash(s) == i + 1 + LastSlash(s[i + 1..])
  {
    var t := s[i + 1..];
    var j := LastSlash(t);
    assert forall k | 0 <= k < |t| :: t[k] == s[i + 1 + k];
    assert forall k | i + 1 + j < k < |s| :: s[k] == t[k - i - 1];
    LastSlashIs(s, i + 1 + j);
  }

  lemma {:induction false} BaseBehind(s: Bytes, i: nat)
    requires i < |s| && s[i] == SLASH
    ensures Base(s) == Base(s[i + 1..])
  {
    LastSlashBehind(s, i);
    var j := LastSlash(s[i + 1..]);
    DropDrop(s, i + 1, j + 1, LastSlash(s) + 1);
  }

  lemma {:induction false} DropDrop(s: Bytes, a: nat, b: nat, c: nat)
    requires c == a + b <= |s|
    ensures s[a..][b..] == s[c..]
  {
  }

  lemma {:induction false} BaseOfPlain(s: Bytes)
    requires NextSlash(s, 0) == |s|
    ensures Base(s) == s
  {
    LastSlashIs(s, -1);
  }

  /** The last part of a split is what follows the last slash. */
  lemma {:induction false} SplitLast(s: Bytes)
    ensures Split(s)[|Split(s)| - 1] == Base(s)
    decreases |s|
  {
    var i := NextSlash(s, 0);
    if i == |s| {
      BaseOfPlain(s);
    } else {
      SplitLast(s[i + 1..]);
      BaseBehind(s, i);
      SnocLast([s[..i]], Split(s[i + 1..]));
    }
  }

  lemma {:induction false} SnocLast<T>(a: seq<T>, b: seq<T>)
    requires b != []
    ensures (a + b)[|a + b| - 1] == b[|b| - 1]
  {
  }

  lemma {:induction false} ValidPathParts(p: Path)
    requires ValidPath(p)
    ensures ValidName(Base(p))
    ensures Child(Dir(p), Base(p)) == p
    ensures |Dir(p)| < |p| && Dir(p) != []
  {
    BaseValid(p);
    DirNotRoot(p);
    LastSlashBehind(p, 0);
    Reassemble(p, LastSlash(p));
  }

  lemma {:induction false} BaseValid(p: Path)
    requires ValidPath(p)
    ensures ValidName(Base(p))
  {
    var s := p[1..];
    SplitLast(s);
    LastSlashBehind(p, 0);
    var i := LastSlash(p);
    SliceOfTail(p, 1, i + 1);
    assert forall k | 0 <= k < |Base(p)| :: Base(p)[k] == p[i + 1 + k];
  }

  lemma {:induction false} DirNotRoot(p: Path)
    requires ValidPath(p)
    ensures LastSlash(p) != 1
  {
    assert p[1..] != [];
    if p[1] == SLASH {
      assert p[1..][0] == SLASH;
      assert NextSlash(p[1..], 0) == 0;
      assert Split(p[1..])[0] == [];
      assert false;
    }
  }

  lemma {:induction false} Reassemble(p: Path, i: nat)
    requires i < |p| && p[0] == SLASH && p[i] == SLASH
    ensures i == 0 ==> Root + p[1..] == p
    ensures i > 1 ==> Child(p[..i], p[i + 1..]) == p
  {
    if i > 1 {
      SplitAtSlash(p, i);
    }
  }

  lemma {:induction false} SplitAtSlash(s: Bytes, i: nat)
    requires i < |s| && s[i] == SLASH
    ensures s[..i] + [SLASH] + s[i + 1..] == s
  {
  }

  /** Following the parts of a canonical path from the root arrives at that path. */
  lemma {:induction false} SplitFollows(p: Path)
    requires ValidPath(p)
    ensures PathFrom(Root, Split(p[1..])) == p
    ensures forall k | 0 <= k < |Split(p[1..])| :: ValidName(Split(p[1..])[k])
  {
    SplitParts(p[1..]);
    SplitFollowsFrom(Root, p[1..]);
    assert Root + p[1..] == p;
  }

  lemma {:induction false} SplitParts(s: Bytes)
    ensures forall k | 0 <= k < |Split(s)| :: SLASH !in Split(s)[k]
    decreases |s|
  {
    var i := NextSlash(s, 0);
    if i < |s| {
      SplitParts(s[i + 1..]);
    }
  }

  lemma {:induction false} ChildOfChild(d: Path, a: Bytes, b: Bytes)
    requires d != [] && a != []
    ensures Child(Child(d, a), b) == Child(d, a + [SLASH] + b)
  {
    if d == Root {
      Assoc(d, a + [SLASH], b);
      Assoc(d, a, [SLASH]);
    } else {
      Assoc(d + [SLASH], a + [SLASH], b);
      Assoc(d + [SLASH], a, [SLASH]);
    }
  }

  lemma {:induction false} SplitFollowsFrom(d: Path, s: Bytes)
    requires d != [] && (forall k | 0 <= k < |Split(s)| :: Split(s)[k] != [])
    ensures PathFrom(d, Split(s)) == Child(d, s)
    decreases |s|
  {
    var i := NextSlash(s, 0);
    var parts := Split(s);
    if i == |s| {
      assert parts[1..] == [];
    } else {
      assert parts[1..] == Split(s[i + 1..]);
      assert forall k | 0 <= k < |parts[1..]| :: parts[1..][k] == parts[k + 1];
      assert parts[0] == s[..i];
      SplitFollowsFrom(Child(d, s[..i]), s[i + 1..]);
      ChildOfChild(d, s[..i], s[i + 1..]);
      SplitAtSlash(s, i);
    }
  }

  // ---- Which paths are canonical ----

  /** strings.Join(parts, "/"). */
  function Join(parts: seq<Bytes>): (s: Bytes)
    requires parts != []
  {
    if |parts| == 1 then parts[0] else parts[0] + [SLASH] + Join(parts[1..])
  }

  lemma {:induction false} NextSlashIs(s: Bytes, i: nat, j: nat)
    requires i <= j <= |s| && (forall k | i <= k < j :: s[k] != SLASH) && (j < |s| ==> s[j] == SLASH)
    ensures NextSlash(s, i) == j
    decreases j - i
  {
    if i < j {
      NextSlashIs(s, i + 1, j);
    }
  }

  lemma {:induction false} SplitFirst(a: Bytes, rest: Bytes)
    requires SLASH !in a
    ensures Split(a) == [a] && Split(a + [SLASH] + rest) == [a] + Split(rest)
  {
    NextSlashIs(a, 0, |a|);
    var s := a + [SLASH] + rest;
    NextSlashIs(s, 0, |a|);
    assert s[..|a|] == a && s[|a| + 1..] == rest;
  }

  /** Splitting and joining at slashes undo each other. */
  lemma {:induction false} SplitJoin(parts: seq<Bytes>)
    requires parts != [] && forall k | 0 <= k < |parts| :: SLASH !in parts[k]
    ensures Split(Join(parts)) == parts
    decreases |parts|
  {
    if |parts| == 1 {
      SplitFirst(parts[0], []);
    } else {
      SplitJoin(parts[1..]);
      SplitFirst(parts[0], Join(parts[1..]));
    }
  }

  lemma {:induction false} JoinSplit(s: Bytes)
    ensures Join(Split(s)) == s
    decreases |s|
  {
    var i := NextSlash(s, 0);
    if i < |s| {
      JoinSplit(s[i + 1..]);
      assert Split(s)[1..] == Split(s[i + 1..]);
      SplitAtSlash(s, i);
    }
  }

  predicate AllValid(names: seq<Bytes>)
  {
    forall k | 0 <= k < |names| :: ValidName(names[k])
  }

  /** A path that leads from the root through one or more proper names. */
  ghost predicate Canonical(p: Bytes)
  {
    exists names :: names != [] && AllValid(names) && p == PathFrom(Root, names)
  }

  lemma {:induction false} PathJoins(d: Path, names: seq<Bytes>)
    requires d != [] && names != [] && AllValid(names)
    ensures PathFrom(d, names) == Child(d, Join(names))
    decreases |names|
  {
    if |names| == 1 {
      assert names[1..] == [];
    } else {
      PathJoins(Child(d, names[0]), names[1..]);
      ChildOfChild(d, names[0], Join(names[1..]));
    }
  }

  lemma {:induction false} JoinEnds(names: seq<Bytes>)
    requires names != [] && AllValid(names)
    ensures Join(names) != [] && Join(names)[|Join(names)| - 1] != SLASH
    decreases |names|
  {
    if |names| > 1 {
      JoinEnds(names[1..]);
      SnocLast(names[0] + [SLASH], Join(names[1..]));
    }
  }

  /** Every path made of proper names is accepted, and splits into just these names. */
  lemma {:induction false} NamesAccepted(names: seq<Bytes>)
    requires names != [] && AllValid(names)
    ensures ValidPath(PathFrom(Root, names)) && Split(PathFrom(Root, names)[1..]) == names
  {
    PathJoins(Root, names);
    JoinEnds(names);
    SplitJoin(names);
    var p := PathFrom(Root, names);
    assert p == Root + Join(names) && p[1..] == Join(names);
    SnocLast(Root, Join(names));
  }

  /** validatePath accepts exactly the canonical paths. */
  lemma {:induction false} ValidPathIff(p: Bytes)
    ensures ValidPath(p) <==> Canonical(p)
  {
    if ValidPath(p) {
      SplitFollows(p);
      assert AllValid(Split(p[1..]));
    }
    if Canonical(p) {
      var names :| names != [] && AllValid(names) && p == PathFrom(Root, names);
      NamesAccepted(names);
    }
  }
}
