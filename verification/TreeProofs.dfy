/** The tree Close builds: every entry once, numbered without gaps from 1 at the root. */
module TreeProofs {
  import opened Paths
  import opened Sorting
  import opened Closing

  /** `q` is `a` or lies below it. */
  predicate Under(a: Path, q: Path)
    decreases |q|
  {
    q == a || (q != Root && |Dir(q)| < |q| && Under(a, Dir(q)))
  }

  lemma {:induction false} UnderLonger(a: Path, q: Path)
    requires Under(a, q)
    ensures |a| <= |q|
    ensures |a| == |q| ==> a == q
    decreases |q|
  {
    if q != a {
      UnderLonger(a, Dir(q));
    }
  }

  /** Two siblings have nothing below them in common. */
  lemma {:induction false} SiblingsApart(a: Path, b: Path, q: Path)
    requires ValidPath(a) && ValidPath(b) && Dir(a) == Dir(b)
    requires Under(a, q) && Under(b, q)
    ensures a == b
    decreases |q|
  {
    ValidPathParts(a);
    ValidPathParts(b);
    if q == a && q != b {
      UnderLonger(b, Dir(a));
      assert false;
    } else if q == b && q != a {
      UnderLonger(a, Dir(b));
      assert false;
    } else if q != a {
      SiblingsApart(a, b, Dir(q));
    }
  }

  lemma {:induction false} UnderStep(x: Ctx, d: Path, k: Path, q: Path)
    requires GoodCtx(x) && k in x.order && Dir(k) == d && Under(k, q)
    ensures Under(d, q)
    decreases |q|
  {
    ValidPathParts(k);
    if q == k {
      assert k != Root;
      assert Under(d, Dir(k));
    } else {
      UnderStep(x, d, k, Dir(q));
    }
  }

  /** Whatever lies strictly below a directory lies below one of its children. */
  lemma {:induction false} ViaKid(x: Ctx, d: Path, q: Path) returns (k: Path)
    requires GoodCtx(x) && q in x.entries && Under(d, q) && q != d
    ensures k in x.order && Dir(k) == d && Under(k, q)
    decreases |q|
  {
    assert q in x.order;
    if Dir(q) == d {
      k := q;
    } else {
      var i :| 0 <= i < |x.order| && x.order[i] == q;
      assert IsDir(x, Dir(x.order[i]));
      k := ViaKid(x, d, Dir(q));
    }
  }

  lemma {:induction false} AllUnderRoot(x: Ctx, q: Path)
    requires GoodCtx(x) && q in x.entries
    ensures Under(Root, q)
    decreases |q|
  {
    if q != Root {
      assert q in x.order;
      ValidPathParts(q);
      var i :| 0 <= i < |x.order| && x.order[i] == q;
      assert IsDir(x, Dir(x.order[i]));
      AllUnderRoot(x, Dir(q));
    }
  }

  // ---- Branches mirror the directories ----

  ghost predicate IsBranch(x: Ctx, b: Branch)
    decreases b
  {
    && b.path in x.entries
    && (IsDir(x, b.path) ==> |b.kids| == |Kids(x, b.path)|)
    && (!IsDir(x, b.path) ==> b.kids == [])
    && forall i | 0 <= i < |b.kids| :: IsBranch(x, b.kids[i]) && i < |Kids(x, b.path)|
        && b.kids[i].path == Kids(x, b.path)[i]
  }

  lemma {:induction false} GrowIsBranch(x: Ctx, d: Path)
    requires GoodCtx(x) && d in x.entries && |d| <= Longest(x.order)
    ensures IsBranch(x, Grow(x, d)) && Grow(x, d).path == d
    decreases Longest(x.order) - |d|, 1, 0
  {
    if IsDir(x, d) {
      GrowAllBranches(x, d, Kids(x, d));
    }
  }

  lemma {:induction false} GrowAllBranches(x: Ctx, d: Path, ks: seq<Path>)
    requires GoodCtx(x) && d in x.entries && |d| <= Longest(x.order)
    requires forall k | k in ks :: k in Kids(x, d)
    ensures |GrowAll(x, d, ks)| == |ks|
    ensures forall i | 0 <= i < |ks| :: IsBranch(x, GrowAll(x, d, ks)[i]) && GrowAll(x, d, ks)[i].path == ks[i]
    decreases Longest(x.order) - |d|, 0, |ks|
  {
    if ks != [] {
      KidsAre(x, d);
      assert ks[0] in ks;
      ValidPathParts(ks[0]);
      GrowIsBranch(x, ks[0]);
      GrowAllBranches(x, d, ks[1..]);
      BranchesCons(x, Grow(x, ks[0]), GrowAll(x, d, ks[1..]), ks);
    }
  }

  lemma {:induction false} BranchesCons(x: Ctx, first: Branch, rest: seq<Branch>, ks: seq<Path>)
    requires ks != [] && IsBranch(x, first) && first.path == ks[0] && |rest| == |ks| - 1
    requires forall i | 0 <= i < |rest| :: IsBranch(x, rest[i]) && rest[i].path == ks[1..][i]
    ensures var all := [first] + rest; forall i | 0 <= i < |ks| :: IsBranch(x, all[i]) && all[i].path == ks[i]
  {
    var all := [first] + rest;
    forall i | 0 <= i < |ks|
      ensures IsBranch(x, all[i]) && all[i].path == ks[i]
    {
      if i > 0 {
        assert all[i] == rest[i - 1] && ks[1..][i - 1] == ks[i];
      }
    }
  }

  lemma {:induction false} WithinDistinct(order: seq<Path>, d: Path)
    requires forall i, j | 0 <= i < j < |order| :: order[i] != order[j]
    ensures forall i, j | 0 <= i < j < |Within(order, d)| :: Within(order, d)[i] != Within(order, d)[j]
    decreases |order|
  {
    if order != [] {
      var n := |order| - 1;
      WithinDistinct(order[..n], d);
      WithinFacts(order[..n], d);
      assert order[n] !in order[..n];
    }
  }

  /** Children come out in strictly increasing order of name. */
  lemma {:induction false} KidsSorted(x: Ctx, d: Path)
    requires GoodCtx(x)
    ensures StrictlySorted(Kids(x, d), BaseOf)
    ensures forall i, j | 0 <= i < j < |Kids(x, d)| :: Kids(x, d)[i] != Kids(x, d)[j]
  {
    var w := Within(x.order, d);
    var ks := Kids(x, d);
    WithinDistinct(x.order, d);
    SortSorts(w, BaseOf);
    DistinctKept(w, ks);
    KidsAre(x, d);
    forall i, j | 0 <= i < j < |ks|
      ensures BaseOf(ks[i]) != BaseOf(ks[j])
    {
      assert ks[i] in ks && ks[j] in ks;
      ValidPathParts(ks[i]);
      ValidPathParts(ks[j]);
    }
    SortedDistinctIsStrict(ks, BaseOf);
  }

  // ---- The numbering ----

  ghost predicate NoRepeat(s: seq<Path>)
  {
    forall i, j | 0 <= i < j < |s| :: s[i] != s[j]
  }

  /** What a branch numbers: every inode owner at or below its path, each once. */
  lemma {:induction false} PreorderIs(x: Ctx, b: Branch)
    requires GoodCtx(x) && IsBranch(x, b)
    ensures forall q :: q in Preorder(x, b) <==> q in InodeOwners(x) && Under(b.path, q)
    ensures NoRepeat(Preorder(x, b))
    decreases b, 2
  {
    if x.entries[b.path].node.HardlinkN? {
      NothingUnderLeaf(x, b.path);
    } else {
      PreorderKids(x, b);
    }
  }

  /** Only directories have anything below them. */
  lemma {:induction false} NothingUnderLeaf(x: Ctx, p: Path)
    requires GoodCtx(x) && p in x.entries && !IsDir(x, p)
    ensures forall q :: q in x.entries && Under(p, q) ==> q == p
  {
    forall q | q in x.entries && Under(p, q)
      ensures q == p
    {
      if q != p {
        var k := ViaKid(x, p, q);
      }
    }
  }

  /** Below one of the branches. */
  predicate Covered(bs: seq<Branch>, q: Path)
  {
    exists i | 0 <= i < |bs| :: Under(bs[i].path, q)
  }

  lemma {:induction false} PreorderKids(x: Ctx, b: Branch)
    requires GoodCtx(x) && IsBranch(x, b) && !x.entries[b.path].node.HardlinkN?
    ensures forall q :: q in Preorder(x, b) <==> q in InodeOwners(x) && Under(b.path, q)
    ensures NoRepeat(Preorder(x, b))
    decreases b, 1
  {
    var rest := PreorderAll(x, b.kids);
    if !IsDir(x, b.path) {
      NothingUnderLeaf(x, b.path);
      assert Preorder(x, b) == [b.path];
    } else {
      KidsPlaced(x, b);
      PreorderAllIs(x, b, b.kids);
      CoveredIsBelow(x, b);
      ConsNoRepeat(b.path, rest);
    }
  }

  lemma {:induction false} CoveredIsBelow(x: Ctx, b: Branch)
    requires GoodCtx(x) && IsBranch(x, b) && IsDir(x, b.path)
    ensures forall q | q in InodeOwners(x) :: Covered(b.kids, q) <==> Under(b.path, q) && q != b.path
  {
    forall q | q in InodeOwners(x)
      ensures Covered(b.kids, q) <==> Under(b.path, q) && q != b.path
    {
      RestIs(x, b, q);
    }
  }

  lemma {:induction false} ConsNoRepeat(p: Path, rest: seq<Path>)
    requires NoRepeat(rest) && p !in rest
    ensures NoRepeat([p] + rest)
    ensures forall q :: q in [p] + rest <==> q == p || q in rest
  {
  }

  lemma {:induction false} KidsPlaced(x: Ctx, b: Branch)
    requires GoodCtx(x) && IsBranch(x, b) && IsDir(x, b.path)
    ensures forall i | 0 <= i < |b.kids| :: b.kids[i].path in x.order && Dir(b.kids[i].path) == b.path
    ensures forall i, j | 0 <= i < j < |b.kids| :: b.kids[i].path != b.kids[j].path
  {
    var ks := Kids(x, b.path);
    KidsAre(x, b.path);
    KidsSorted(x, b.path);
    assert forall i | 0 <= i < |b.kids| :: b.kids[i].path == ks[i] && ks[i] in ks;
  }

  lemma {:induction false} CoveredBelow(x: Ctx, bs: seq<Branch>, d: Path, q: Path)
    requires GoodCtx(x) && Covered(bs, q)
    requires forall i | 0 <= i < |bs| :: bs[i].path in x.order && Dir(bs[i].path) == d
    ensures Under(d, q) && q != d
  {
    var i :| 0 <= i < |bs| && Under(bs[i].path, q);
    var k := bs[i].path;
    ValidPathParts(k);
    UnderStep(x, d, k, q);
    UnderLonger(k, q);
  }

  lemma {:induction false} BelowCovered(x: Ctx, b: Branch, q: Path)
    requires GoodCtx(x) && q in x.entries && Under(b.path, q) && q != b.path
    requires |b.kids| == |Kids(x, b.path)|
    requires forall i | 0 <= i < |b.kids| :: b.kids[i].path == Kids(x, b.path)[i]
    ensures Covered(b.kids, q)
  {
    var k := ViaKid(x, b.path, q);
    KidsAre(x, b.path);
    var ks := Kids(x, b.path);
    var i :| 0 <= i < |ks| && ks[i] == k;
    assert b.kids[i].path == k;
  }

  lemma {:induction false} RestIs(x: Ctx, b: Branch, q: Path)
    requires GoodCtx(x) && IsBranch(x, b) && IsDir(x, b.path) && q in x.entries
    ensures Covered(b.kids, q) <==> Under(b.path, q) && q != b.path
  {
    if Covered(b.kids, q) {
      KidsPlaced(x, b);
      CoveredBelow(x, b.kids, b.path, q);
    } else if Under(b.path, q) && q != b.path {
      BelowCovered(x, b, q);
    }
  }

  lemma {:induction false} PreorderAllIs(x: Ctx, b: Branch, bs: seq<Branch>)
    requires GoodCtx(x)
    requires forall i | 0 <= i < |bs| :: bs[i] < b && IsBranch(x, bs[i])
    requires forall i | 0 <= i < |bs| :: bs[i].path in x.order && Dir(bs[i].path) == b.path
    requires forall i, j | 0 <= i < j < |bs| :: bs[i].path != bs[j].path
    ensures forall q :: q in PreorderAll(x, bs) <==> q in InodeOwners(x) && Covered(bs, q)
    ensures NoRepeat(PreorderAll(x, bs))
    decreases b, 0, |bs|
  {
    if bs != [] {
      var tail := bs[1..];
      var head, rest := Preorder(x, bs[0]), PreorderAll(x, tail);
      PreorderIs(x, bs[0]);
      PreorderAllIs(x, b, tail);
      forall q
        ensures Covered(bs, q) <==> Under(bs[0].path, q) || Covered(tail, q)
      {
        ConsCovered(bs, q);
      }
      forall q
        ensures !(q in head && q in rest)
      {
        if q in head && q in rest {
          HeadApart(x, bs, b.path, q);
        }
      }
      JoinNoRepeat(head, rest);
    }
  }

  lemma {:induction false} HeadApart(x: Ctx, bs: seq<Branch>, d: Path, q: Path)
    requires bs != []
    requires forall i | 0 <= i < |bs| :: ValidPath(bs[i].path) && Dir(bs[i].path) == d
    requires forall i, j | 0 <= i < j < |bs| :: bs[i].path != bs[j].path
    ensures !(Under(bs[0].path, q) && Covered(bs[1..], q))
  {
    if Under(bs[0].path, q) && Covered(bs[1..], q) {
      var i :| 0 <= i < |bs[1..]| && Under(bs[1..][i].path, q);
      SiblingsApart(bs[0].path, bs[i + 1].path, q);
    }
  }

  lemma {:induction false} ConsCovered(bs: seq<Branch>, q: Path)
    requires bs != []
    ensures Covered(bs, q) <==> Under(bs[0].path, q) || Covered(bs[1..], q)
  {
    if Covered(bs, q) {
      var i :| 0 <= i < |bs| && Under(bs[i].path, q);
      if i > 0 {
        assert bs[1..][i - 1] == bs[i];
      }
    }
    if Covered(bs[1..], q) {
      var i :| 0 <= i < |bs[1..]| && Under(bs[1..][i].path, q);
      assert bs[i + 1] == bs[1..][i];
    }
  }

  lemma {:induction false} JoinNoRepeat(a: seq<Path>, b: seq<Path>)
    requires NoRepeat(a) && NoRepeat(b)
    requires forall q :: !(q in a && q in b)
    ensures NoRepeat(a + b)
    ensures forall q :: q in a + b <==> q in a || q in b
  {
    var s := a + b;
    forall i, j | 0 <= i < j < |s|
      ensures s[i] != s[j]
    {
      if i < |a| && j >= |a| {
        assert s[i] in a && s[j] in b;
      }
    }
  }

  lemma {:induction false} PositionUnique(s: seq<Path>, i: nat)
    requires NoRepeat(s) && i < |s|
    ensures Position(s, s[i]) == i
  {
  }

  /**
   * The numbers given to inode owners are exactly 1 to their count, each used once; the root has
   * number 1; and the count is the one the superblock records.
   */
  lemma {:induction false} Numbering(x: Ctx)
    requires GoodCtx(x) && |Root| <= Longest(x.order)
    ensures
      var pre := Preorder(x, Grow(x, Root));
      && (forall q :: q in pre <==> q in InodeOwners(x))
      && NoRepeat(pre)
      && |pre| == |InodeOwners(x)|
      && pre != [] && pre[0] == Root
      && (forall i | 0 <= i < |pre| :: Position(pre, pre[i]) == i)
  {
    var root := Grow(x, Root);
    var pre := Preorder(x, root);
    GrowIsBranch(x, Root);
    PreorderIs(x, root);
    forall q | q in InodeOwners(x)
      ensures q in pre
    {
      AllUnderRoot(x, q);
    }
    DistinctSize(pre);
    assert InodeOwners(x) == set p | p in pre;
    forall i | 0 <= i < |pre|
      ensures Position(pre, pre[i]) == i
    {
      PositionUnique(pre, i);
    }
  }
}
