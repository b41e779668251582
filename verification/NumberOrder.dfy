/** The order in which inodes are numbered, told from the paths alone. */
module NumberOrder {
  import opened Bytes
  import opened Paths
  import opened Sorting
  import opened WriterSpec
  import opened Closing
  import opened TreeProofs
  import opened ClosePasses
  import opened ImageMain
  import opened ImageTree

  /**
   * A directory comes before what is below it; where two paths part, the one that goes through the
   * smaller name comes first.
   */
  ghost predicate Earlier(p: Path, q: Path)
  {
    (p != q && Under(p, q)) || exists a, b :: Siblings(a, b) && Under(a, p) && Under(b, q)
  }

  predicate Siblings(a: Path, b: Path)
  {
    ValidPath(a) && ValidPath(b) && Dir(a) == Dir(b) && Less(Base(a), Base(b))
  }

  ghost predicate InOrder(s: seq<Path>)
  {
    forall i, j | 0 <= i < j < |s| :: Earlier(s[i], s[j])
  }

  lemma {:induction false} InOrderJoin(s: seq<Path>, t: seq<Path>)
    requires InOrder(s) && InOrder(t) && forall p, q | p in s && q in t :: Earlier(p, q)
    ensures InOrder(s + t)
  {
    var all := s + t;
    forall i, j | 0 <= i < j < |all|
      ensures Earlier(all[i], all[j])
    {
      if i < |s| <= j {
        assert all[i] in s && all[j] in t;
      }
    }
  }

  /** Children of one directory, in the order of their names. */
  ghost predicate Brothers(x: Ctx, bs: seq<Branch>)
  {
    && (forall i | 0 <= i < |bs| :: IsBranch(x, bs[i]))
    && (forall i, j | 0 <= i < j < |bs| :: Siblings(bs[i].path, bs[j].path))
  }

  lemma {:induction false} KidsAreBrothers(x: Ctx, b: Branch)
    requires GoodCtx(x) && IsBranch(x, b)
    ensures Brothers(x, b.kids)
  {
    if IsDir(x, b.path) {
      KidsPlaced(x, b);
      KidsSorted(x, b.path);
      forall i, j | 0 <= i < j < |b.kids|
        ensures Siblings(b.kids[i].path, b.kids[j].path)
      {
        assert Less(BaseOf(Kids(x, b.path)[i]), BaseOf(Kids(x, b.path)[j]));
      }
    }
  }

  lemma {:induction false} PreorderInOrder(x: Ctx, b: Branch)
    requires GoodCtx(x) && IsBranch(x, b)
    ensures InOrder(Preorder(x, b))
    decreases b, 1, 0
  {
    if !x.entries[b.path].node.HardlinkN? {
      KidsAreBrothers(x, b);
      AllInOrder(x, b, b.kids);
      var rest := PreorderAll(x, b.kids);
      forall q | q in rest
        ensures Earlier(b.path, q)
      {
        BelowBranch(x, b, q);
      }
      InOrderJoin([b.path], rest);
    }
  }

  lemma {:induction false} BelowFirst(d: Path, rest: seq<Path>, q: Path)
    requires NoRepeat([d] + rest) && q in rest && Under(d, q)
    ensures Earlier(d, q)
  {
    var i :| 0 <= i < |rest| && rest[i] == q;
    var all := [d] + rest;
    assert all[0] == d && all[i + 1] == q;
  }

  lemma {:induction false} BelowBranch(x: Ctx, b: Branch, q: Path)
    requires GoodCtx(x) && IsBranch(x, b) && !x.entries[b.path].node.HardlinkN? && q in PreorderAll(x, b.kids)
    ensures Earlier(b.path, q)
  {
    var rest := PreorderAll(x, b.kids);
    assert Preorder(x, b) == [b.path] + rest;
    NoneTwice(x, b);
    OnlyUnder(x, b, q);
    BelowFirst(b.path, rest, q);
  }

  lemma {:induction false} NoneTwice(x: Ctx, b: Branch)
    requires GoodCtx(x) && IsBranch(x, b)
    ensures NoRepeat(Preorder(x, b))
  {
    PreorderIs(x, b);
  }

  lemma {:induction false} AllInOrder(x: Ctx, b: Branch, bs: seq<Branch>)
    requires GoodCtx(x) && Brothers(x, bs) && forall i | 0 <= i < |bs| :: bs[i] < b
    ensures InOrder(PreorderAll(x, bs))
    decreases b, 0, |bs|
  {
    if bs != [] {
      var tail := bs[1..];
      assert forall i | 0 <= i < |tail| :: tail[i] == bs[i + 1];
      PreorderInOrder(x, bs[0]);
      AllInOrder(x, b, tail);
      forall p, q | p in Preorder(x, bs[0]) && q in PreorderAll(x, tail)
        ensures Earlier(p, q)
      {
        OnlyUnder(x, bs[0], p);
        EarlierCovered(x, tail, q);
        var j :| 0 <= j < |tail| && Under(tail[j].path, q);
        assert Siblings(bs[0].path, bs[j + 1].path);
      }
      InOrderJoin(Preorder(x, bs[0]), PreorderAll(x, tail));
    }
  }

  lemma {:induction false} NumberHere(env: Env, p: Path)
    requires |env.pre| < 0x1_0000_0000 && p in env.pre
    ensures NumberOf(env, p) == 1 + Position(env.pre, p)
  {
  }

  lemma {:induction false} NumbersFollow(env: Env, p: Path, q: Path)
    requires |env.pre| < 0x1_0000_0000 && p in env.pre && q in env.pre && InOrder(env.pre)
    ensures NumberOf(env, p) < NumberOf(env, q) ==> Earlier(p, q)
  {
    NumberHere(env, p);
    NumberHere(env, q);
    var i, j := Position(env.pre, p), Position(env.pre, q);
    if i < j {
      assert Earlier(env.pre[i], env.pre[j]);
    }
  }

  lemma {:induction false} PreInOrder(cfg: Config, ops: seq<Op>)
    requires Finished(cfg, ops)
    ensures InOrder(TheEnv(cfg, Final(cfg, ops)).pre)
  {
    var x := Rooted(cfg, Final(cfg, ops));
    GoodRooted(cfg, ops);
    RootShort(x);
    GrowIsBranch(x, Root);
    PreorderInOrder(x, TheRoot(x));
  }

  lemma {:induction false} ShownNumber(cfg: Config, ops: seq<Op>, p: Path)
    requires Finished(cfg, ops) && p in TreeRun(ops).nodes
    ensures ValidPath(p) && ShownAt(cfg, ops, p).Some?
    ensures
      var env, o := TheEnv(cfg, Final(cfg, ops)), Target(TreeRun(ops), p);
      o in env.pre && ShownAt(cfg, ops, p).value.inode == NumberOf(env, o)
  {
    TreeIs(cfg, ops);
    TreeRecovered(cfg, ops, p);
    ShownIs(cfg, ops, p);
    GoodRooted(cfg, ops);
    EachNumbered(Rooted(cfg, Final(cfg, ops)));
  }

  lemma {:induction false} PreSize(cfg: Config, ops: seq<Op>)
    requires Finished(cfg, ops)
    ensures |TheEnv(cfg, Final(cfg, ops)).pre| == |InodeOwners(Rooted(cfg, Final(cfg, ops)))|
  {
    GoodRooted(cfg, ops);
    EachNumbered(Rooted(cfg, Final(cfg, ops)));
  }

  /** In the image, whatever has the smaller inode number comes earlier in that order. */
  lemma {:induction false} NumbersAscend(cfg: Config, ops: seq<Op>, p: Path, q: Path)
    requires Finished(cfg, ops) && p in TreeRun(ops).nodes && q in TreeRun(ops).nodes
    requires |InodeOwners(Rooted(cfg, Final(cfg, ops)))| < 0x1_0000_0000
    ensures ValidPath(p) && ValidPath(q) && ShownAt(cfg, ops, p).Some? && ShownAt(cfg, ops, q).Some?
    ensures ShownAt(cfg, ops, p).value.inode < ShownAt(cfg, ops, q).value.inode ==>
              Earlier(Target(TreeRun(ops), p), Target(TreeRun(ops), q))
  {
    ShownNumber(cfg, ops, p);
    ShownNumber(cfg, ops, q);
    PreSize(cfg, ops);
    PreInOrder(cfg, ops);
    NumbersFollow(TheEnv(cfg, Final(cfg, ops)), Target(TreeRun(ops), p), Target(TreeRun(ops), q));
  }
}
