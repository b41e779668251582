/**
 * What the main theorem says in the caller's own terms: the tree that the calls built, and nothing
 * of how the writer keeps it.
 */
module ImageTree {
  import opened Bytes
  import opened Paths
  import opened Sorting
  import opened WriterSpec
  import opened Closing
  import opened TreeProofs
  import opened ImageReader
  import opened ImageTheorem
  import opened ImageMain
  import opened ImageExact
  import TableProofs

  /** A run that Close turns into an image, small enough for the format, with no overlong listing. */
  ghost predicate Finished(cfg: Config, ops: seq<Op>)
  {
    && GoodConfig(cfg) && Closes(cfg, Final(cfg, ops)) && |ImageOf(cfg,
        Final(cfg, ops)).value| < 0x1_0000_0000_0000_0000
    && ListingsShort(cfg, ops)
  }

  /** What the finished image shows at a path. */
  ghost function Shown(cfg: Config, ops: seq<Op>, names: seq<Bytes>): Option<Stat>
    requires Finished(cfg, ops)
  {
    ImageReader.Lookup(cfg.codec, ImageOf(cfg, Final(cfg, ops)).value, names)
  }

  ghost function ShownAt(cfg: Config, ops: seq<Op>, p: Path): Option<Stat>
    requires Finished(cfg, ops) && (p == Root || ValidPath(p))
  {
    Shown(cfg, ops, if p == Root then [] else Split(p[1..]))
  }

  /** Through a hard link one sees its target. */
  function Target(t: Tree, p: Path): Path
    requires p in t.nodes
  {
    if t.nodes[p].HardlinkN? then t.nodes[p].link else p
  }

  predicate IsWhat(w: What, node: Node, data: Bytes)
  {
    match node
    case FileN(_) => w == RegularFile(data)
    case DirN(_) => w.Folder?
    case SymlinkN(_, target) => w == SymbolicLink(1, target)
    case HardlinkN(_) => false
    case CharN(_, major, minor) => w == Device(false, 1, major, minor)
    case BlockN(_, major, minor) => w == Device(true, 1, major, minor)
    case FifoN(_) => w == Ipc(false, 1)
    case SocketN(_) => w == Ipc(true, 1)
  }

  /** The fixed time if there is one, else the entry's own, else zero. */
  function AskedTime(cfg: Config, a: Attrs): int
  {
    if cfg.mtime.Some? then cfg.mtime.value else if a.mtime.Some? then a.mtime.value else 0
  }

  predicate SameOwner(r: Stat, cfg: Config, a: Attrs)
  {
    r.perm == a.mode % 4096 && r.uid == a.uid && r.gid == a.gid && r.mtime == AskedTime(cfg, a)
  }

  lemma {:induction false} TreeIs(cfg: Config, ops: seq<Op>)
    requires GoodConfig(cfg)
    ensures
      var x, t := Rooted(cfg, Final(cfg, ops)), TreeRun(ops);
      && TreeOk(t.(cur := None)) && x.order == t.order && Root !in t.nodes
      && x.entries.Keys == t.nodes.Keys + {Root} && x.entries[Root].node == DirN(RootAttrs(cfg))
      && forall p | p in t.nodes :: x.entries[p].node == t.nodes[p]
  {
    var s, t := Final(cfg, ops), TreeRun(ops);
    FinalInv(cfg, ops);
    FinalBase(cfg, ops);
    assert NodesOf(s.entries) == t.nodes;
    assert NodesOf(s.entries).Keys == s.entries.Keys;
    assert Root in t.nodes ==> Root in t.order;
  }

  lemma {:induction false} ShownIs(cfg: Config, ops: seq<Op>, p: Path)
    requires Finished(cfg, ops) && (p == Root || ValidPath(p))
    ensures ShownAt(cfg, ops, p) == Expect(TheEnv(cfg, Final(cfg, ops)), TreeRun(ops).contents, p)
  {
    ImageReadsBack(cfg, ops);
    if p != Root {
      SplitFollows(p);
    }
  }

  ghost predicate Recovers(r: Option<Stat>, cfg: Config, t: Tree, p: Path)
    requires p in t.nodes
  {
    var o := Target(t, p);
    && r.Some? && o in t.nodes && !t.nodes[o].HardlinkN?
    && SameOwner(r.value, cfg, AttrsOf(t.nodes[o]))
    && IsWhat(r.value.what, t.nodes[o], if o in t.contents then t.contents[o] else [])
  }

  lemma {:induction false} TimeFits(cfg: Config, ops: seq<Op>, o: Path)
    requires Finished(cfg, ops) && o in InodeOwners(Rooted(cfg, Final(cfg, ops)))
    ensures Mtime(cfg, AttrsOf(Rooted(cfg, Final(cfg, ops)).entries[o].node)).Some?
  {
    var z := FinalScene(cfg, ops);
    assert TableProofs.Written(z.env, z.tb, o);
  }

  lemma {:induction false} ExpectedIs(env: Env, t: Tree, p: Path)
    requires p in t.nodes && NodeOk(t.nodes, p)
    requires forall q | q in t.nodes :: q in env.x.entries && env.x.entries[q].node == t.nodes[q]
    requires Mtime(env.x.cfg, AttrsOf(t.nodes[Target(t, p)])).Some?
    ensures Recovers(Expect(env, t.contents, p), env.x.cfg, t, p)
  {
    assert Target(t, p) in t.nodes;
  }

  /** Everything that was created is there: kind, contents, target, device, permissions, owner, time. */
  lemma {:induction false} TreeRecovered(cfg: Config, ops: seq<Op>, p: Path)
    requires Finished(cfg, ops) && p in TreeRun(ops).nodes
    ensures ValidPath(p) && Recovers(ShownAt(cfg, ops, p), cfg, TreeRun(ops), p)
  {
    var t := TreeRun(ops);
    TreeIs(cfg, ops);
    assert NodeOk(t.nodes, p);
    ShownIs(cfg, ops, p);
    GoodRooted(cfg, ops);
    TimeFits(cfg, ops, Target(t, p));
    ExpectedIs(TheEnv(cfg, Final(cfg, ops)), t, p);
  }

  lemma {:induction false} PathLonger(d: Path, names: seq<Bytes>)
    requires AllValid(names)
    ensures |PathFrom(d, names)| >= |d| && (names != [] ==> |PathFrom(d, names)| > |d|)
    decreases |names|
  {
    if names != [] {
      ChildLonger(d, names[0]);
      PathLonger(Child(d, names[0]), names[1..]);
    }
  }

  /** Nothing else is there. */
  lemma {:induction false} NothingElse(cfg: Config, ops: seq<Op>, names: seq<Bytes>)
    requires Finished(cfg, ops) && names != []
    requires AllValid(names) ==> PathFrom(Root, names) !in TreeRun(ops).nodes
    ensures Shown(cfg, ops, names) == None
  {
    ImageReadsBack(cfg, ops);
    TreeIs(cfg, ops);
    if AllValid(names) {
      PathLonger(Root, names);
    }
  }

  ghost predicate Lists(names: seq<Bytes>, t: Tree, d: Path)
  {
    && (forall i, j | 0 <= i < j < |names| :: Less(names[i], names[j]))
    && (forall name :: name in names <==> ValidName(name) && Child(d, name) in t.nodes)
  }

  lemma {:induction false} KidNames(x: Ctx, t: Tree, d: Path)
    requires GoodCtx(x) && d in x.entries && x.entries.Keys == t.nodes.Keys + {Root} && Root !in t.nodes
    ensures Lists(BaseNames(Kids(x, d)), t, d)
  {
    var names := BaseNames(Kids(x, d));
    KidsSorted(x, d);
    forall i, j | 0 <= i < j < |names|
      ensures Less(names[i], names[j])
    {
      assert Less(BaseOf(Kids(x, d)[i]), BaseOf(Kids(x, d)[j]));
    }
    forall name
      ensures name in names <==> ValidName(name) && Child(d, name) in t.nodes
    {
      ListedIs(x, t, d, name);
    }
  }

  lemma {:induction false} FolderExpected(env: Env, contents: map<Path, Bytes>, d: Path)
    requires IsDir(env.x, d)
    ensures
      var r := Expect(env, contents, d);
      r.Some? && r.value.what.Folder? && r.value.what.names == BaseNames(Kids(env.x, d))
  {
  }

  lemma {:induction false} GoodRooted(cfg: Config, ops: seq<Op>)
    requires Finished(cfg, ops)
    ensures GoodCtx(Rooted(cfg, Final(cfg, ops))) && TheEnv(cfg, Final(cfg, ops)).x == Rooted(cfg, Final(cfg, ops))
    ensures TheEnv(cfg, Final(cfg, ops)).pre == Preorder(Rooted(cfg, Final(cfg, ops)),
              TheRoot(Rooted(cfg, Final(cfg, ops))))
  {
  }

  /** A directory, the root included, lists exactly its children, in strictly increasing order of name. */
  lemma {:induction false} FolderLists(cfg: Config, ops: seq<Op>, d: Path)
    requires Finished(cfg, ops)
    requires d == Root || (d in TreeRun(ops).nodes && TreeRun(ops).nodes[d].DirN?)
    ensures d == Root || ValidPath(d)
    ensures
      var r := ShownAt(cfg, ops, d);
      r.Some? && r.value.what.Folder? && Lists(r.value.what.names, TreeRun(ops), d)
  {
    var t := TreeRun(ops);
    TreeIs(cfg, ops);
    if d != Root {
      assert NodeOk(t.nodes, d);
    }
    GoodRooted(cfg, ops);
    ShownIs(cfg, ops, d);
    FolderExpected(TheEnv(cfg, Final(cfg, ops)), t.contents, d);
    KidNames(Rooted(cfg, Final(cfg, ops)), t, d);
  }

  lemma {:induction false} ListedIs(x: Ctx, t: Tree, d: Path, name: Bytes)
    requires GoodCtx(x) && d in x.entries && x.entries.Keys == t.nodes.Keys + {Root} && Root !in t.nodes
    ensures name in BaseNames(Kids(x, d)) <==> ValidName(name) && Child(d, name) in t.nodes
  {
    var i := NameListed(x, d, name);
    if i >= 0 {
      assert BaseNames(Kids(x, d))[i] == name;
    }
  }

  lemma {:induction false} EachNumbered(x: Ctx)
    requires GoodCtx(x)
    ensures var pre := Preorder(x, TheRoot(x)); |pre| == |InodeOwners(x)| && forall p | p in InodeOwners(x) :: p in pre
  {
    RootShort(x);
    Numbering(x);
  }

  lemma {:induction false} NumbersApart(env: Env, a: Path, b: Path)
    requires |env.pre| < 0x1_0000_0000 && a in env.pre && b in env.pre
    ensures NumberOf(env, a) == NumberOf(env, b) <==> a == b
  {
    var i, j := Position(env.pre, a), Position(env.pre, b);
    assert NumberOf(env, a) == 1 + i && NumberOf(env, b) == 1 + j;
  }

  /** Two paths share an inode number exactly if they name the same thing, directly or by hard link. */
  lemma {:induction false} InodesShared(cfg: Config, ops: seq<Op>, p: Path, q: Path)
    requires Finished(cfg, ops) && p in TreeRun(ops).nodes && q in TreeRun(ops).nodes
    requires |InodeOwners(Rooted(cfg, Final(cfg, ops)))| < 0x1_0000_0000
    ensures ValidPath(p) && ValidPath(q) && ShownAt(cfg, ops, p).Some? && ShownAt(cfg, ops, q).Some?
    ensures ShownAt(cfg, ops, p).value.inode == ShownAt(cfg, ops, q).value.inode <==>
              Target(TreeRun(ops), p) == Target(TreeRun(ops), q)
  {
    TreeIs(cfg, ops);
    TreeRecovered(cfg, ops, p);
    TreeRecovered(cfg, ops, q);
    ShownIs(cfg, ops, p);
    ShownIs(cfg, ops, q);
    GoodRooted(cfg, ops);
    EachNumbered(Rooted(cfg, Final(cfg, ops)));
    NumbersApart(TheEnv(cfg, Final(cfg, ops)), Target(TreeRun(ops), p), Target(TreeRun(ops), q));
  }

  // ---- What a directory says about its neighbours ----

  function Subdirs(t: Tree, d: Path): set<Path>
  {
    set p | p in t.nodes && t.nodes[p].DirN? && Dir(p) == d
  }

  function DirsAmong(x: Ctx, ks: seq<Path>): set<Path>
  {
    set k | k in ks && IsDir(x, k)
  }

  lemma {:induction false} DirsSnoc(x: Ctx, rest: seq<Path>, k: Path)
    requires k !in rest
    ensures DirsAmong(x, rest + [k]) == if IsDir(x, k) then DirsAmong(x, rest) + {k} else DirsAmong(x, rest)
    ensures |DirsAmong(x, rest + [k])| == |DirsAmong(x, rest)| + if IsDir(x, k) then 1 else 0
  {
    assert DirsAmong(x, rest + [k]) == if IsDir(x, k) then DirsAmong(x, rest) + {k} else DirsAmong(x, rest);
  }

  lemma {:induction false} CountIs(x: Ctx, ks: seq<Path>)
    requires forall i, j | 0 <= i < j < |ks| :: ks[i] != ks[j]
    ensures CountDirs(x, ks) == |DirsAmong(x, ks)|
    decreases |ks|
  {
    if ks != [] {
      var n := |ks| - 1;
      var rest, k := ks[..n], ks[n];
      CountIs(x, rest);
      DirsSnoc(x, rest, k);
      TakeNext(ks, n);
      TakeAll(ks);
    }
  }

  lemma {:induction false} LinksAre(x: Ctx, t: Tree, d: Path)
    requires GoodCtx(x) && IsDir(x, d) && x.order == t.order && (forall p :: p in t.order <==> p in t.nodes)
    requires forall p | p in t.nodes :: p in x.entries && x.entries[p].node == t.nodes[p]
    ensures LinksOf(x, d) == (2 + |Subdirs(t, d)|) % 0x1_0000_0000
  {
    KidsSorted(x, d);
    KidsAre(x, d);
    CountIs(x, Kids(x, d));
    assert DirsAmong(x, Kids(x, d)) == Subdirs(t, d);
  }

  lemma {:induction false} FolderIs(env: Env, contents: map<Path, Bytes>, d: Path)
    requires IsDir(env.x, d)
    ensures
      var r := Expect(env, contents, d);
      && r.Some? && r.value.inode == NumberOf(env, d)
      && r.value.what == Folder(LinksOf(env.x, d), ParentNumber(env, d), BaseNames(Kids(env.x, d)))
  {
  }

  lemma {:induction false} RootExpected(env: Env, contents: map<Path, Bytes>, d: Path)
    requires d == Root && IsDir(env.x, d) && env.x.entries[d].node == DirN(RootAttrs(env.x.cfg)) && env.pre != []
               && env.pre[0] == d
    ensures IsRoot(Expect(env, contents, d))
  {
    FolderIs(env, contents, d);
    assert d in env.pre && Position(env.pre, d) == 0;
  }

  predicate IsRoot(r: Option<Stat>)
  {
    && r.Some? && r.value.inode == 1 && r.value.perm == 0x1ED && r.value.uid == 0 && r.value.gid == 0
    && r.value.what.Folder? && r.value.what.parent == 1
  }

  /** The root: number 1, its own parent, 0755, owned by 0:0. */
  lemma {:induction false} RootShown(cfg: Config, ops: seq<Op>, d: Path)
    requires Finished(cfg, ops) && d == Root
    ensures IsRoot(ShownAt(cfg, ops, d))
  {
    TreeIs(cfg, ops);
    GoodRooted(cfg, ops);
    FirstIsRoot(Rooted(cfg, Final(cfg, ops)), d);
    ShownIs(cfg, ops, d);
    RootExpected(TheEnv(cfg, Final(cfg, ops)), TreeRun(ops).contents, d);
  }

  lemma {:induction false} FirstIsRoot(x: Ctx, d: Path)
    requires GoodCtx(x) && d == Root
    ensures var pre := Preorder(x, TheRoot(x)); pre != [] && pre[0] == d
  {
    RootShort(x);
    Numbering(x);
  }

  /**
   * A directory's link count is two plus its subdirectories, and its parent field the number of the
   * directory it is in.
   */
  lemma {:induction false} FolderNeighbours(cfg: Config, ops: seq<Op>, d: Path)
    requires Finished(cfg, ops) && d in TreeRun(ops).nodes && TreeRun(ops).nodes[d].DirN?
    ensures ValidPath(d) && (Dir(d) == Root || ValidPath(Dir(d)))
    ensures
      var r, up := ShownAt(cfg, ops, d), ShownAt(cfg, ops, Dir(d));
      && r.Some? && r.value.what.Folder? && up.Some? && up.value.what.Folder?
      && r.value.what.nlink == (2 + |Subdirs(TreeRun(ops), d)|) % 0x1_0000_0000
      && r.value.what.parent == up.value.inode
  {
    var t := TreeRun(ops);
    TreeIs(cfg, ops);
    GoodRooted(cfg, ops);
    var x, env := Rooted(cfg, Final(cfg, ops)), TheEnv(cfg, Final(cfg, ops));
    assert NodeOk(t.nodes, d);
    UpIsDir(x, d);
    ShownIs(cfg, ops, d);
    ShownIs(cfg, ops, Dir(d));
    FolderIs(env, t.contents, d);
    FolderIs(env, t.contents, Dir(d));
    LinksAre(x, t, d);
  }

  lemma {:induction false} UpIsDir(x: Ctx, d: Path)
    requires GoodCtx(x) && d in x.order
    ensures IsDir(x, Dir(d)) && (Dir(d) == Root || ValidPath(Dir(d)))
  {
    var i :| 0 <= i < |x.order| && x.order[i] == d;
    assert IsDir(x, Dir(x.order[i]));
  }
}
