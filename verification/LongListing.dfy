/**
 * A run that Close accepts and whose image does not read back: one empty file and so many hard links
 * to it, all in the root, that the 32-bit byte count of the root's listing wraps to a small number
 * (squashfs/directory.go:85-103, squashfs/inode.go:123-126).
 */
module LongListing {
  import opened Bytes
  import opened Paths
  import opened Sorting
  import opened Chunking
  import opened Metadata
  import opened Directory
  import opened IdTable
  import opened WriterSpec
  import opened Closing
  import WriterProofs
  import opened TreeProofs
  import opened TableProofs
  import opened ImageTheorem
  import opened ImageMain
  import opened ImageExact
  import RootPlace
  import Superblock
  import Inodes

  const Plain := Attrs(0, 0, 0, None)

  /** 63539 full headers: 2^32 bytes and 14948 more. */
  const EntryCount: nat := 63539 * 256

  // ---- Listings of equal rows ----

  predicate Uniform(es: seq<DirEnt>)
  {
    forall i | 0 <= i < |es| :: es[i].block == es[0].block && es[i].inode == es[0].inode && |es[i].name| == 256
  }

  lemma {:induction false} UniformRun(es: seq<DirEnt>)
    requires Uniform(es) && |es| >= 256
    ensures Directory.Run(es) == 256
  {
    RunMaximal(es);
  }

  lemma {:induction false} UniformNames(es: seq<DirEnt>)
    requires Uniform(es)
    ensures NamesOk(es) && NamesLength(es) == 256 * |es|
    decreases |es|
  {
    if es != [] {
      UniformNames(es[1..]);
      assert forall i | 0 <= i < |es| :: NameOk(es[i]);
    }
  }

  /** Every full header and its rows take 67596 bytes. */
  lemma {:induction false} UniformLength(es: seq<DirEnt>, groups: nat)
    requires Uniform(es) && |es| == groups * 256
    ensures NamesOk(es) && |EncodeListing(es)| == groups * 67596
    decreases groups
  {
    UniformNames(es);
    if groups > 0 {
      UniformRun(es);
      var first, rest := es[..256], es[256..];
      UniformNames(first);
      EntsLength(first, es[0].inode);
      UniformLength(rest, groups - 1);
    }
  }

  // ---- A root full of links to one file ----

  /** The root holds the file `f`, empty and without data, and hard links to it; every name has 256 bytes. */
  ghost predicate FullOfLinks(x: Ctx, f: Path)
  {
    && GoodCtx(x) && f in x.order && x.cfg.blockSize > 0
    && (forall p | p in x.order ::
          Dir(p) == Root && |Base(p)| == 256 && x.entries[p].node == if p == f then FileN(Plain) else HardlinkN(f))
    && x.entries[f] == Entry(FileN(Plain), Superblock.SuperblockSize, [], 0)
    && x.entries[Root].node == DirN(RootAttrs(x.cfg)) && Mtime(x.cfg, RootAttrs(x.cfg)).Some?
  }

  lemma {:induction false} AllWithin(order: seq<Path>, d: Path)
    requires forall i | 0 <= i < |order| :: Dir(order[i]) == d
    ensures Within(order, d) == order
    decreases |order|
  {
    if order != [] {
      var n := |order| - 1;
      AllWithin(order[..n], d);
      TakeNext(order, n);
      TakeAll(order);
    }
  }

  lemma {:induction false} LinkKids(x: Ctx, f: Path, d: Path)
    requires FullOfLinks(x, f) && d == Root
    ensures |Kids(x, d)| == |x.order| && forall p :: p in Kids(x, d) <==> p in x.order
  {
    KidsAre(x, d);
    forall i | 0 <= i < |x.order|
      ensures Dir(x.order[i]) == d
    {
      assert x.order[i] in x.order;
    }
    AllWithin(x.order, d);
    SortSize(Within(x.order, d));
  }

  lemma {:induction false} SortSize(w: seq<Path>)
    ensures |Sort(w, BaseOf)| == |w|
  {
    assert |multiset(Sort(w, BaseOf))| == |multiset(w)|;
  }

  // Owners

  lemma {:induction false} ZerosIntern(list: seq<u32>, ids: seq<u32>)
    requires (list == [] || list == [0]) && forall i | 0 <= i < |ids| :: ids[i] == 0
    ensures InternAll(list, ids).Some? && |InternAll(list, ids).value| <= 1
    decreases |ids|
  {
    if ids != [] {
      var next := Interned(list, ids[0]);
      assert next == Some([0]) by {
        assert [] + [ids[0]] == [ids[0]];
      }
      ZerosIntern([0], ids[1..]);
    }
  }

  lemma {:induction false} LinksMetZero(x: Ctx, f: Path, k: nat)
    requires FullOfLinks(x, f) && k <= |x.order|
    ensures forall i | 0 <= i < |IdsMet(x, x.order[..k])| :: IdsMet(x, x.order[..k])[i] == 0
    decreases k
  {
    if k > 0 {
      LinksMetZero(x, f, k - 1);
      assert x.order[..k][..k - 1] == x.order[..k - 1] && x.order[k - 1] in x.order;
    }
  }

  lemma {:induction false} LinkIds(x: Ctx, f: Path)
    requires FullOfLinks(x, f)
    ensures IdList(x).Some? && |IdList(x).value| <= 1
  {
    LinksMetZero(x, f, |x.order|);
    TakeAll(x.order);
    ZerosIntern([], IdsMet(x, x.order) + [0, 0]);
  }

  // The tables

  /** After the first pass: the file's record at the very front, and nothing else. */
  ghost predicate OneRecord(x: Ctx, f: Path, tb: Tables)
  {
    && Open(tb) && GoodTables(tb) && tb.inodes.done == [] && tb.dirs == Empty && tb.locs == map[]
    && tb.refs == map[f := MetaRef(0, 0)]
  }

  lemma {:induction false} FileInode(env: Env, f: Path)
    requires FullOfLinks(env.x, f)
    ensures f in env.x.entries && InodeOf(env, f, NoLoc).Some?
    ensures |Inodes.Encode(InodeOf(env, f, NoLoc).value)| < BlockCap
  {
    var e := env.x.entries[f];
    NoBlocks(env.x.cfg.blockSize);
    assert BodyOf(env, f, NoLoc) == Some(Inodes.FileB(e.start, 0, []));
    RootPlace.BodyLength(InodeOf(env, f, NoLoc).value.body);
  }

  lemma {:induction false} NoBlocks(size: nat)
    requires size > 0
    ensures Ceil(0, size) == 0
  {
  }

  lemma {:induction false} FirstWrite(env: Env, f: Path, rec: Bytes)
    requires env.x.cfg.blockSize > 0 && f in env.x.entries && InodeOf(env, f, NoLoc).Some? && |rec| < BlockCap
    requires rec == Inodes.Encode(InodeOf(env, f, NoLoc).value)
    ensures WriteInode(env, f, NoTables).Some? && OneRecord(env.x, f, WriteInode(env, f, NoTables).value)
  {
    AppendSmall(BlockCap, Empty, rec);
    AppendFacts(BlockCap, Empty, rec);
  }

  lemma {:induction false} FileRecord(env: Env, f: Path)
    requires FullOfLinks(env.x, f)
    ensures WriteInode(env, f, NoTables).Some? && OneRecord(env.x, f, WriteInode(env, f, NoTables).value)
  {
    FileInode(env, f);
    FirstWrite(env, f, Inodes.Encode(InodeOf(env, f, NoLoc).value));
  }

  lemma {:induction false} FirstPass(env: Env, f: Path, order: seq<Path>)
    requires env.x.cfg.blockSize > 0 && Leaf(env.x, f) && WriteInode(env, f, NoTables).Some?
    requires forall i | 0 <= i < |order| :: order[i] == f || !Leaf(env.x, order[i])
    requires forall i, j | 0 <= i < j < |order| :: order[i] != order[j]
    ensures WriteLeaves(env, order) == if f in order then WriteInode(env, f, NoTables) else Some(NoTables)
    decreases |order|
  {
    if order != [] {
      var n := |order| - 1;
      FirstPass(env, f, order[..n]);
      TakeNext(order, n);
      TakeAll(order);
    }
  }

  lemma {:induction false} NoSubdirs(env: Env, bs: seq<Branch>, tb: Tables)
    requires env.x.cfg.blockSize > 0 && Open(tb) && forall i | 0 <= i < |bs| :: !IsDir(env.x, bs[i].path)
    ensures WriteSubdirs(env, bs, tb) == Some(tb)
    decreases |bs|
  {
    if bs != [] {
      NoSubdirs(env, bs[1..], tb);
    }
  }

  predicate RowIs(env: Env, tb: Tables, k: Path, inode: nat)
  {
    var e := EntFor(env, tb, k);
    e.Some? && e.value.block == 0 && e.value.inode == inode && |e.value.name| == 256
  }

  /** Every row quotes the one record. */
  lemma {:induction false} OneRow(env: Env, f: Path, tb: Tables, k: Path)
    requires FullOfLinks(env.x, f) && k in env.x.order && f in tb.refs && tb.refs[f] == MetaRef(0, 0)
    ensures RowIs(env, tb, k, NumberOf(env, f))
  {
    assert Owner(env.x, k) == f && BlockOffset(env.x.cfg.codec, tb.inodes.done, 0) == 0;
  }

  lemma {:induction false} EqualRows(env: Env, tb: Tables, ks: seq<Path>, inode: nat)
    requires forall i | 0 <= i < |ks| :: RowIs(env, tb, ks[i], inode)
    ensures EntsFor(env, tb, ks).Some?
    ensures
      var es := EntsFor(env, tb, ks).value;
      forall i | 0 <= i < |es| :: es[i].block == 0 && es[i].inode == inode && |es[i].name| == 256
    decreases |ks|
  {
    if ks != [] {
      EqualRows(env, tb, ks[..|ks| - 1], inode);
      assert RowIs(env, tb, ks[|ks| - 1], inode);
    }
  }

  lemma {:induction false} SortedEqual(es: seq<DirEnt>, n: nat)
    requires forall i | 0 <= i < |es| :: es[i].block == 0 && es[i].inode == n && |es[i].name| == 256
    ensures Uniform(Sort(es, NameOf)) && |Sort(es, NameOf)| == |es|
  {
    var s := Sort(es, NameOf);
    assert |multiset(s)| == |multiset(es)|;
    forall i | 0 <= i < |s|
      ensures s[i].block == 0 && s[i].inode == n && |s[i].name| == 256
    {
      assert s[i] in multiset(es);
    }
  }

  /** Too long for its 32-bit count, which nevertheless looks small. */
  predicate LongWrapped(n: nat)
  {
    0x1_0000_0000 <= n < 0x2_0000_0000 && n % 0x1_0000_0000 + 3 <= 0xFFFF
  }

  /** So the listing has the same length whichever tables it is read from. */
  lemma {:induction false} LinkListing(env: Env, f: Path, tb: Tables, d: Path)
    requires FullOfLinks(env.x, f) && |env.x.order| == EntryCount && f in tb.refs && tb.refs[f] == MetaRef(0, 0)
               && d == Root
    ensures EntsFor(env, tb, Kids(env.x, d)).Some? && NamesOk(Rows(env, tb, d))
    ensures LongWrapped(|EncodeListing(Rows(env, tb, d))|)
  {
    var ks := Kids(env.x, d);
    LinkKids(env.x, f, d);
    forall i | 0 <= i < |ks|
      ensures RowIs(env, tb, ks[i], NumberOf(env, f))
    {
      assert ks[i] in ks;
      OneRow(env, f, tb, ks[i]);
    }
    EqualRows(env, tb, ks, NumberOf(env, f));
    SortedEqual(EntsFor(env, tb, ks).value, NumberOf(env, f));
    UniformLength(Rows(env, tb, d), 63539);
    WrapIs(|EncodeListing(Rows(env, tb, d))|);
  }

  lemma {:induction false} WrapIs(n: nat)
    requires n == 63539 * 67596
    ensures LongWrapped(n)
  {
  }

  predicate PlainRoot(x: Ctx, d: Path)
  {
    d in x.entries && x.entries[d].node.DirN? && Mtime(x.cfg, AttrsOf(x.entries[d].node)).Some? && x.cfg.blockSize > 0
  }

  /** A record is made for a listing of any length whose wrapped count is small. */
  lemma {:induction false} RootRecord(env: Env, d: Path, loc: Loc)
    requires PlainRoot(env.x, d) && loc.start <= 0xFFFF_FFFF && loc.size + 3 <= 0xFFFF
    ensures InodeOf(env, d, loc).Some?
  {
    DirMade(loc.start, LinksOf(env.x, d), loc.size, loc.ref.off, ParentNumber(env, d));
    assert BodyOf(env, d, loc).Some?;
  }

  lemma {:induction false} DirMade(start: nat, links: nat, size: nat, off: nat, parent: nat)
    requires start <= 0xFFFF_FFFF && size + 3 <= 0xFFFF
    ensures Inodes.DirBody(start, links, size, off, parent).Some?
  {
  }

  predicate TablesSmall(tb: Tables)
  {
    |Content(tb.inodes)| < 0x10_0000_0000 && |Content(tb.dirs)| < 0x10_0000_0000
  }

  /** The wrapped count passes the 16-bit check. */
  lemma {:induction false} SecondPass(env: Env, tb: Tables, d: Path)
    requires PlainRoot(env.x, d) && Open(tb) && tb.dirs == Empty
    requires EntsFor(env, tb, Kids(env.x, d)).Some? && NamesOk(Rows(env, tb, d))
    requires LongWrapped(|EncodeListing(Rows(env, tb, d))|)
    ensures WriteOneDir(env, d, tb).Some? && WriteOneDir(env, d, tb).value.refs == tb.refs[d := Here(tb.inodes)]
    ensures tb.inodes.done == [] ==> TablesSmall(WriteOneDir(env, d, tb).value)
  {
    OneDirIs(env, d, tb);
    AppendCur(tb.dirs);
    var next := WithRows(env, d, tb);
    RootRecord(env, d, LocOf(next, d));
    InodeWritten(env, d, next);
    RootPlace.RecordShort(env, d, LocOf(next, d));
    AppendFacts(BlockCap, tb.dirs, EncodeListing(Rows(env, tb, d)));
    AppendFacts(BlockCap, tb.inodes, Inodes.Encode(InodeOf(env, d, LocOf(next, d)).value));
  }

  lemma {:induction false} OnlyLeaf(x: Ctx, f: Path, d: Path)
    requires FullOfLinks(x, f) && d == Root
    ensures Leaf(x, f) && f != d && PlainRoot(x, d)
    ensures forall i | 0 <= i < |x.order| :: (x.order[i] == f || !Leaf(x, x.order[i])) && !IsDir(x, x.order[i])
  {
    forall i | 0 <= i < |x.order|
      ensures (x.order[i] == f || !Leaf(x, x.order[i])) && !IsDir(x, x.order[i])
    {
      assert x.order[i] in x.order;
    }
  }

  lemma {:induction false} TablesFrom(env: Env, root: Branch, tb: Tables)
    requires env.x.cfg.blockSize > 0 && Open(tb) && WriteLeaves(env, env.x.order) == Some(tb)
    requires WriteSubdirs(env, root.kids, tb) == Some(tb)
    ensures TablesOf(env, root) == WriteOneDir(env, root.path, tb)
  {
  }

  lemma {:induction false} LinkTables(env: Env, f: Path, root: Branch)
    requires FullOfLinks(env.x, f) && |env.x.order| == EntryCount && IsBranch(env.x, root) && root.path == Root
    ensures TablesOf(env, root).Some?
    ensures f in TablesOf(env, root).value.refs && TablesOf(env, root).value.refs[f] == MetaRef(0, 0)
    ensures TablesSmall(TablesOf(env, root).value)
  {
    var tb := AfterLeaves(env, f);
    OnlyLeaf(env.x, f, root.path);
    KidsNotDirs(env.x, f, root);
    NoSubdirs(env, root.kids, tb);
    LinkListing(env, f, tb, root.path);
    TablesGiven(env, f, root, tb);
  }

  lemma {:induction false} AfterLeaves(env: Env, f: Path) returns (tb: Tables)
    requires FullOfLinks(env.x, f)
    ensures WriteLeaves(env, env.x.order) == Some(tb) && OneRecord(env.x, f, tb)
  {
    OnlyLeaf(env.x, f, Root);
    FileRecord(env, f);
    FirstPass(env, f, env.x.order);
    tb := WriteInode(env, f, NoTables).value;
  }

  lemma {:induction false} TablesGiven(env: Env, f: Path, root: Branch, tb: Tables)
    requires PlainRoot(env.x, root.path) && f != root.path
    requires WriteLeaves(env, env.x.order) == Some(tb) && OneRecord(env.x, f, tb)
               && WriteSubdirs(env, root.kids, tb) == Some(tb)
    requires EntsFor(env, tb, Kids(env.x, root.path)).Some? && NamesOk(Rows(env, tb, root.path))
    requires LongWrapped(|EncodeListing(Rows(env, tb, root.path))|)
    ensures TablesOf(env, root).Some?
    ensures f in TablesOf(env, root).value.refs && TablesOf(env, root).value.refs[f] == MetaRef(0, 0)
    ensures TablesSmall(TablesOf(env, root).value)
  {
    TablesFrom(env, root, tb);
    SecondPass(env, tb, root.path);
  }

  lemma {:induction false} KidsNotDirs(x: Ctx, f: Path, root: Branch)
    requires FullOfLinks(x, f) && IsBranch(x, root) && root.path == Root
    ensures forall i | 0 <= i < |root.kids| :: !IsDir(x, root.kids[i].path)
  {
    var ks := Kids(x, root.path);
    LinkKids(x, f, root.path);
    forall i | 0 <= i < |root.kids|
      ensures !IsDir(x, root.kids[i].path)
    {
      assert ks[i] in ks && ks[i] in x.order;
    }
  }

  // ---- Such a run ----

  function Digit(n: nat): byte
  {
    65 + n % 64
  }

  /** 252 times 'a' and four base-64 digits. */
  function Name(i: nat): (r: Bytes)
    ensures |r| == 256
  {
    seq(252, _ => 97) + [Digit(i), Digit(i / 64), Digit(i / 4096), Digit(i / 262144)]
  }

  lemma {:induction false} FourDigits(i: nat)
    requires i < 16777216
    ensures i == i % 64 + 64 * (i / 64 % 64) + 4096 * (i / 4096 % 64) + 262144 * (i / 262144 % 64)
  {
    assert i / 4096 == i / 64 / 64 && i / 262144 == i / 4096 / 64;
  }

  lemma {:induction false} NamesDiffer(i: nat, j: nat)
    requires i < 16777216 && j < 16777216 && Name(i) == Name(j)
    ensures i == j
  {
    assert Name(i)[252] == Digit(i) && Name(i)[253] == Digit(i / 64);
    assert Name(i)[254] == Digit(i / 4096) && Name(i)[255] == Digit(i / 262144);
    assert Name(j)[252] == Digit(j) && Name(j)[253] == Digit(j / 64);
    assert Name(j)[254] == Digit(j / 4096) && Name(j)[255] == Digit(j / 262144);
    FourDigits(i);
    FourDigits(j);
  }

  function PathAt(i: nat): (p: Path)
  {
    Child(Root, Name(i))
  }

  lemma {:induction false} PathIs(i: nat)
    ensures ValidPath(PathAt(i)) && PathAt(i) != Root
    ensures Dir(PathAt(i)) == Root && Base(PathAt(i)) == Name(i)
  {
    var p, name := PathAt(i), Name(i);
    forall k | 0 <= k < |name|
      ensures name[k] != SLASH
    {
    }
    DirOfChild(Root, name);
    assert p[1..] == name && NextSlash(name, 0) == |name|;
    assert Split(p[1..]) == [name];
    assert p[|p| - 1] == name[255];
  }

  lemma {:induction false} PathsDiffer(i: nat, j: nat)
    requires i < j < 16777216
    ensures PathAt(i) != PathAt(j)
  {
    PathIs(i);
    PathIs(j);
    if PathAt(i) == PathAt(j) {
      NamesDiffer(i, j);
    }
  }

  function NodeAt(i: nat): Node
  {
    if i == 0 then FileN(Plain) else HardlinkN(PathAt(0))
  }

  /** Create the file, then the links. */
  function Calls(n: nat): (ops: seq<Op>)
    ensures |ops| == n
  {
    if n == 0 then [] else Calls(n - 1) + [Create(PathAt(n - 1), NodeAt(n - 1))]
  }

  function EntryAt(i: nat): Entry
  {
    Entry(NodeAt(i), Superblock.SuperblockSize, [], 0)
  }

  function Made(n: nat): map<Path, Entry>
  {
    if n == 0 then map[] else Made(n - 1)[PathAt(n - 1) := EntryAt(n - 1)]
  }

  function Order(n: nat): (r: seq<Path>)
    ensures |r| == n
  {
    if n == 0 then [] else Order(n - 1) + [PathAt(n - 1)]
  }

  lemma {:induction false} OrderAt(n: nat, i: nat)
    requires i < n
    ensures Order(n)[i] == PathAt(i)
    decreases n
  {
    if i < n - 1 {
      OrderAt(n - 1, i);
    }
  }

  lemma {:induction false} MadeAt(n: nat, i: nat)
    requires n <= 16777216 && i < n
    ensures PathAt(i) in Made(n) && Made(n)[PathAt(i)] == EntryAt(i)
    decreases n
  {
    if i < n - 1 {
      MadeAt(n - 1, i);
      PathsDiffer(i, n - 1);
    }
  }

  lemma {:induction false} NotMade(n: nat, i: nat)
    requires n <= i < 16777216
    ensures PathAt(i) !in Made(n)
    decreases n
  {
    if n > 0 {
      NotMade(n - 1, i);
      PathsDiffer(n - 1, i);
    }
  }

  function AfterCalls(n: nat): State
  {
    State(Start().out, Made(n), Order(n), if n == 1 then Some(Cur(PathAt(0), [])) else None)
  }

  lemma {:induction false} Accepted(nodes: map<Path, Node>, p: Path, node: Node, f: Path)
    requires ValidPath(p) && p !in nodes && ValidPath(f)
    requires node == FileN(Plain) || (node == HardlinkN(f) && f in nodes && nodes[f] == FileN(Plain))
    ensures Refusal(nodes, p, node).None?
  {
  }

  lemma {:induction false} NotRefused(n: nat, f: Path)
    requires n < 16777216 && f == PathAt(0)
    ensures Refusal(NodesOf(Made(n)), PathAt(n), NodeAt(n)).None?
  {
    PathIs(n);
    PathIs(0);
    NotMade(n, n);
    if n > 0 {
      MadeAt(n, 0);
    }
    Accepted(NodesOf(Made(n)), PathAt(n), NodeAt(n), f);
  }

  lemma {:induction false} OneCall(c: Codec, n: nat)
    requires n < 16777216
    ensures n == 1 ==> PathAt(0) in Made(1)
    ensures CreateStep(c, AfterCalls(n), PathAt(n), NodeAt(n)) == AfterCalls(n + 1)
  {
    if n == 1 {
      MadeAt(1, 0);
    }
    NotRefused(n, PathAt(0));
    assert FlushCur(c, AfterCalls(n)) == AfterCalls(n).(cur := None);
  }

  lemma {:induction false} CallsLead(c: Codec, size: nat, n: nat)
    requires n <= 16777216 && size > 0
    ensures WriterProofs.Run(c, size, Calls(n)) == Some(AfterCalls(n))
    decreases n
  {
    if n > 0 {
      CallsLead(c, size, n - 1);
      assert Calls(n)[..n - 1] == Calls(n - 1);
      OneCall(c, n - 1);
    } else {
      assert AfterCalls(0) == Start();
    }
  }

  lemma {:induction false} CallsMade(cfg: Config, n: nat, i: nat, f: Path)
    requires i < n <= 16777216 && f == PathAt(0)
    ensures
      var x, p := Rooted(cfg, AfterCalls(n)), PathAt(i);
      && x.order[i] == p && p in x.entries && x.entries[p] == EntryAt(i)
      && Dir(p) == Root && |Base(p)| == 256 && (p == f <==> i == 0)
  {
    OrderAt(n, i);
    MadeAt(n, i);
    PathIs(i);
    if i > 0 {
      PathsDiffer(0, i);
    }
  }

  lemma {:induction false} CallsFill(cfg: Config, n: nat)
    requires cfg.blockSize > 0 && 2 <= n <= 16777216 && Mtime(cfg, RootAttrs(cfg)).Some?
    ensures Final(cfg, Calls(n)) == AfterCalls(n) && FullOfLinks(Rooted(cfg, AfterCalls(n)), PathAt(0))
  {
    CallsLead(cfg.codec, cfg.blockSize, n);
    FinalBase(cfg, Calls(n));
    var x, f := Rooted(cfg, AfterCalls(n)), PathAt(0);
    forall p | p in x.order
      ensures Dir(p) == Root && |Base(p)| == 256 && x.entries[p].node == if p == f then FileN(Plain) else HardlinkN(f)
    {
      var i :| 0 <= i < n && x.order[i] == p;
      CallsMade(cfg, n, i, f);
    }
    CallsMade(cfg, n, 0, f);
    RootHasDir(x);
  }

  lemma {:induction false} RootHasDir(x: Ctx)
    requires BaseCtx(x) && forall p | p in x.order :: Dir(p) == Root
    ensures GoodCtx(x)
  {
    forall i | 0 <= i < |x.order|
      ensures IsDir(x, Dir(x.order[i]))
    {
      assert x.order[i] in x.order;
    }
  }

  // ---- What becomes of it ----

  lemma {:induction false} StreamBound(c: Codec, ch: Chunks)
    requires Wf(BlockCap, ch)
    ensures |Emit(c, Seal(ch).done)| <= 3 * |Content(ch)|
  {
    SealFacts(BlockCap, ch);
    RootPlace.EmitLength(c, Seal(ch).done);
  }

  lemma {:induction false} IdsBound(c: Codec, ids: seq<u32>)
    requires |ids| <= 1
    ensures |Emit(c, IdBlocks(ids))| <= 12 && |IdBlocks(ids)| <= 1
  {
    StreamShape(ids);
    AppendFacts(BlockCap, Empty, IdBytes(ids));
    StreamBound(c, IdStream(ids));
  }

  lemma {:induction false} BodyBound(env: Env, tb: Tables, out: Bytes)
    requires GoodTables(tb) && TablesSmall(tb) && |env.ids| <= 1 && |out| == Superblock.SuperblockSize
    ensures |Body(RegionsOf(env, tb, out))| < 0x100_0000_0000
  {
    var c := env.x.cfg.codec;
    RegionFacts(env, tb, out);
    StreamBound(c, tb.inodes);
    StreamBound(c, tb.dirs);
    IdsBound(c, env.ids);
  }

  lemma {:induction false} LinksClose(cfg: Config, s: State, f: Path)
    requires GoodConfig(cfg) && |s.out| == Superblock.SuperblockSize
    requires FullOfLinks(Rooted(cfg, s), f) && |Rooted(cfg, s).order| == EntryCount
    ensures Closes(cfg, s)
    ensures TablesSmall(TheTables(cfg, s)) && |TheEnv(cfg, s).ids| <= 1
    ensures f in TheTables(cfg, s).refs && TheTables(cfg, s).refs[f] == MetaRef(0, 0)
  {
    var x := Rooted(cfg, s);
    LinkIds(x, f);
    RootShort(x);
    GrowIsBranch(x, Root);
    var root := Grow(x, Root);
    var env := Env(x, Preorder(x, root), IdList(x).value);
    LinkTables(env, f, root);
    RootPlace.RootLow(env, root);
  }

  lemma {:induction false} ImageSmall(cfg: Config, s: State, contents: map<Path, Bytes>)
    requires Closes(cfg, s) && |s.out| == Superblock.SuperblockSize
    requires TablesSmall(TheTables(cfg, s)) && |TheEnv(cfg, s).ids| <= 1
    ensures |ImageOf(cfg, s).value| < 0x1_0000_0000_0000_0000
  {
    SceneImage(cfg, s, contents);
    SceneTables(cfg, s, contents);
    var env, tb := TheEnv(cfg, s), TheTables(cfg, s);
    BodyBound(env, tb, s.out);
    PaddingIs(TheScene(cfg, s, contents).sb, Body(RegionsOf(env, tb, s.out)));
  }

  lemma {:induction false} RootTooLong(cfg: Config, s: State, f: Path, contents: map<Path, Bytes>, d: Path)
    requires Closes(cfg, s) && FullOfLinks(Rooted(cfg, s), f) && |Rooted(cfg, s).order| == EntryCount && d == Root
    requires f in TheTables(cfg, s).refs && TheTables(cfg, s).refs[f] == MetaRef(0, 0)
    ensures !AllShort(TheScene(cfg, s, contents))
  {
    var z := TheScene(cfg, s, contents);
    LinkListing(z.env, f, z.tb, d);
    assert IsDir(z.env.x, d) && !Short(z.env, z.tb, d);
  }

  /**
   * One file and 16265983 hard links with names of 256 bytes: Close reports success, some listing
   * exceeds its count, and the image does not read back.
   */
  lemma {:induction false} LongRunCloses(cfg: Config, n: nat)
    requires GoodConfig(cfg) && Mtime(cfg, RootAttrs(cfg)).Some? && n == EntryCount
    ensures Closes(cfg, Final(cfg, Calls(n))) && |ImageOf(cfg, Final(cfg, Calls(n))).value| < 0x1_0000_0000_0000_0000
    ensures !ListingsShort(cfg, Calls(n)) && !ReadsBack(cfg, Calls(n))
  {
    CallsFill(cfg, n);
    var s, f, t := AfterCalls(n), PathAt(0), TreeRun(Calls(n)).contents;
    LinksClose(cfg, s, f);
    ImageSmall(cfg, s, t);
    RootTooLong(cfg, s, f, t, Root);
    ImageReadsBack(cfg, Calls(n));
  }
}
