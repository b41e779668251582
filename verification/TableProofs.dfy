/**
 * The inode and directory tables while they grow: what has been written stays where its recorded
 * reference says, and every listing keeps naming the right inodes.
 */
module TableProofs {
  import opened Bytes
  import opened Paths
  import opened Sorting
  import opened Chunking
  import opened Metadata
  import opened Directory
  import opened Closing
  import opened TreeProofs
  import Inodes

  predicate GoodTables(tb: Tables)
  {
    Wf(BlockCap, tb.inodes) && Wf(BlockCap, tb.dirs)
  }

  /** The inode of `p` is in the table, at the place recorded for it. */
  predicate Written(env: Env, tb: Tables, p: Path)
    requires env.x.cfg.blockSize > 0
  {
    && p in env.x.entries && p in tb.refs && tb.refs[p].off < BlockCap
    && InodeOf(env, p, LocOf(tb, p)).Some?
    && Holds(tb.inodes, tb.refs[p], Inodes.Encode(InodeOf(env, p, LocOf(tb, p)).value))
  }

  /** The rows of a directory, as the tables stand. */
  function Rows(env: Env, tb: Tables, d: Path): (es: seq<DirEnt>)
  {
    if EntsFor(env, tb, Kids(env.x, d)).Some? then Sort(EntsFor(env, tb, Kids(env.x, d)).value, NameOf) else []
  }

  /** The listing of `d` is in the table, at the place recorded for it. */
  predicate ListedAt(env: Env, tb: Tables, d: Path)
  {
    && d in tb.locs
    && EntsFor(env, tb, Kids(env.x, d)).Some?
    && NamesOk(Rows(env, tb, d))
    && var loc := tb.locs[d];
       && Holds(tb.dirs, loc.ref, EncodeListing(Rows(env, tb, d)))
       && loc.ref.off < BlockCap
       && loc.start == BlockOffset(env.x.cfg.codec, tb.dirs.done, loc.ref.block)
       && loc.size == |EncodeListing(Rows(env, tb, d))| % 0x1_0000_0000
  }

  predicate Kept<V(==)>(a: map<Path, V>, b: map<Path, V>)
  {
    forall p | p in a :: p in b && b[p] == a[p]
  }

  predicate Grows(a: Tables, b: Tables)
  {
    Extends(a.inodes, b.inodes) && Extends(a.dirs, b.dirs) && Kept(a.refs, b.refs) && Kept(a.locs, b.locs)
  }

  lemma {:induction false} GrowsTrans(a: Tables, b: Tables, c: Tables)
    requires Grows(a, b) && Grows(b, c)
    ensures Grows(a, c)
  {
    ExtendsTrans(a.inodes, b.inodes, c.inodes);
    ExtendsTrans(a.dirs, b.dirs, c.dirs);
  }

  lemma {:induction false} LocIrrelevant(env: Env, p: Path, l: Loc, m: Loc)
    requires p in env.x.entries && env.x.cfg.blockSize > 0 && !IsDir(env.x, p)
    ensures InodeOf(env, p, l) == InodeOf(env, p, m)
  {
  }

  lemma {:induction false} WrittenStable(env: Env, a: Tables, b: Tables, p: Path)
    requires env.x.cfg.blockSize > 0 && Grows(a, b) && Written(env, a, p)
    requires IsDir(env.x, p) ==> p in a.locs
    ensures Written(env, b, p)
  {
    if !IsDir(env.x, p) {
      LocIrrelevant(env, p, LocOf(a, p), LocOf(b, p));
    }
    HoldsStable(a.inodes, b.inodes, a.refs[p], Inodes.Encode(InodeOf(env, p, LocOf(a, p)).value));
  }

  lemma {:induction false} EntStable(env: Env, a: Tables, b: Tables, k: Path)
    requires Grows(a, b) && EntFor(env, a, k).Some?
    ensures EntFor(env, b, k) == EntFor(env, a, k)
  {
    var o := Owner(env.x, k);
    OffsetStable(env.x.cfg.codec, a.inodes, b.inodes, a.refs[o].block);
  }

  lemma {:induction false} EntsStable(env: Env, a: Tables, b: Tables, ks: seq<Path>)
    requires Grows(a, b) && EntsFor(env, a, ks).Some?
    ensures EntsFor(env, b, ks) == EntsFor(env, a, ks)
    decreases |ks|
  {
    if ks != [] {
      EntsStable(env, a, b, ks[..|ks| - 1]);
      EntStable(env, a, b, ks[|ks| - 1]);
    }
  }

  lemma {:induction false} ListedStable(env: Env, a: Tables, b: Tables, d: Path)
    requires Grows(a, b) && ListedAt(env, a, d)
    ensures ListedAt(env, b, d)
  {
    EntsStable(env, a, b, Kids(env.x, d));
    HoldsStable(a.dirs, b.dirs, a.locs[d].ref, EncodeListing(Rows(env, a, d)));
    OffsetStable(env.x.cfg.codec, a.dirs, b.dirs, a.locs[d].ref.block);
  }

  // ---- One inode ----

  lemma {:induction false} WriteInodeFacts(env: Env, p: Path, tb: Tables)
    requires env.x.cfg.blockSize > 0 && GoodTables(tb)
    requires WriteInode(env, p, tb).Some? && p !in tb.refs
    ensures
      var r := WriteInode(env, p, tb).value;
      && GoodTables(r) && Grows(tb, r) && Written(env, r, p)
      && r.refs.Keys == tb.refs.Keys + {p} && r.locs == tb.locs && r.dirs == tb.dirs
  {
    var i := InodeOf(env, p, LocOf(tb, p)).value;
    AppendFacts(BlockCap, tb.inodes, Inodes.Encode(i));
    HoldsNew(BlockCap, tb.inodes, Inodes.Encode(i));
    ExtendsSelf(tb.dirs);
  }

  lemma {:induction false} ExtendsSelf(ch: Chunks)
    ensures Extends(ch, ch)
  {
    TakeAll(ch.done);
  }

  // ---- The first pass ----

  function Leaves(x: Ctx, order: seq<Path>): (r: set<Path>)
  {
    set p | p in order && Leaf(x, p)
  }

  lemma {:induction false} LeavesWritten(env: Env, order: seq<Path>)
    requires env.x.cfg.blockSize > 0 && WriteLeaves(env, order).Some?
    requires forall i, j | 0 <= i < j < |order| :: order[i] != order[j]
    ensures
      var tb := WriteLeaves(env, order).value;
      && GoodTables(tb) && tb.locs == map[] && tb.dirs == Empty
      && tb.refs.Keys == Leaves(env.x, order)
      && forall p | p in Leaves(env.x, order) :: Written(env, tb, p)
    decreases |order|
  {
    if order != [] {
      var n := |order| - 1;
      LeavesWritten(env, order[..n]);
      LeavesSnoc(env.x, order);
      var tb := WriteLeaves(env, order[..n]).value;
      if Leaf(env.x, order[n]) {
        WriteInodeFacts(env, order[n], tb);
        var r := WriteInode(env, order[n], tb).value;
        forall p | p in Leaves(env.x, order[..n])
          ensures Written(env, r, p)
        {
          WrittenStable(env, tb, r, p);
        }
      }
    }
  }

  lemma {:induction false} LeavesSnoc(x: Ctx, order: seq<Path>)
    requires order != []
    requires forall i, j | 0 <= i < j < |order| :: order[i] != order[j]
    ensures
      var n := |order| - 1;
      && order[n] !in Leaves(x, order[..n])
      && Leaves(x, order) == Leaves(x, order[..n]) + if Leaf(x, order[n]) then {order[n]} else {}
  {
    var n := |order| - 1;
    TakeNext(order, n);
    TakeAll(order);
  }

  // ---- The second pass ----

  /** From `a` to `b`, exactly the directories `ds` were listed and written. */
  predicate Wrote(env: Env, a: Tables, b: Tables, ds: set<Path>)
    requires env.x.cfg.blockSize > 0
  {
    && GoodTables(b) && Grows(a, b)
    && b.refs.Keys == a.refs.Keys + ds
    && b.locs.Keys == a.locs.Keys + ds
    && forall d | d in ds :: DirDone(env, b, d)
  }

  predicate DirDone(env: Env, tb: Tables, d: Path)
    requires env.x.cfg.blockSize > 0
  {
    Written(env, tb, d) && ListedAt(env, tb, d)
  }

  lemma {:induction false} DoneStays(env: Env, b: Tables, c: Tables, d: Path)
    requires env.x.cfg.blockSize > 0 && Grows(b, c) && DirDone(env, b, d)
    ensures DirDone(env, c, d)
  {
    WrittenStable(env, b, c, d);
    ListedStable(env, b, c, d);
  }

  lemma {:induction false} UnionAssoc<T>(a: set<T>, b: set<T>, c: set<T>)
    ensures a + b + c == a + (b + c)
  {
  }

  lemma {:induction false} WroteTrans(env: Env, a: Tables, b: Tables, c: Tables, ds: set<Path>, es: set<Path>)
    requires env.x.cfg.blockSize > 0 && Wrote(env, a, b, ds) && Wrote(env, b, c, es)
    ensures Wrote(env, a, c, ds + es)
  {
    GrowsTrans(a, b, c);
    UnionAssoc(a.refs.Keys, ds, es);
    UnionAssoc(a.locs.Keys, ds, es);
    forall d | d in ds + es
      ensures DirDone(env, c, d)
    {
      if d in ds {
        DoneStays(env, b, c, d);
      }
    }
  }

  lemma {:induction false} WroteNone(env: Env, a: Tables)
    requires env.x.cfg.blockSize > 0 && GoodTables(a)
    ensures Wrote(env, a, a, {})
  {
    ExtendsSelf(a.inodes);
    ExtendsSelf(a.dirs);
  }

  lemma {:induction false} OneDirListed(env: Env, d: Path, tb: Tables)
    requires env.x.cfg.blockSize > 0 && GoodTables(tb) && d !in tb.locs
    requires EntsFor(env, tb, Kids(env.x, d)).Some? && NamesOk(Rows(env, tb, d))
    ensures
      var listing := EncodeListing(Rows(env, tb, d));
      var ref := Here(tb.dirs);
      var loc := Loc(ref, BlockOffset(env.x.cfg.codec, tb.dirs.done, ref.block), |listing| % 0x1_0000_0000);
      var r := tb.(dirs := Append(BlockCap, tb.dirs, listing), locs := tb.locs[d := loc]);
      GoodTables(r) && Grows(tb, r) && ListedAt(env, r, d)
  {
    var listing := EncodeListing(Rows(env, tb, d));
    var ref := Here(tb.dirs);
    var loc := Loc(ref, BlockOffset(env.x.cfg.codec, tb.dirs.done, ref.block), |listing| % 0x1_0000_0000);
    var r := tb.(dirs := Append(BlockCap, tb.dirs, listing), locs := tb.locs[d := loc]);
    AppendFacts(BlockCap, tb.dirs, listing);
    HoldsNew(BlockCap, tb.dirs, listing);
    ExtendsSelf(tb.inodes);
    EntsStable(env, tb, r, Kids(env.x, d));
    OffsetStable(env.x.cfg.codec, tb.dirs, r.dirs, ref.block);
  }

  lemma {:induction false} OneDirWritten(env: Env, d: Path, tb: Tables)
    requires env.x.cfg.blockSize > 0 && GoodTables(tb) && d !in tb.refs && d !in tb.locs
    requires WriteOneDir(env, d, tb).Some?
    ensures Wrote(env, tb, WriteOneDir(env, d, tb).value, {d})
  {
    OneDirListed(env, d, tb);
    var listing := EncodeListing(Rows(env, tb, d));
    var ref := Here(tb.dirs);
    var loc := Loc(ref, BlockOffset(env.x.cfg.codec, tb.dirs.done, ref.block), |listing| % 0x1_0000_0000);
    var mid := tb.(dirs := Append(BlockCap, tb.dirs, listing), locs := tb.locs[d := loc]);
    WriteInodeFacts(env, d, mid);
    var r := WriteInode(env, d, mid).value;
    GrowsTrans(tb, mid, r);
    ListedStable(env, mid, r, d);
  }

  /** The tables with the listing of `d` in place, before its own record is. */
  function WithRows(env: Env, d: Path, tb: Tables): (r: Tables)
    requires |tb.dirs.cur| < BlockCap && NamesOk(Rows(env, tb, d))
  {
    var listing, ref := EncodeListing(Rows(env, tb, d)), Here(tb.dirs);
    var loc := Loc(ref, BlockOffset(env.x.cfg.codec, tb.dirs.done, ref.block), |listing| % 0x1_0000_0000);
    tb.(dirs := Append(BlockCap, tb.dirs, listing), locs := tb.locs[d := loc])
  }

  lemma {:induction false} OneDirIs(env: Env, d: Path, tb: Tables)
    requires env.x.cfg.blockSize > 0 && Open(tb) && EntsFor(env, tb, Kids(env.x, d)).Some? && NamesOk(Rows(env, tb, d))
    ensures WriteOneDir(env, d, tb) == WriteInode(env, d, WithRows(env, d, tb))
  {
  }

  lemma {:induction false} InodeWritten(env: Env, d: Path, tb: Tables)
    requires env.x.cfg.blockSize > 0 && Open(tb) && d in env.x.entries && InodeOf(env, d, LocOf(tb, d)).Some?
    ensures WriteInode(env, d, tb).Some? && WriteInode(env, d, tb).value.refs == tb.refs[d := Here(tb.inodes)]
  {
  }

  function DirsUnder(x: Ctx, a: Path): (r: set<Path>)
  {
    set q | q in x.entries && IsDir(x, q) && Under(a, q)
  }

  function DirsCovered(x: Ctx, bs: seq<Branch>): (r: set<Path>)
  {
    set q | q in x.entries && IsDir(x, q) && Covered(bs, q)
  }

  lemma {:induction false} DirsSplit(x: Ctx, b: Branch)
    requires GoodCtx(x) && IsBranch(x, b) && IsDir(x, b.path)
    ensures DirsUnder(x, b.path) == DirsCovered(x, b.kids) + {b.path}
    ensures b.path !in DirsCovered(x, b.kids)
  {
    forall q | q in x.entries
      ensures Covered(b.kids, q) <==> Under(b.path, q) && q != b.path
    {
      RestIs(x, b, q);
    }
  }

  lemma {:induction false} DirsCons(x: Ctx, bs: seq<Branch>, d: Path)
    requires GoodCtx(x) && bs != []
    requires forall i | 0 <= i < |bs| :: bs[i].path in x.order && Dir(bs[i].path) == d
    requires forall i, j | 0 <= i < j < |bs| :: bs[i].path != bs[j].path
    ensures DirsCovered(x, bs) == DirsUnder(x, bs[0].path) + DirsCovered(x, bs[1..])
    ensures DirsUnder(x, bs[0].path) !! DirsCovered(x, bs[1..])
    ensures !IsDir(x, bs[0].path) ==> DirsUnder(x, bs[0].path) == {}
  {
    forall q
      ensures Covered(bs, q) <==> Under(bs[0].path, q) || Covered(bs[1..], q)
      ensures !(Under(bs[0].path, q) && Covered(bs[1..], q))
    {
      ConsCovered(bs, q);
      HeadApart(x, bs, d, q);
    }
    if !IsDir(x, bs[0].path) {
      NothingUnderLeaf(x, bs[0].path);
    }
  }

  lemma {:induction false} DirWritten(env: Env, b: Branch, tb: Tables)
    requires env.x.cfg.blockSize > 0 && GoodCtx(env.x) && GoodTables(tb) && Open(tb)
    requires IsBranch(env.x, b) && IsDir(env.x, b.path)
    requires DirsUnder(env.x, b.path) !! tb.refs.Keys && DirsUnder(env.x, b.path) !! tb.locs.Keys
    requires WriteDir(env, b, tb).Some?
    ensures Wrote(env, tb, WriteDir(env, b, tb).value, DirsUnder(env.x, b.path))
    decreases b, 1
  {
    DirsSplit(env.x, b);
    KidsPlaced(env.x, b);
    SubdirsWritten(env, b, b.kids, tb);
    var mid := WriteSubdirs(env, b.kids, tb).value;
    OneDirWritten(env, b.path, mid);
    WroteTrans(env, tb, mid, WriteDir(env, b, tb).value, DirsCovered(env.x, b.kids), {b.path});
  }

  lemma {:induction false} SubdirsWritten(env: Env, b: Branch, bs: seq<Branch>, tb: Tables)
    requires env.x.cfg.blockSize > 0 && GoodCtx(env.x) && GoodTables(tb) && Open(tb)
    requires forall i | 0 <= i < |bs| :: bs[i] < b && IsBranch(env.x, bs[i])
    requires forall i | 0 <= i < |bs| :: bs[i].path in env.x.order && Dir(bs[i].path) == b.path
    requires forall i, j | 0 <= i < j < |bs| :: bs[i].path != bs[j].path
    requires DirsCovered(env.x, bs) !! tb.refs.Keys && DirsCovered(env.x, bs) !! tb.locs.Keys
    requires WriteSubdirs(env, bs, tb).Some?
    ensures Wrote(env, tb, WriteSubdirs(env, bs, tb).value, DirsCovered(env.x, bs))
    decreases b, 0, |bs|
  {
    if bs == [] {
      WroteNone(env, tb);
      assert DirsCovered(env.x, bs) == {};
    } else {
      DirsCons(env.x, bs, b.path);
      var first, rest := DirsUnder(env.x, bs[0].path), DirsCovered(env.x, bs[1..]);
      var mid := tb;
      if IsDir(env.x, bs[0].path) {
        DirWritten(env, bs[0], tb);
        mid := WriteDir(env, bs[0], tb).value;
      } else {
        WroteNone(env, tb);
      }
      SubdirsWritten(env, b, bs[1..], mid);
      WroteTrans(env, tb, mid, WriteSubdirs(env, bs, tb).value, first, rest);
    }
  }

  /** Once both passes are done every inode and every listing is where its reference says. */
  lemma {:induction false} AllWritten(env: Env, root: Branch)
    requires env.x.cfg.blockSize > 0 && GoodCtx(env.x)
    requires IsBranch(env.x, root) && root.path == Root
    requires TablesOf(env, root).Some?
    ensures
      var tb := TablesOf(env, root).value;
      && GoodTables(tb)
      && (forall p | p in InodeOwners(env.x) :: Written(env, tb, p))
      && (forall d | d in env.x.entries && IsDir(env.x, d) :: ListedAt(env, tb, d))
  {
    var start := WriteLeaves(env, env.x.order).value;
    LeavesWritten(env, env.x.order);
    DirWritten(env, root, start);
    var tb := WriteDir(env, root, start).value;
    forall p | p in InodeOwners(env.x)
      ensures Written(env, tb, p)
    {
      if IsDir(env.x, p) {
        AllUnderRoot(env.x, p);
        assert DirDone(env, tb, p);
      } else {
        assert p in Leaves(env.x, env.x.order);
        WrittenStable(env, start, tb, p);
      }
    }
    forall d | d in env.x.entries && IsDir(env.x, d)
      ensures ListedAt(env, tb, d)
    {
      AllUnderRoot(env.x, d);
      assert DirDone(env, tb, d);
    }
  }
}
