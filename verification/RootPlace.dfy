/**
 * Where the root inode can lie. It is the last record written and the only one no listing quotes,
 * so no check of the source bounds its place; the reference in the superblock has 48 bits for it.
 */
module RootPlace {
  import opened Bytes
  import opened Paths
  import opened Chunking
  import opened Metadata
  import opened Records
  import opened Closing
  import opened TreeProofs
  import opened TableProofs
  import Inodes

  const LongestRecord: nat := 0x8_0000_0000

  lemma {:induction false} CeilBound(n: nat, k: nat)
    requires k > 0
    ensures Ceil(n, k) <= n
  {
    var q := Ceil(n, k);
    TimesGrows(1, k, n);
    assert q * k <= n + k - 1;
    assert (n + 1) * k == n * k + k;
    LessByFactor(q, n + 1, k);
  }

  lemma {:induction false} TimesGrows(a: nat, b: nat, k: nat)
    requires a <= b
    ensures a * k <= b * k
  {
  }

  lemma {:induction false} LessByFactor(a: nat, b: nat, k: nat)
    requires a * k < b * k
    ensures a < b
  {
    if b <= a {
      TimesGrows(b, a, k);
    }
  }

  lemma {:induction false} BodyLength(b: Inodes.Body)
    ensures |Inodes.EncodeBody(b)| <= 16 + (if b.FileB? then 4 * |b.sizes| else if b.SymlinkB? then |b.target| else 0)
  {
    match b
    case DirB(start, nlinks, size, off, parent) =>
      WordsLength([start, nlinks], 4);
      WordsLength([size, off], 2);
      WordsLength([parent], 4);
    case FileB(start, fileSize, sizes) =>
      WordsLength([start, Inodes.NoFragment, 0, fileSize], 4);
      WordsLength(sizes, 4);
    case SymlinkB(nlinks, target) => WordsLength([nlinks, |target|], 4);
    case DeviceB(_, nlinks, dev) => WordsLength([nlinks, dev], 4);
    case IpcB(_, nlinks) => WordsLength([nlinks], 4);
  }

  lemma {:induction false} RecordShort(env: Env, p: Path, loc: Loc)
    requires p in env.x.entries && env.x.cfg.blockSize > 0 && InodeOf(env, p, loc).Some?
    ensures |Inodes.Encode(InodeOf(env, p, loc).value)| < LongestRecord
  {
    var e := env.x.entries[p];
    BodyLength(InodeOf(env, p, loc).value.body);
    if e.node.FileN? {
      CeilBound(e.size, env.x.cfg.blockSize);
    }
  }

  /** The stream ends with the record of `q`, which started at its recorded place. */
  predicate EndsWith(c: Codec, tb: Tables, q: Path)
  {
    && q in tb.refs && tb.refs[q].block <= |tb.inodes.done|
    && |Emit(c, tb.inodes.done)| <= BlockOffset(c, tb.inodes.done, tb.refs[q].block) + 3 * (BlockCap + LongestRecord)
  }

  lemma {:induction false} EmitLength(c: Codec, plains: seq<Bytes>)
    requires forall i | 0 <= i < |plains| :: 0 < |plains[i]|
    ensures |Emit(c, plains)| <= 3 * |Flatten(plains)|
  {
    if plains != [] {
      EmitLength(c, plains[1..]);
    }
  }

  /** How much a write can add to the closed blocks. */
  lemma {:induction false} AppendEmits(c: Codec, ch: Chunks, p: Bytes)
    requires Wf(BlockCap, ch)
    ensures
      var after := Append(BlockCap, ch, p);
      |ch.done| <= |after.done|
      && |Emit(c, after.done)| <= BlockOffset(c, after.done, |ch.done|) + 3 * (|ch.cur| + |p|)
  {
    var after, n := Append(BlockCap, ch, p), |ch.done|;
    AppendFacts(BlockCap, ch, p);
    SplitAt(after.done, n);
    EmitConcat(c, after.done[..n], after.done[n..]);
    FlattenConcat(after.done[..n], after.done[n..]);
    EmitLength(c, after.done[n..]);
    assert |Content(after)| == |Content(ch)| + |p|;
  }

  lemma {:induction false} InodeEnds(env: Env, p: Path, tb: Tables)
    requires env.x.cfg.blockSize > 0 && GoodTables(tb) && WriteInode(env, p, tb).Some?
    ensures EndsWith(env.x.cfg.codec, WriteInode(env, p, tb).value, p)
  {
    var i := InodeOf(env, p, LocOf(tb, p)).value;
    RecordShort(env, p, LocOf(tb, p));
    AppendEmits(env.x.cfg.codec, tb.inodes, Inodes.Encode(i));
  }

  /** Nothing is written yet, or the last thing written is some entry's record. */
  ghost predicate Tracked(c: Codec, tb: Tables)
  {
    tb.inodes == Empty || exists q :: EndsWith(c, tb, q)
  }

  lemma {:induction false} LeavesTracked(env: Env, order: seq<Path>)
    requires env.x.cfg.blockSize > 0 && WriteLeaves(env, order).Some?
    requires forall i, j | 0 <= i < j < |order| :: order[i] != order[j]
    ensures Tracked(env.x.cfg.codec, WriteLeaves(env, order).value)
    decreases |order|
  {
    if order != [] {
      var n := |order| - 1;
      LeavesTracked(env, order[..n]);
      if Leaf(env.x, order[n]) {
        LeavesWritten(env, order[..n]);
        InodeEnds(env, order[n], WriteLeaves(env, order[..n]).value);
      }
    }
  }

  lemma {:induction false} DirTracked(env: Env, b: Branch, tb: Tables)
    requires env.x.cfg.blockSize > 0 && GoodCtx(env.x) && GoodTables(tb) && Open(tb)
    requires IsBranch(env.x, b) && IsDir(env.x, b.path)
    requires DirsUnder(env.x, b.path) !! tb.refs.Keys && DirsUnder(env.x, b.path) !! tb.locs.Keys
    requires WriteDir(env, b, tb).Some?
    ensures Tracked(env.x.cfg.codec, WriteDir(env, b, tb).value)
  {
    DirsSplit(env.x, b);
    KidsPlaced(env.x, b);
    SubdirsWritten(env, b, b.kids, tb);
    OneDirEnds(env, b.path, WriteSubdirs(env, b.kids, tb).value);
  }

  lemma {:induction false} OneDirEnds(env: Env, d: Path, tb: Tables)
    requires env.x.cfg.blockSize > 0 && GoodTables(tb) && Open(tb) && d !in tb.locs && WriteOneDir(env, d, tb).Some?
    ensures EndsWith(env.x.cfg.codec, WriteOneDir(env, d, tb).value, d)
    ensures WriteOneDir(env, d, tb).value.refs[d] == Here(tb.inodes)
  {
    OneDirListed(env, d, tb);
    var listing := Directory.EncodeListing(Rows(env, tb, d));
    var ref := Here(tb.dirs);
    var loc := Loc(ref, BlockOffset(env.x.cfg.codec, tb.dirs.done, ref.block), |listing| % 0x1_0000_0000);
    InodeEnds(env, d, tb.(dirs := Append(BlockCap, tb.dirs, listing), locs := tb.locs[d := loc]));
  }

  lemma {:induction false} SubdirsTracked(env: Env, b: Branch, bs: seq<Branch>, tb: Tables)
    requires env.x.cfg.blockSize > 0 && GoodCtx(env.x) && GoodTables(tb) && Open(tb)
    requires forall i | 0 <= i < |bs| :: IsBranch(env.x, bs[i])
    requires forall i | 0 <= i < |bs| :: bs[i].path in env.x.order && Dir(bs[i].path) == b.path
    requires forall i, j | 0 <= i < j < |bs| :: bs[i].path != bs[j].path
    requires DirsCovered(env.x, bs) !! tb.refs.Keys && DirsCovered(env.x, bs) !! tb.locs.Keys
    requires WriteSubdirs(env, bs, tb).Some? && Tracked(env.x.cfg.codec, tb)
    ensures Tracked(env.x.cfg.codec, WriteSubdirs(env, bs, tb).value)
    decreases |bs|
  {
    if bs != [] {
      DirsCons(env.x, bs, b.path);
      var mid := tb;
      if IsDir(env.x, bs[0].path) {
        DirWritten(env, bs[0], tb);
        DirTracked(env, bs[0], tb);
        mid := WriteDir(env, bs[0], tb).value;
      }
      SubdirsTracked(env, b, bs[1..], mid);
    }
  }

  /** Every record but the root's is quoted by a row, and a row's block is checked to fit 32 bits. */
  lemma {:induction false} QuotedLow(env: Env, tb: Tables, q: Path)
    requires GoodCtx(env.x) && q in env.x.order && !env.x.entries[q].node.HardlinkN? && ListedAt(env, tb, Dir(q))
    ensures q in tb.refs && tb.refs[q].block <= |tb.inodes.done|
    ensures BlockOffset(env.x.cfg.codec, tb.inodes.done, tb.refs[q].block) <= 0xFFFF_FFFF
  {
    KidsAre(env.x, Dir(q));
    EntOfKid(env, tb, Kids(env.x, Dir(q)), q);
  }

  lemma {:induction false} EntOfKid(env: Env, tb: Tables, ks: seq<Path>, k: Path)
    requires EntsFor(env, tb, ks).Some? && k in ks
    ensures EntFor(env, tb, k).Some?
    decreases |ks|
  {
    var n := |ks| - 1;
    if ks[n] != k {
      TakeNext(ks, n);
      TakeAll(ks);
      EntOfKid(env, tb, ks[..n], k);
    }
  }

  /** The tables when only the root directory is left to do. */
  lemma {:induction false} BeforeRoot(env: Env, root: Branch) returns (mid: Tables)
    requires env.x.cfg.blockSize > 0 && GoodCtx(env.x) && IsBranch(env.x, root) && root.path == Root
    requires TablesOf(env, root).Some?
    ensures GoodTables(mid) && Open(mid) && Tracked(env.x.cfg.codec, mid)
    ensures Root !in mid.refs && Root !in mid.locs && forall q | q in mid.refs :: q in InodeOwners(env.x)
    ensures TablesOf(env, root) == WriteOneDir(env, Root, mid)
  {
    var start := WriteLeaves(env, env.x.order).value;
    LeavesWritten(env, env.x.order);
    LeavesTracked(env, env.x.order);
    DirsSplit(env.x, root);
    KidsPlaced(env.x, root);
    SubdirsWritten(env, root, root.kids, start);
    SubdirsTracked(env, root, root.kids, start);
    mid := WriteSubdirs(env, root.kids, start).value;
  }

  /** So the root's block always fits the 48 bits the reference has. */
  lemma {:induction false} RootLow(env: Env, root: Branch)
    requires env.x.cfg.blockSize > 0 && GoodCtx(env.x) && IsBranch(env.x, root) && root.path == Root
    requires TablesOf(env, root).Some?
    ensures
      var tb := TablesOf(env, root).value;
      && Root in tb.refs && tb.refs[Root].block <= |tb.inodes.done|
      && BlockOffset(env.x.cfg.codec, tb.inodes.done, tb.refs[Root].block) < 0x1_0000_0000_0000
  {
    var c := env.x.cfg.codec;
    var mid := BeforeRoot(env, root);
    var tb := TablesOf(env, root).value;
    OneDirWritten(env, Root, mid);
    OneDirEnds(env, Root, mid);
    OffsetStable(c, mid.inodes, tb.inodes, |mid.inodes.done|);
    TakeAll(mid.inodes.done);
    if mid.inodes != Empty {
      var q :| EndsWith(c, mid, q);
      LastLow(env, root, mid, tb, q);
    }
  }

  lemma {:induction false} LastLow(env: Env, root: Branch, mid: Tables, tb: Tables, q: Path)
    requires env.x.cfg.blockSize > 0 && GoodCtx(env.x) && IsBranch(env.x, root) && root.path == Root
    requires TablesOf(env, root) == Some(tb) && Grows(mid, tb) && EndsWith(env.x.cfg.codec, mid, q)
    requires q in InodeOwners(env.x) && q != Root
    ensures |Emit(env.x.cfg.codec, mid.inodes.done)| < 0x1_0000_0000_0000
  {
    AllWritten(env, root);
    assert IsDir(env.x, Dir(q)) by {
      var i :| 0 <= i < |env.x.order| && env.x.order[i] == q;
      assert IsDir(env.x, Dir(env.x.order[i]));
    }
    QuotedLow(env, tb, q);
    OffsetStable(env.x.cfg.codec, mid.inodes, tb.inodes, mid.refs[q].block);
  }
}
