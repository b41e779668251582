/** The image reads back as the tree that was asked for. */
module ImageTheorem {
  import opened Bytes
  import opened Paths
  import opened Sorting
  import opened Chunking
  import opened Metadata
  import opened Directory
  import opened IdTable
  import opened FileData
  import opened WriterSpec
  import opened Closing
  import opened TreeProofs
  import opened TableProofs
  import opened ImageReader
  import Superblock
  import Inodes

  // ---- What the reader should find ----

  function Weight(ks: seq<Path>): (n: nat)
  {
    if ks == [] then 0 else Weight(ks[..|ks| - 1]) + 20 + |Base(ks[|ks| - 1])|
  }

  /** No directory is so large that the 32-bit byte count of its listing could wrap. */
  ghost predicate ListingsFit(x: Ctx)
  {
    forall d | d in x.entries && IsDir(x, d) :: Weight(Kids(x, d)) + 3 < 0x1_0000_0000
  }

  /** The true length of the listing, plus three, is below the 32-bit limit of its count. */
  ghost predicate Short(env: Env, tb: Tables, d: Path)
  {
    ListedAt(env, tb, d) && |EncodeListing(Rows(env, tb, d))| + 3 < 0x1_0000_0000
  }

  function BaseNames(ks: seq<Path>): (r: seq<Bytes>)
    ensures |r| == |ks|
    ensures forall i | 0 <= i < |ks| :: r[i] == Base(ks[i])
  {
    if ks == [] then [] else BaseNames(ks[..|ks| - 1]) + [Base(ks[|ks| - 1])]
  }

  function ExpectWhat(env: Env, contents: map<Path, Bytes>, p: Path): (w: What)
    requires p in env.x.entries && !env.x.entries[p].node.HardlinkN?
  {
    var n := LinksOf(env.x, p);
    match env.x.entries[p].node
    case FileN(_) => RegularFile(if p in contents then contents[p] else [])
    case DirN(_) => Folder(n, ParentNumber(env, p), BaseNames(Kids(env.x, p)))
    case SymlinkN(_, target) => SymbolicLink(1, target)
    case CharN(_, major, minor) => Device(false, 1, major, minor)
    case BlockN(_, major, minor) => Device(true, 1, major, minor)
    case FifoN(_) => Ipc(false, 1)
    case SocketN(_) => Ipc(true, 1)
  }

  function Seconds(cfg: Config, a: Attrs): nat
  {
    if Mtime(cfg, a).Some? then Mtime(cfg, a).value else 0
  }

  /** A hard link shows its target: number, owner, times, contents. */
  function Expect(env: Env, contents: map<Path, Bytes>, p: Path): (r: Option<Stat>)
  {
    if p !in env.x.entries || Owner(env.x, p) !in env.x.entries
        || env.x.entries[Owner(env.x, p)].node.HardlinkN? then None
    else
      var o := Owner(env.x, p);
      var a := AttrsOf(env.x.entries[o].node);
      Some(Stat(NumberOf(env, o), a.mode % 4096, a.uid, a.gid, Seconds(env.x.cfg, a), ExpectWhat(env, contents, o)))
  }

  // ---- The setting: a finished image with its tables ----

  datatype Scene = Scene(env: Env, tb: Tables, img: Bytes, sb: Superblock.Super, idBase: nat, contents: map<Path,
                         Bytes>)

  ghost predicate GoodScene(z: Scene)
  {
    var c := z.env.x.cfg.codec;
    && GoodConfig(z.env.x.cfg) && GoodCtx(z.env.x) && GoodTables(z.tb)
    && z.sb.blockSize == z.env.x.cfg.blockSize
    && (forall p | p in InodeOwners(z.env.x) :: Written(z.env, z.tb, p))
    && (forall d | d in z.env.x.entries && IsDir(z.env.x, d) :: ListedAt(z.env, z.tb, d))
    && At(z.img, z.sb.inodeTableStart, Emit(c, Seal(z.tb.inodes).done))
    && At(z.img, z.sb.directoryTableStart, Emit(c, Seal(z.tb.dirs).done))
  }

  ghost predicate AllShort(z: Scene)
  {
    forall d | d in z.env.x.entries && IsDir(z.env.x, d) :: Short(z.env, z.tb, d)
  }

  /** Twenty bytes an entry and the names is a safe estimate of a listing. */
  lemma {:induction false} FitsIsShort(z: Scene)
    requires GoodScene(z) && ListingsFit(z.env.x)
    ensures AllShort(z)
  {
    forall d | d in z.env.x.entries && IsDir(z.env.x, d)
      ensures Short(z.env, z.tb, d)
    {
      assert ListedAt(z.env, z.tb, d);
      RowsFit(z.env, z.tb, d);
    }
  }

  ghost predicate IdsReadable(z: Scene)
  {
    var c := z.env.x.cfg.codec;
    && |z.img| < 0x1_0000_0000_0000_0000
    && |z.env.ids| <= MaxIds
    && At(z.img, z.idBase, Emit(c, IdBlocks(z.env.ids)))
    && At(z.img, z.sb.idTableStart, LookupFrom(c, IdBlocks(z.env.ids), z.idBase, |IdBlocks(z.env.ids)|))
    && (forall p | p in InodeOwners(z.env.x) ::
          AttrsOf(z.env.x.entries[p].node).uid in z.env.ids && AttrsOf(z.env.x.entries[p].node).gid in z.env.ids)
  }

  ghost predicate FilesReadable(z: Scene)
    requires z.env.x.cfg.blockSize > 0
  {
    forall p | p in z.env.x.entries && z.env.x.entries[p].node.FileN? ::
      && p in z.contents
      && Placed(z.env.x.cfg.codec, z.env.x.cfg.blockSize, z.img, z.env.x.entries[p], z.contents[p], false)
  }

  // ---- Reading one inode ----

  function TheInode(z: Scene, p: Path): (r: Option<Inodes.Inode>)
  {
    if p in z.env.x.entries && z.env.x.cfg.blockSize > 0 then InodeOf(z.env, p, LocOf(z.tb, p)) else None
  }

  lemma {:induction false} LayoutBlocky(size: nat, data: Bytes)
    requires size > 0
    ensures Blocky(size, Layout(size, data, false).done)
    ensures Flatten(Layout(size, data, false).done) == data
  {
    var ch := Append(size, Empty, data);
    AppendFacts(size, Empty, data);
    SealFacts(size, ch);
    Nil(data);
    Nil(Flatten(Seal(ch).done));
    assert Content(Empty) == [];
  }

  lemma {:induction false} FileFits(c: Codec, size: nat, img: Bytes, e: Entry, data: Bytes)
    requires 0 < size <= 1048576 && Placed(c, size, img, e, data, false)
    ensures |e.sizes| == Ceil(e.size, size)
    ensures forall k | 0 <= k < |e.sizes| :: e.sizes[k] < 0x1_0000_0000
  {
    var done := Layout(size, data, false).done;
    LayoutBlocky(size, data);
    BlockCount(size, done);
    SizesFit(c, done);
  }

  lemma {:induction false} RecordFits(env: Env, p: Path, loc: Loc)
    requires p in env.x.entries && env.x.cfg.blockSize > 0 && |env.ids| <= MaxIds
    requires IsDir(env.x, p) ==> loc.ref.off < BlockCap
    requires InodeOf(env, p, loc).Some?
    requires env.x.entries[p].node.FileN? ==> forall k | 0 <= k < |env.x.entries[p].sizes| ::
               Inodes.U32(env.x.entries[p].sizes[k])
    ensures Inodes.Fits(InodeOf(env, p, loc).value, env.x.cfg.blockSize)
  {
    var b := BodyOf(env, p, loc).value;
    assert Inodes.BodyFits(b, env.x.cfg.blockSize);
  }

  lemma {:induction false} InodeFits(z: Scene, p: Path)
    requires GoodScene(z) && IdsReadable(z) && FilesReadable(z)
    requires p in InodeOwners(z.env.x)
    ensures TheInode(z, p).Some? && Inodes.Fits(TheInode(z, p).value, z.sb.blockSize)
  {
    assert Written(z.env, z.tb, p);
    var e := z.env.x.entries[p];
    if e.node.FileN? {
      FileFits(z.env.x.cfg.codec, z.sb.blockSize, z.img, e, z.contents[p]);
    }
    var loc := LocOf(z.tb, p);
    if IsDir(z.env.x, p) {
      assert ListedAt(z.env, z.tb, p);
    }
    RecordFits(z.env, p, loc);
  }

  /** The record reads back from the offset any row or the superblock quotes for it. */
  lemma {:induction false} InodeReads(z: Scene, p: Path)
    requires GoodScene(z) && IdsReadable(z) && FilesReadable(z)
    requires p in InodeOwners(z.env.x)
    ensures TheInode(z, p).Some? && p in z.tb.refs && z.tb.refs[p].block <= |z.tb.inodes.done|
    ensures ReadInode(z.env.x.cfg.codec, z.img, z.sb,
                      BlockOffset(z.env.x.cfg.codec, z.tb.inodes.done, z.tb.refs[p].block), z.tb.refs[p].off)
            == TheInode(z, p)
  {
    InodeFits(z, p);
    assert Written(z.env, z.tb, p);
    RecordReads(z.env.x.cfg.codec, z.tb.inodes, z.tb.refs[p], TheInode(z, p).value, z.img, z.sb,
                BlockOffset(z.env.x.cfg.codec, z.tb.inodes.done, z.tb.refs[p].block));
  }

  lemma {:induction false} RecordReads(c: Codec, ch: Chunks, ref: MetaRef, i: Inodes.Inode, img: Bytes,
                                       sb: Superblock.Super, block: nat)
    requires Faithful(c) && Wf(BlockCap, ch) && sb.blockSize > 0 && Inodes.Fits(i, sb.blockSize)
    requires Holds(ch, ref, Inodes.Encode(i)) && block == BlockOffset(c, ch.done, ref.block)
    requires At(img, sb.inodeTableStart, Emit(c, Seal(ch).done))
    ensures ReadInode(c, img, sb, block, ref.off) == Some(i)
  {
    RecordServed(c, ch, ref, Inodes.Encode(i), img, sb.inodeTableStart, sb.inodeTableStart + block);
    ParsedFrom(c, img, sb, block, ref.off, i);
  }

  lemma {:induction false} ParsedFrom(c: Codec, img: Bytes, sb: Superblock.Super, block: nat, off: nat, i: Inodes.Inode)
    requires sb.blockSize > 0 && Inodes.Fits(i, sb.blockSize)
    requires Inodes.Serves(From(c, img, sb.inodeTableStart + block, off), Inodes.Encode(i))
    ensures ReadInode(c, img, sb, block, off) == Some(i)
  {
    Inodes.ParseBack(From(c, img, sb.inodeTableStart + block, off), i, sb.blockSize);
  }

  lemma {:induction false} RecordServed(c: Codec, ch: Chunks, ref: MetaRef, rec: Bytes, img: Bytes, start: nat,
                                        pos: nat)
    requires Faithful(c) && Wf(BlockCap, ch) && Holds(ch, ref, rec)
    requires At(img, start, Emit(c, Seal(ch).done))
    requires pos == start + BlockOffset(c, ch.done, ref.block)
    ensures Inodes.Serves(From(c, img, pos, ref.off), rec)
  {
    var get := From(c, img, pos, ref.off);
    forall n: nat | n <= |rec|
      ensures get(n) == Some(rec[..n])
    {
      HoldsPrefix(ch, ref, rec, n);
      StreamReads(c, ch, ref, rec[..n], img, start, pos);
    }
  }

  /** What an open stream holds, the sealed and emitted stream gives back. */
  lemma {:induction false} StreamReads(c: Codec, ch: Chunks, ref: MetaRef, p: Bytes, img: Bytes, start: nat, pos: nat)
    requires Faithful(c) && Wf(BlockCap, ch) && Holds(ch, ref, p)
    requires At(img, start, Emit(c, Seal(ch).done))
    requires pos == start + BlockOffset(c, ch.done, ref.block)
    ensures ReadMeta(c, img, pos, ref.off, |p|) == Some(p)
  {
    SealFacts(BlockCap, ch);
    HoldsStable(ch, Seal(ch), ref, p);
    OffsetStable(c, ch, Seal(ch), ref.block);
    HoldsReads(c, Seal(ch), ref, p, img, start);
  }

  // ---- Reading one directory ----

  lemma {:induction false} EntsAre(env: Env, tb: Tables, ks: seq<Path>)
    requires EntsFor(env, tb, ks).Some?
    ensures forall i | 0 <= i < |ks| :: EntFor(env, tb, ks[i]) == Some(EntsFor(env, tb, ks).value[i])
    decreases |ks|
  {
    if ks != [] {
      EntsAre(env, tb, ks[..|ks| - 1]);
    }
  }

  /** The second sort changes nothing: children were already in order. */
  lemma {:induction false} RowsAre(env: Env, tb: Tables, d: Path)
    requires GoodCtx(env.x) && EntsFor(env, tb, Kids(env.x, d)).Some?
    ensures |Rows(env, tb, d)| == |Kids(env.x, d)|
    ensures forall i | 0 <= i < |Kids(env.x, d)| :: EntFor(env, tb, Kids(env.x, d)[i]) == Some(Rows(env, tb, d)[i])
    ensures StrictlySorted(Rows(env, tb, d), NameOf)
  {
    var ks := Kids(env.x, d);
    var es := EntsFor(env, tb, ks).value;
    EntsAre(env, tb, ks);
    KidsSorted(env.x, d);
    forall i, j | 0 <= i < j < |es|
      ensures Less(NameOf(es[i]), NameOf(es[j])) && Leq(NameOf(es[i]), NameOf(es[j]))
    {
      assert EntFor(env, tb, ks[i]) == Some(es[i]) && EntFor(env, tb, ks[j]) == Some(es[j]);
      assert Less(BaseOf(ks[i]), BaseOf(ks[j]));
      LessIsLeq(NameOf(es[i]), NameOf(es[j]));
    }
    SortOfSorted(es, NameOf);
  }

  lemma {:induction false} EntsLength(es: seq<DirEnt>, base: nat)
    requires NamesOk(es)
    ensures |EncodeEnts(es, base)| == NamesLength(es) + 8 * |es|
    decreases |es|
  {
    if es != [] {
      EntsLength(es[1..], base);
    }
  }

  function NamesLength(es: seq<DirEnt>): nat
  {
    if es == [] then 0 else |es[0].name| + NamesLength(es[1..])
  }

  lemma {:induction false} NamesLengthConcat(a: seq<DirEnt>, b: seq<DirEnt>)
    ensures NamesLength(a + b) == NamesLength(a) + NamesLength(b)
    decreases |a|
  {
    if a == [] {
      Nil(b);
    } else {
      TailOfConcat(a, b);
      NamesLengthConcat(a[1..], b);
    }
  }

  /** A listing costs at most twenty bytes an entry besides the names. */
  lemma {:induction false} ListingLength(es: seq<DirEnt>)
    requires NamesOk(es)
    ensures |EncodeListing(es)| <= NamesLength(es) + 20 * |es|
    decreases |es|
  {
    if es != [] {
      var n := Run(es);
      EntsLength(es[..n], es[0].inode);
      ListingLength(es[n..]);
      SplitAt(es, n);
      NamesLengthConcat(es[..n], es[n..]);
    }
  }

  lemma {:induction false} WeightIs(es: seq<DirEnt>, ks: seq<Path>)
    requires |es| == |ks| && forall i | 0 <= i < |ks| :: es[i].name == Base(ks[i])
    ensures NamesLength(es) + 20 * |es| == Weight(ks)
    decreases |es|
  {
    if es != [] {
      var n := |es| - 1;
      WeightIs(es[..n], ks[..n]);
      SplitAt(es, n);
      NamesLengthConcat(es[..n], es[n..]);
      assert es[n..] == [es[n]];
      assert [es[n]][1..] == [];
    }
  }

  lemma {:induction false} RowsFit(env: Env, tb: Tables, d: Path)
    requires GoodCtx(env.x) && ListedAt(env, tb, d) && Weight(Kids(env.x, d)) + 3 < 0x1_0000_0000
    ensures |EncodeListing(Rows(env, tb, d))| + 3 < 0x1_0000_0000
  {
    RowBases(env, tb, d);
    ListingLength(Rows(env, tb, d));
    WeightIs(Rows(env, tb, d), Kids(env.x, d));
  }

  lemma {:induction false} RowBases(env: Env, tb: Tables, d: Path)
    requires GoodCtx(env.x) && EntsFor(env, tb, Kids(env.x, d)).Some?
    ensures |Rows(env, tb, d)| == |Kids(env.x, d)|
    ensures forall i | 0 <= i < |Kids(env.x, d)| :: Rows(env, tb, d)[i].name == Base(Kids(env.x, d)[i])
  {
    var es, ks := Rows(env, tb, d), Kids(env.x, d);
    RowsAre(env, tb, d);
    forall i | 0 <= i < |ks|
      ensures es[i].name == Base(ks[i])
    {
      assert EntFor(env, tb, ks[i]) == Some(es[i]);
    }
  }

  lemma {:induction false} OwnerOwns(x: Ctx, k: Path)
    requires GoodCtx(x) && k in x.entries
    ensures Owner(x, k) in InodeOwners(x)
  {
  }

  lemma {:induction false} RowFits(env: Env, tb: Tables, k: Path)
    requires EntFor(env, tb, k).Some? && tb.refs[Owner(env.x, k)].off < BlockCap
    ensures Directory.Fits(EntFor(env, tb, k).value)
  {
  }

  lemma {:induction false} RowsAllFit(z: Scene, d: Path)
    requires GoodScene(z) && ListedAt(z.env, z.tb, d)
    ensures forall i | 0 <= i < |Rows(z.env, z.tb, d)| :: Directory.Fits(Rows(z.env, z.tb, d)[i])
  {
    var es, ks := Rows(z.env, z.tb, d), Kids(z.env.x, d);
    RowsAre(z.env, z.tb, d);
    forall i | 0 <= i < |es|
      ensures Directory.Fits(es[i])
    {
      assert EntFor(z.env, z.tb, ks[i]) == Some(es[i]);
      OwnerOwns(z.env.x, ks[i]);
      assert Written(z.env, z.tb, Owner(z.env.x, ks[i]));
      RowFits(z.env, z.tb, ks[i]);
    }
  }

  lemma {:induction false} DirBody(env: Env, d: Path, loc: Loc, n: nat)
    requires d in env.x.entries && env.x.cfg.blockSize > 0 && IsDir(env.x, d)
    requires InodeOf(env, d, loc).Some? && loc.size == n % 0x1_0000_0000 && n + 3 < 0x1_0000_0000
    ensures
      var b := InodeOf(env, d, loc).value.body;
      b == Inodes.DirB(loc.start, LinksOf(env.x, d), n + 3, loc.ref.off, ParentNumber(env, d))
  {
  }

  lemma {:induction false} ReadDirIs(c: Codec, img: Bytes, sb: Superblock.Super, body: Inodes.Body, listing: Bytes,
                                     es: seq<DirEnt>)
    requires body.DirB? && body.size == |listing| + 3
    requires ReadMeta(c, img, sb.directoryTableStart + body.start, body.off, |listing|) == Some(listing)
    requires DecodeListing(listing) == Some(es)
    ensures ReadDir(c, img, sb, body) == Some(es)
  {
  }

  lemma {:induction false} ListingOf(c: Codec, img: Bytes, sb: Superblock.Super, ch: Chunks, loc: Loc,
                                     body: Inodes.Body, listing: Bytes, es: seq<DirEnt>)
    requires Faithful(c) && Wf(BlockCap, ch)
    requires Holds(ch, loc.ref, listing) && loc.start == BlockOffset(c, ch.done, loc.ref.block)
    requires At(img, sb.directoryTableStart, Emit(c, Seal(ch).done))
    requires body.DirB? && body.start == loc.start && body.off == loc.ref.off && body.size == |listing| + 3
    requires DecodeListing(listing) == Some(es)
    ensures ReadDir(c, img, sb, body) == Some(es)
  {
    StreamReads(c, ch, loc.ref, listing, img, sb.directoryTableStart, sb.directoryTableStart + body.start);
    ReadDirIs(c, img, sb, body, listing, es);
  }

  /** The directory's inode leads to exactly its rows. */
  lemma {:induction false} DirReads(z: Scene, d: Path)
    requires GoodScene(z) && IsDir(z.env.x, d) && Short(z.env, z.tb, d)
    ensures TheInode(z, d).Some?
    ensures ReadDir(z.env.x.cfg.codec, z.img, z.sb, TheInode(z, d).value.body) == Some(Rows(z.env, z.tb, d))
    ensures TheInode(z, d).value.body.DirB?
    ensures TheInode(z, d).value.body.nlinks == LinksOf(z.env.x, d)
    ensures TheInode(z, d).value.body.parent == ParentNumber(z.env, d)
  {
    assert Written(z.env, z.tb, d) by {
      assert d in InodeOwners(z.env.x);
    }
    assert ListedAt(z.env, z.tb, d);
    var es := Rows(z.env, z.tb, d);
    var loc := z.tb.locs[d];
    RowsAllFit(z, d);
    DirBody(z.env, d, loc, |EncodeListing(es)|);
    ListingBack(es);
    ListingOf(z.env.x.cfg.codec, z.img, z.sb, z.tb.dirs, loc, TheInode(z, d).value.body, EncodeListing(es), es);
  }

  // ---- One path's attributes ----

  lemma {:induction false} NamesAre(es: seq<DirEnt>, ks: seq<Path>)
    requires |es| == |ks| && forall i | 0 <= i < |ks| :: es[i].name == Base(ks[i])
    ensures Names(es) == BaseNames(ks)
  {
  }

  lemma {:induction false} RowNames(env: Env, tb: Tables, d: Path)
    requires GoodCtx(env.x) && EntsFor(env, tb, Kids(env.x, d)).Some?
    ensures Names(Rows(env, tb, d)) == BaseNames(Kids(env.x, d))
  {
    RowBases(env, tb, d);
    NamesAre(Rows(env, tb, d), Kids(env.x, d));
  }

  lemma {:induction false} FileReads(c: Codec, size: nat, img: Bytes, e: Entry, data: Bytes)
    requires Faithful(c) && 0 < size <= 1048576 && Placed(c, size, img, e, data, false)
    ensures ReadFile(c, img, e.start, e.sizes, e.size, size) == Some(data)
  {
    LayoutBlocky(size, data);
    ReadFileBack(c, img, e.start, Layout(size, data, false).done, size);
  }

  lemma {:induction false} OwnerIds(z: Scene, p: Path)
    requires GoodScene(z) && IdsReadable(z) && p in InodeOwners(z.env.x) && TheInode(z, p).Some?
    ensures
      var a := AttrsOf(z.env.x.entries[p].node);
      var i := TheInode(z, p).value;
      && ReadId(z.env.x.cfg.codec, z.img, z.sb.idTableStart, i.uidIdx) == Some(a.uid)
      && ReadId(z.env.x.cfg.codec, z.img, z.sb.idTableStart, i.gidIdx) == Some(a.gid)
  {
    var a := AttrsOf(z.env.x.entries[p].node);
    var ids := z.env.ids;
    ReadIdBack(z.env.x.cfg.codec, z.img, ids, z.idBase, z.sb.idTableStart, IndexOf(ids, a.uid));
    ReadIdBack(z.env.x.cfg.codec, z.img, ids, z.idBase, z.sb.idTableStart, IndexOf(ids, a.gid));
  }

  lemma {:induction false} DeviceSplits(major: nat, minor: nat)
    requires minor <= 0xFF
    ensures (major * 256 + minor) / 256 == major && (major * 256 + minor) % 256 == minor
  {
  }

  /** Kinds whose inode says everything. */
  lemma {:induction false} PlainWhat(c: Codec, img: Bytes, sb: Superblock.Super, env: Env, contents: map<Path,
                                     Bytes>, p: Path, loc: Loc)
    requires p in env.x.entries && env.x.cfg.blockSize > 0 && BodyOf(env, p, loc).Some?
    requires !env.x.entries[p].node.FileN? && !env.x.entries[p].node.DirN?
    ensures ReadWhat(c, img, sb, BodyOf(env, p, loc).value) == Some(ExpectWhat(env, contents, p))
  {
    match env.x.entries[p].node {
      case CharN(_, major, minor) => DeviceSplits(major, minor);
      case BlockN(_, major, minor) => DeviceSplits(major, minor);
      case _ =>
    }
  }

  lemma {:induction false} FileWhat(z: Scene, p: Path)
    requires GoodScene(z) && FilesReadable(z) && p in z.env.x.entries && z.env.x.entries[p].node.FileN?
    requires BodyOf(z.env, p, LocOf(z.tb, p)).Some?
    ensures ReadWhat(z.env.x.cfg.codec, z.img, z.sb, BodyOf(z.env, p, LocOf(z.tb, p)).value)
            == Some(ExpectWhat(z.env, z.contents, p))
  {
    FileReads(z.env.x.cfg.codec, z.sb.blockSize, z.img, z.env.x.entries[p], z.contents[p]);
  }

  lemma {:induction false} DirWhat(z: Scene, p: Path)
    requires GoodScene(z) && IsDir(z.env.x, p) && Short(z.env, z.tb, p)
    ensures TheInode(z, p).Some?
    ensures ReadWhat(z.env.x.cfg.codec, z.img, z.sb, TheInode(z, p).value.body)
              == Some(ExpectWhat(z.env, z.contents, p))
  {
    DirReads(z, p);
    assert ListedAt(z.env, z.tb, p);
    RowNames(z.env, z.tb, p);
    FolderWhat(z.env.x.cfg.codec, z.img, z.sb, TheInode(z, p).value.body, Rows(z.env, z.tb, p));
  }

  lemma {:induction false} FolderWhat(c: Codec, img: Bytes, sb: Superblock.Super, body: Inodes.Body, es: seq<DirEnt>)
    requires body.DirB? && ReadDir(c, img, sb, body) == Some(es)
    ensures ReadWhat(c, img, sb, body) == Some(Folder(body.nlinks, body.parent, Names(es)))
  {
  }

  lemma {:induction false} WhatReads(z: Scene, p: Path)
    requires GoodScene(z) && FilesReadable(z) && p in InodeOwners(z.env.x)
    requires IsDir(z.env.x, p) ==> Short(z.env, z.tb, p)
    ensures TheInode(z, p).Some?
    ensures ReadWhat(z.env.x.cfg.codec, z.img, z.sb, TheInode(z, p).value.body)
              == Some(ExpectWhat(z.env, z.contents, p))
  {
    assert Written(z.env, z.tb, p);
    if z.env.x.entries[p].node.FileN? {
      FileWhat(z, p);
    } else if z.env.x.entries[p].node.DirN? {
      DirWhat(z, p);
    } else {
      PlainWhat(z.env.x.cfg.codec, z.img, z.sb, z.env, z.contents, p, LocOf(z.tb, p));
    }
  }

  lemma {:induction false} StatReads(z: Scene, p: Path)
    requires GoodScene(z) && IdsReadable(z) && FilesReadable(z) && p in InodeOwners(z.env.x)
    requires IsDir(z.env.x, p) ==> Short(z.env, z.tb, p)
    ensures TheInode(z, p).Some?
    ensures StatInode(z.env.x.cfg.codec, z.img, z.sb, TheInode(z, p).value) == Expect(z.env, z.contents, p)
  {
    WhatReads(z, p);
    OwnerIds(z, p);
    var i, a := TheInode(z, p).value, AttrsOf(z.env.x.entries[p].node);
    StatIs(z.env.x.cfg.codec, z.img, z.sb, i, a.uid, a.gid, ExpectWhat(z.env, z.contents, p));
    HeadOf(z.env, p, LocOf(z.tb, p));
    ExpectIs(z.env, z.contents, p, i.number, i.perm, i.mtime);
  }

  lemma {:induction false} ExpectIs(env: Env, contents: map<Path, Bytes>, p: Path, number: nat, perm: nat, mtime: nat)
    requires p in InodeOwners(env.x)
    requires
      var a := AttrsOf(env.x.entries[p].node);
      number == NumberOf(env, p) && perm == a.mode % 4096 && mtime == Seconds(env.x.cfg, a)
    ensures
      var a := AttrsOf(env.x.entries[p].node);
      Expect(env, contents, p) == Some(Stat(number, perm, a.uid, a.gid, mtime, ExpectWhat(env, contents, p)))
  {
  }

  lemma {:induction false} StatIs(c: Codec, img: Bytes, sb: Superblock.Super, i: Inodes.Inode, uid: nat, gid: nat,
                                  what: What)
    requires ReadId(c, img, sb.idTableStart, i.uidIdx) == Some(uid)
               && ReadId(c, img, sb.idTableStart, i.gidIdx) == Some(gid)
    requires ReadWhat(c, img, sb, i.body) == Some(what)
    ensures StatInode(c, img, sb, i) == Some(Stat(i.number, i.perm, uid, gid, i.mtime, what))
  {
  }

  lemma {:induction false} HeadOf(env: Env, p: Path, loc: Loc)
    requires p in InodeOwners(env.x) && env.x.cfg.blockSize > 0 && InodeOf(env, p, loc).Some?
    ensures
      var i, a := InodeOf(env, p, loc).value, AttrsOf(env.x.entries[p].node);
      i.number == NumberOf(env, p) && i.perm == a.mode % 4096 && i.mtime == Seconds(env.x.cfg, a)
  {
  }

  // ---- Following a path ----

  lemma {:induction false} FindFirst(es: seq<DirEnt>, i: nat, name: Bytes)
    requires i < |es| && es[i].name == name && StrictlySorted(es, NameOf)
    ensures Find(es, name) == Some(es[i])
    decreases |es|
  {
    if i > 0 {
      LessIrreflexive(name);
      assert Less(NameOf(es[0]), NameOf(es[i]));
      FindFirst(es[1..], i - 1, name);
    }
  }

  lemma {:induction false} FindNone(es: seq<DirEnt>, name: Bytes)
    requires forall i | 0 <= i < |es| :: es[i].name != name
    ensures Find(es, name).None?
    decreases |es|
  {
    if es != [] {
      FindNone(es[1..], name);
    }
  }

  /** A name is listed in `d` exactly when the path it forms was created. */
  lemma {:induction false} NameListed(x: Ctx, d: Path, name: Bytes) returns (i: int)
    requires GoodCtx(x) && d in x.entries
    ensures -1 <= i < |Kids(x, d)|
    ensures i >= 0 ==> Kids(x, d)[i] == Child(d, name) && Base(Kids(x, d)[i]) == name && ValidName(name)
                       && Child(d, name) in x.order
    ensures i < 0 ==> forall j | 0 <= j < |Kids(x, d)| :: Base(Kids(x, d)[j]) != name
    ensures i < 0 ==> !(ValidName(name) && Child(d, name) in x.entries)
  {
    var ks := Kids(x, d);
    KidsAre(x, d);
    if j :| 0 <= j < |ks| && Base(ks[j]) == name {
      assert ks[j] in ks;
      ValidPathParts(ks[j]);
      i := j;
    } else {
      i := -1;
      if ValidName(name) && Child(d, name) in x.entries {
        KidThere(x, d, name);
      }
    }
  }

  lemma {:induction false} KidThere(x: Ctx, d: Path, name: Bytes)
    requires GoodCtx(x) && d in x.entries && ValidName(name) && Child(d, name) in x.entries
    ensures exists j | 0 <= j < |Kids(x, d)| :: Base(Kids(x, d)[j]) == name
  {
    var p := Child(d, name);
    assert d != [] by {
      if d != Root {
        ValidPathParts(d);
      }
    }
    DirOfChild(d, name);
    ChildLonger(d, name);
    assert p != Root;
    KidsAre(x, d);
    var j :| 0 <= j < |Kids(x, d)| && Kids(x, d)[j] == p;
  }

  /** What the reader should return for `names` followed from `d`. */
  function ExpectFrom(env: Env, contents: map<Path, Bytes>, d: Path, names: seq<Bytes>): (r: Option<Stat>)
  {
    if AllValid(names) then Expect(env, contents, PathFrom(d, names)) else None
  }

  /** Nothing exists below what is not a directory, and nothing below what does not exist. */
  lemma {:induction false} AboveIsDir(x: Ctx, d: Path, names: seq<Bytes>)
    requires GoodCtx(x) && d != [] && AllValid(names) && names != [] && PathFrom(d, names) in x.entries
    ensures IsDir(x, d) && Child(d, names[0]) in x.entries
    decreases |names|
  {
    var k := Child(d, names[0]);
    ChildLonger(d, names[0]);
    DirOfChild(d, names[0]);
    if |names| > 1 {
      AboveIsDir(x, k, names[1..]);
    }
    assert k in x.entries && k != Root;
    var i :| 0 <= i < |x.order| && x.order[i] == k;
    assert IsDir(x, Dir(x.order[i]));
  }

  lemma {:induction false} PathNonEmpty(x: Ctx, p: Path)
    requires GoodCtx(x) && p in x.entries
    ensures p != []
  {
    if p != Root {
      assert ValidPath(p);
    }
  }

  lemma {:induction false} OwnerExpect(env: Env, contents: map<Path, Bytes>, p: Path)
    requires GoodCtx(env.x) && p in env.x.entries
    ensures Expect(env, contents, p) == Expect(env, contents, Owner(env.x, p))
  {
  }

  /** The row for a child leads to the child's own inode, and says the same number and type. */
  lemma {:induction false} RowLeads(z: Scene, d: Path, i: nat)
    requires GoodScene(z) && IdsReadable(z) && FilesReadable(z) && IsDir(z.env.x, d) && i < |Kids(z.env.x, d)|
    ensures ListedAt(z.env, z.tb, d) && |Rows(z.env, z.tb, d)| == |Kids(z.env.x, d)|
    ensures Kids(z.env.x, d)[i] in z.env.x.entries
    ensures
      var e, o := Rows(z.env, z.tb, d)[i], Owner(z.env.x, Kids(z.env.x, d)[i]);
      && e.name == Base(Kids(z.env.x, d)[i])
      && TheInode(z, o).Some?
      && ReadInode(z.env.x.cfg.codec, z.img, z.sb, e.block, e.off) == TheInode(z, o)
      && TheInode(z, o).value.number == e.inode && Inodes.TypeOf(TheInode(z, o).value.body) == e.typ
  {
    assert ListedAt(z.env, z.tb, d);
    RowsAre(z.env, z.tb, d);
    var k := Kids(z.env.x, d)[i];
    assert EntFor(z.env, z.tb, k) == Some(Rows(z.env, z.tb, d)[i]);
    OwnerOwns(z.env.x, k);
    InodeReads(z, Owner(z.env.x, k));
    TypesAgree(z.env, Owner(z.env.x, k), LocOf(z.tb, Owner(z.env.x, k)));
  }

  lemma {:induction false} TypesAgree(env: Env, p: Path, loc: Loc)
    requires p in env.x.entries && env.x.cfg.blockSize > 0 && InodeOf(env, p, loc).Some?
    ensures Inodes.TypeOf(InodeOf(env, p, loc).value.body) == TypeFor(env.x.entries[p].node)
    ensures InodeOf(env, p, loc).value.number == NumberOf(env, p)
  {
  }

  lemma {:induction false} WalkHere(z: Scene, p: Path)
    requires GoodScene(z) && IdsReadable(z) && FilesReadable(z) && AllShort(z) && p in z.env.x.entries
    ensures TheInode(z, Owner(z.env.x, p)).Some?
    ensures Walk(z.env.x.cfg.codec, z.img, z.sb, TheInode(z, Owner(z.env.x, p)).value, [])
            == Expect(z.env, z.contents, p)
  {
    OwnerOwns(z.env.x, p);
    StatReads(z, Owner(z.env.x, p));
    OwnerExpect(z.env, z.contents, p);
    WalkEnds(z.env.x.cfg.codec, z.img, z.sb, TheInode(z, Owner(z.env.x, p)).value);
  }

  lemma {:induction false} WalkEnds(c: Codec, img: Bytes, sb: Superblock.Super, i: Inodes.Inode)
    requires sb.blockSize > 0
    ensures Walk(c, img, sb, i, []) == StatInode(c, img, sb, i)
  {
  }

  lemma {:induction false} WalkReads(z: Scene, p: Path, names: seq<Bytes>)
    requires GoodScene(z) && IdsReadable(z) && FilesReadable(z) && AllShort(z) && p in z.env.x.entries
    ensures TheInode(z, Owner(z.env.x, p)).Some?
    ensures Walk(z.env.x.cfg.codec, z.img, z.sb, TheInode(z, Owner(z.env.x, p)).value, names)
            == ExpectFrom(z.env, z.contents, p, names)
    decreases |names|, 1
  {
    if names == [] {
      WalkHere(z, p);
      return;
    }
    PathNonEmpty(z.env.x, p);
    if IsDir(z.env.x, p) {
      WalkStep(z, p, names);
    } else {
      WalkBlocked(z, p, names);
    }
  }

  lemma {:induction false} NotDirBody(env: Env, p: Path, loc: Loc)
    requires p in env.x.entries && env.x.cfg.blockSize > 0 && InodeOf(env, p, loc).Some? && !IsDir(env.x, p)
    ensures !InodeOf(env, p, loc).value.body.DirB?
  {
  }

  lemma {:induction false} WalkNoDir(c: Codec, img: Bytes, sb: Superblock.Super, i: Inodes.Inode, names: seq<Bytes>)
    requires sb.blockSize > 0 && names != [] && !i.body.DirB?
    ensures Walk(c, img, sb, i, names).None?
  {
  }

  lemma {:induction false} WalkBlocked(z: Scene, p: Path, names: seq<Bytes>)
    requires GoodScene(z) && p in z.env.x.entries && !IsDir(z.env.x, p) && names != [] && p != []
    ensures TheInode(z, Owner(z.env.x, p)).Some?
    ensures Walk(z.env.x.cfg.codec, z.img, z.sb, TheInode(z, Owner(z.env.x, p)).value, names).None?
    ensures ExpectFrom(z.env, z.contents, p, names).None?
  {
    var o := Owner(z.env.x, p);
    OwnerOwns(z.env.x, p);
    assert Written(z.env, z.tb, o);
    assert !IsDir(z.env.x, o);
    NotDirBody(z.env, o, LocOf(z.tb, o));
    WalkNoDir(z.env.x.cfg.codec, z.img, z.sb, TheInode(z, o).value, names);
    if AllValid(names) && PathFrom(p, names) in z.env.x.entries {
      AboveIsDir(z.env.x, p, names);
    }
  }

  lemma {:induction false} WalkStep(z: Scene, d: Path, names: seq<Bytes>)
    requires GoodScene(z) && IdsReadable(z) && FilesReadable(z) && AllShort(z)
    requires d in z.env.x.entries && IsDir(z.env.x, d) && names != [] && d != []
    ensures TheInode(z, d).Some?
    ensures Walk(z.env.x.cfg.codec, z.img, z.sb, TheInode(z, d).value, names) == ExpectFrom(z.env, z.contents, d, names)
    decreases |names|, 0
  {
    DirReads(z, d);
    var es := Rows(z.env, z.tb, d);
    var i := NameListed(z.env.x, d, names[0]);
    if i >= 0 {
      RowLeads(z, d, i);
      assert ListedAt(z.env, z.tb, d);
      RowsAre(z.env, z.tb, d);
      FindFirst(es, i, names[0]);
      var k := Kids(z.env.x, d)[i];
      WalkReads(z, k, names[1..]);
      WalkDown(z.env.x.cfg.codec, z.img, z.sb, TheInode(z, d).value, names, es, es[i],
          TheInode(z, Owner(z.env.x, k)).value);
      ValidSplits(names);
    } else {
      NotFound(z, d, names);
    }
  }

  lemma {:induction false} ValidSplits(names: seq<Bytes>)
    requires names != [] && ValidName(names[0])
    ensures AllValid(names) <==> AllValid(names[1..])
  {
    if AllValid(names[1..]) {
      forall i | 0 <= i < |names|
        ensures ValidName(names[i])
      {
        if i > 0 {
          assert names[1..][i - 1] == names[i];
        }
      }
    }
  }

  lemma {:induction false} WalkDown(c: Codec, img: Bytes, sb: Superblock.Super, i: Inodes.Inode, names: seq<Bytes>,
                                    es: seq<DirEnt>, e: DirEnt, next: Inodes.Inode)
    requires sb.blockSize > 0 && names != []
    requires ReadDir(c, img, sb, i.body) == Some(es) && Find(es, names[0]) == Some(e)
    requires ReadInode(c, img, sb, e.block, e.off) == Some(next)
    requires next.number == e.inode && Inodes.TypeOf(next.body) == e.typ
    ensures Walk(c, img, sb, i, names) == Walk(c, img, sb, next, names[1..])
  {
  }

  lemma {:induction false} WalkLost(c: Codec, img: Bytes, sb: Superblock.Super, i: Inodes.Inode, names: seq<Bytes>,
                                    es: seq<DirEnt>)
    requires sb.blockSize > 0 && names != []
    requires ReadDir(c, img, sb, i.body) == Some(es) && Find(es, names[0]).None?
    ensures Walk(c, img, sb, i, names).None?
  {
  }

  lemma {:induction false} RowsLack(env: Env, tb: Tables, d: Path, name: Bytes)
    requires GoodCtx(env.x) && EntsFor(env, tb, Kids(env.x, d)).Some?
    requires forall j | 0 <= j < |Kids(env.x, d)| :: Base(Kids(env.x, d)[j]) != name
    ensures Find(Rows(env, tb, d), name).None?
  {
    var es := Rows(env, tb, d);
    RowsAre(env, tb, d);
    forall j | 0 <= j < |es|
      ensures es[j].name != name
    {
      assert EntFor(env, tb, Kids(env.x, d)[j]) == Some(es[j]);
    }
    FindNone(es, name);
  }

  lemma {:induction false} NothingBelow(env: Env, contents: map<Path, Bytes>, d: Path, names: seq<Bytes>)
    requires GoodCtx(env.x) && names != [] && d != [] && !(ValidName(names[0]) && Child(d, names[0]) in env.x.entries)
    ensures ExpectFrom(env, contents, d, names).None?
  {
    if AllValid(names) && PathFrom(d, names) in env.x.entries {
      AboveIsDir(env.x, d, names);
    }
  }

  lemma {:induction false} NotFound(z: Scene, d: Path, names: seq<Bytes>)
    requires GoodScene(z) && Short(z.env, z.tb, d) && IsDir(z.env.x, d) && names != [] && d != []
    requires forall j | 0 <= j < |Kids(z.env.x, d)| :: Base(Kids(z.env.x, d)[j]) != names[0]
    requires !(ValidName(names[0]) && Child(d, names[0]) in z.env.x.entries)
    ensures TheInode(z, d).Some?
    ensures Walk(z.env.x.cfg.codec, z.img, z.sb, TheInode(z, d).value, names).None?
    ensures ExpectFrom(z.env, z.contents, d, names).None?
  {
    DirReads(z, d);
    RowsLack(z.env, z.tb, d, names[0]);
    WalkLost(z.env.x.cfg.codec, z.img, z.sb, TheInode(z, d).value, names, Rows(z.env, z.tb, d));
    NothingBelow(z.env, z.contents, d, names);
  }
}
