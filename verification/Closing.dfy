/**
 * What Close computes (squashfs/writer.go:434-573): the tree, the inode numbers, the ID list, the
 * inode and directory tables with all their cross-references, and the finished image. Each of
 * these is a function here; the passes of the real Close are in the ClosePasses, TablePasses and CloseImage modules.
 */
module Closing {
  import opened Bytes
  import opened Paths
  import opened Sorting
  import opened Chunking
  import opened Metadata
  import opened Directory
  import opened IdTable
  import opened WriterSpec
  import Superblock
  import Inodes

  const PadAlignment: nat := 4096

  // ---- The tree ----

  /** All entries, the synthetic root included, and the order the others were created in. */
  datatype Ctx = Ctx(cfg: Config, entries: map<Path, Entry>, order: seq<Path>)

  function RootAttrs(cfg: Config): Attrs
  {
    Attrs(0x1ED, 0, 0, cfg.mtime)
  }

  function Rooted(cfg: Config, s: State): (x: Ctx)
  {
    Ctx(cfg, s.entries[Root := Entry(DirN(RootAttrs(cfg)), 0, [], 0)], s.order)
  }

  predicate IsDir(x: Ctx, p: Path)
  {
    p in x.entries && x.entries[p].node.DirN?
  }

  /** Every entry's parent exists and is a directory: otherwise buildTree fails. */
  predicate ParentsOk(x: Ctx)
  {
    forall i | 0 <= i < |x.order| :: IsDir(x, Dir(x.order[i]))
  }

  function Within(order: seq<Path>, d: Path): (r: seq<Path>)
  {
    if order == [] then []
    else
      var n := |order| - 1;
      if Dir(order[n]) == d then Within(order[..n], d) + [order[n]] else Within(order[..n], d)
  }

  const BaseOf: Path -> Bytes := (p: Path) => Base(p)

  /** A directory's children, sorted by name. */
  function Kids(x: Ctx, d: Path): (r: seq<Path>)
  {
    Sort(Within(x.order, d), BaseOf)
  }

  /** What the Create* calls guarantee about the entry table. */
  ghost predicate BaseCtx(x: Ctx)
  {
    && IsDir(x, Root) && Root !in x.order
    && (forall p | p in x.entries :: p == Root || p in x.order)
    && (forall p | p in x.order :: p in x.entries && ValidPath(p))
    && (forall i, j | 0 <= i < j < |x.order| :: x.order[i] != x.order[j])
    && (forall p | p in x.entries && x.entries[p].node.HardlinkN? ::
          x.entries[p].node.link in x.order && x.entries[x.entries[p].node.link].node.FileN?)
  }

  ghost predicate GoodCtx(x: Ctx)
  {
    BaseCtx(x) && ParentsOk(x)
  }

  /** The tree Close walks. Only directories have branches below them. */
  datatype Branch = Branch(path: Path, kids: seq<Branch>)

  function Longest(order: seq<Path>): (n: nat)
    ensures forall i | 0 <= i < |order| :: |order[i]| <= n
  {
    if order == [] then 1
    else
      var m := Longest(order[..|order| - 1]);
      if |order[|order| - 1]| > m then |order[|order| - 1]| else m
  }

  lemma {:induction false} WithinFacts(order: seq<Path>, d: Path)
    ensures forall p :: p in Within(order, d) <==> p in order && Dir(p) == d
    decreases |order|
  {
    if order != [] {
      var n := |order| - 1;
      WithinFacts(order[..n], d);
      TakeNext(order, n);
      TakeAll(order);
    }
  }

  lemma {:induction false} KidsAre(x: Ctx, d: Path)
    ensures forall p :: p in Kids(x, d) <==> p in x.order && Dir(p) == d
  {
    WithinFacts(x.order, d);
    InMultiset(Within(x.order, d), Kids(x, d));
  }

  function Grow(x: Ctx, d: Path): (b: Branch)
    requires GoodCtx(x) && d in x.entries && |d| <= Longest(x.order)
    decreases Longest(x.order) - |d|, 1, 0
  {
    Branch(d, if IsDir(x, d) then GrowAll(x, d, Kids(x, d)) else [])
  }

  function GrowAll(x: Ctx, d: Path, ks: seq<Path>): (bs: seq<Branch>)
    requires GoodCtx(x) && d in x.entries && |d| <= Longest(x.order)
    requires forall k | k in ks :: k in Kids(x, d)
    decreases Longest(x.order) - |d|, 0, |ks|
  {
    if ks == [] then []
    else
      KidsAre(x, d);
      assert ks[0] in ks;
      ValidPathParts(ks[0]);
      [Grow(x, ks[0])] + GrowAll(x, d, ks[1..])
  }

  // ---- Inode numbers ----

  /** Depth-first order over everything that owns an inode. */
  function Preorder(x: Ctx, b: Branch): (r: seq<Path>)
    decreases b, 1
  {
    if b.path in x.entries && x.entries[b.path].node.HardlinkN? then []
    else [b.path] + PreorderAll(x, b.kids)
  }

  function PreorderAll(x: Ctx, bs: seq<Branch>): (r: seq<Path>)
    decreases bs, 0
  {
    if bs == [] then [] else Preorder(x, bs[0]) + PreorderAll(x, bs[1..])
  }

  function Position(s: seq<Path>, p: Path): (i: nat)
    requires p in s
    ensures i < |s| && s[i] == p
  {
    if s[0] == p then 0 else 1 + Position(s[1..], p)
  }

  /** Everything later passes look up: numbering and ID list are settled before they start. */
  datatype Env = Env(x: Ctx, pre: seq<Path>, ids: seq<u32>)

  /** The path whose inode `p` names: itself, or a hard link's target. */
  function Owner(x: Ctx, p: Path): (q: Path)
    requires p in x.entries
  {
    if x.entries[p].node.HardlinkN? then x.entries[p].node.link else p
  }

  function NumberOf(env: Env, p: Path): (n: nat)
  {
    if p in env.pre then (1 + Position(env.pre, p)) % 0x1_0000_0000 else 0
  }

  function ParentNumber(env: Env, p: Path): (n: nat)
  {
    if p == Root then 1 else NumberOf(env, Dir(p))
  }

  function CountDirs(x: Ctx, ks: seq<Path>): (n: nat)
  {
    if ks == [] then 0 else CountDirs(x, ks[..|ks| - 1]) + (if IsDir(x, ks[|ks| - 1]) then 1 else 0)
  }

  /** Only meaningful where it is emitted: a file's count is not. */
  function LinksOf(x: Ctx, p: Path): (n: nat)
  {
    if IsDir(x, p) then (2 + CountDirs(x, Kids(x, p))) % 0x1_0000_0000 else 1
  }

  // ---- Owners ----

  function AttrsOf(node: Node): Attrs
    requires !node.HardlinkN?
  {
    node.attrs
  }

  /** The IDs internIDs meets, in order; the synthetic root comes last. */
  function IdsMet(x: Ctx, order: seq<Path>): (r: seq<u32>)
  {
    if order == [] then []
    else
      var n := |order| - 1;
      var p := order[n];
      if p in x.entries && !x.entries[p].node.HardlinkN? then
        IdsMet(x, order[..n]) + [AttrsOf(x.entries[p].node).uid, AttrsOf(x.entries[p].node).gid]
      else IdsMet(x, order[..n])
  }

  function IdList(x: Ctx): (r: Option<seq<u32>>)
  {
    InternAll([], IdsMet(x, x.order) + [0, 0])
  }

  // ---- Inode records ----

  function Mtime(cfg: Config, a: Attrs): (r: Option<nat>)
  {
    var t := if cfg.mtime.Some? then cfg.mtime else a.mtime;
    match t
    case None => Some(0)
    case Some(sec) => if 0 <= sec <= 0xFFFF_FFFF then Some(sec) else None
  }

  /** Where a directory's listing went. `size` is the uint32 the source keeps. */
  datatype Loc = Loc(ref: MetaRef, start: nat, size: nat)

  const NoLoc := Loc(MetaRef(0, 0), 0, 0)

  /** The body each encodeBasic* function produces, or None where it refuses. */
  function BodyFrom(e: Entry, blockSize: nat, loc: Loc, links: nat, parent: nat): (r: Option<Inodes.Body>)
    requires blockSize > 0
  {
    match e.node
    case FileN(_) => Inodes.FileBody(e.start, e.size, e.sizes, blockSize)
    case DirN(_) => Inodes.DirBody(loc.start, links, loc.size, loc.ref.off, parent)
    case SymlinkN(_, target) => Inodes.SymlinkBody(links, target)
    case CharN(_, major, minor) => Inodes.DeviceBody(false, links, major, minor)
    case BlockN(_, major, minor) => Inodes.DeviceBody(true, links, major, minor)
    case FifoN(_) => Some(Inodes.IpcB(false, links))
    case SocketN(_) => Some(Inodes.IpcB(true, links))
    case HardlinkN(_) => None
  }

  function BodyOf(env: Env, p: Path, loc: Loc): (r: Option<Inodes.Body>)
    requires p in env.x.entries && env.x.cfg.blockSize > 0
  {
    BodyFrom(env.x.entries[p], env.x.cfg.blockSize, loc, LinksOf(env.x, p), ParentNumber(env, p))
  }

  function IdIndex(env: Env, id: u32): (i: nat)
  {
    if id in env.ids then IndexOf(env.ids, id) else 0
  }

  function InodeOf(env: Env, p: Path, loc: Loc): (r: Option<Inodes.Inode>)
    requires p in env.x.entries && env.x.cfg.blockSize > 0
  {
    var node := env.x.entries[p].node;
    if node.HardlinkN? then None
    else
      var a := AttrsOf(node);
      match (Mtime(env.x.cfg, a), BodyOf(env, p, loc))
      case (Some(mtime), Some(body)) =>
        Some(Inodes.Inode(a.mode % 4096, IdIndex(env, a.uid), IdIndex(env, a.gid), mtime, NumberOf(env, p), body))
      case _ => None
  }

  // ---- The two tables ----

  datatype Tables = Tables(inodes: Chunks, dirs: Chunks, refs: map<Path, MetaRef>, locs: map<Path, Loc>)

  const NoTables := Tables(Empty, Empty, map[], map[])

  function LocOf(tb: Tables, p: Path): Loc
  {
    if p in tb.locs then tb.locs[p] else NoLoc
  }

  /** writeOneInode. */
  function WriteInode(env: Env, p: Path, tb: Tables): (r: Option<Tables>)
    requires env.x.cfg.blockSize > 0 && |tb.inodes.cur| < BlockCap
  {
    if p !in env.x.entries then None
    else
      match InodeOf(env, p, LocOf(tb, p))
      case None => None
      case Some(i) =>
        Some(tb.(inodes := Append(BlockCap, tb.inodes, Inodes.Encode(i)), refs := tb.refs[p := Here(tb.inodes)]))
  }

  predicate Leaf(x: Ctx, p: Path)
  {
    p in x.entries && !x.entries[p].node.DirN? && !x.entries[p].node.HardlinkN?
  }

  /** writeLeafInodes over a prefix of the creation order. */
  function WriteLeaves(env: Env, order: seq<Path>): (r: Option<Tables>)
    requires env.x.cfg.blockSize > 0
    ensures r.Some? ==> |r.value.inodes.cur| < BlockCap
  {
    if order == [] then Some(NoTables)
    else
      var n := |order| - 1;
      match WriteLeaves(env, order[..n])
      case None => None
      case Some(tb) =>
        if !Leaf(env.x, order[n]) then Some(tb)
        else
          AppendCur(tb.inodes);
          WriteInode(env, order[n], tb)
  }

  lemma {:induction false} AppendCur(ch: Chunks)
    requires |ch.cur| < BlockCap
    ensures forall p: Bytes :: |Append(BlockCap, ch, p).cur| < BlockCap
  {
    forall p: Bytes
      ensures |Append(BlockCap, ch, p).cur| < BlockCap
    {
      AppendTwice(BlockCap, ch, p, []);
    }
  }

  function TypeFor(node: Node): (t: nat)
  {
    match node
    case FileN(_) => Inodes.TypeFile
    case DirN(_) => Inodes.TypeDir
    case SymlinkN(_, _) => Inodes.TypeSymlink
    case BlockN(_, _, _) => Inodes.TypeBlock
    case CharN(_, _, _) => Inodes.TypeChar
    case FifoN(_) => Inodes.TypeFifo
    case SocketN(_) => Inodes.TypeSocket
    case HardlinkN(_) => 0
  }

  /** One row of a listing: a hard link quotes its target's number, place and type. */
  function EntFor(env: Env, tb: Tables, k: Path): (r: Option<DirEnt>)
  {
    if k !in env.x.entries then None
    else
      var o := Owner(env.x, k);
      if o !in env.x.entries || o !in tb.refs || tb.refs[o].block > |tb.inodes.done| then None
      else
        var block := BlockOffset(env.x.cfg.codec, tb.inodes.done, tb.refs[o].block);
        if block > 0xFFFF_FFFF then None
        else Some(DirEnt(Base(k), NumberOf(env, o), block, tb.refs[o].off, TypeFor(env.x.entries[o].node)))
  }

  function EntsFor(env: Env, tb: Tables, ks: seq<Path>): (r: Option<seq<DirEnt>>)
    ensures r.Some? ==> |r.value| == |ks|
  {
    if ks == [] then Some([])
    else
      match (EntsFor(env, tb, ks[..|ks| - 1]), EntFor(env, tb, ks[|ks| - 1]))
      case (Some(es), Some(e)) => Some(es + [e])
      case _ => None
  }

  /** A directory's own step, once its subdirectories are written. */
  function WriteOneDir(env: Env, d: Path, tb: Tables): (r: Option<Tables>)
    requires env.x.cfg.blockSize > 0 && |tb.inodes.cur| < BlockCap && |tb.dirs.cur| < BlockCap
  {
    match EntsFor(env, tb, Kids(env.x, d))
    case None => None
    case Some(es) =>
      var sorted := Sort(es, NameOf);
      if !NamesOk(sorted) then None
      else
        var listing := EncodeListing(sorted);
        var ref := Here(tb.dirs);
        var loc := Loc(ref, BlockOffset(env.x.cfg.codec, tb.dirs.done, ref.block), |listing| % 0x1_0000_0000);
        WriteInode(env, d, tb.(dirs := Append(BlockCap, tb.dirs, listing), locs := tb.locs[d := loc]))
  }

  predicate Open(tb: Tables)
  {
    |tb.inodes.cur| < BlockCap && |tb.dirs.cur| < BlockCap
  }

  lemma {:induction false} WriteOneDirOpen(env: Env, d: Path, tb: Tables)
    requires env.x.cfg.blockSize > 0 && Open(tb)
    ensures WriteOneDir(env, d, tb).Some? ==> Open(WriteOneDir(env, d, tb).value)
  {
    AppendCur(tb.inodes);
    AppendCur(tb.dirs);
  }

  /** writeDirs: subdirectories first, then the listing and the inode. */
  function WriteDir(env: Env, b: Branch, tb: Tables): (r: Option<Tables>)
    requires env.x.cfg.blockSize > 0 && Open(tb)
    ensures r.Some? ==> Open(r.value)
    decreases b, 1
  {
    match WriteSubdirs(env, b.kids, tb)
    case None => None
    case Some(tb1) =>
      WriteOneDirOpen(env, b.path, tb1);
      WriteOneDir(env, b.path, tb1)
  }

  function WriteSubdirs(env: Env, bs: seq<Branch>, tb: Tables): (r: Option<Tables>)
    requires env.x.cfg.blockSize > 0 && Open(tb)
    ensures r.Some? ==> Open(r.value)
    decreases bs, 0
  {
    if bs == [] then Some(tb)
    else
      match if IsDir(env.x, bs[0].path) then WriteDir(env, bs[0], tb) else Some(tb)
      case None => None
      case Some(tb1) => WriteSubdirs(env, bs[1..], tb1)
  }

  // ---- The image ----

  /** Everything but hard links: what totalInodeCount counts. */
  function InodeOwners(x: Ctx): (r: set<Path>)
  {
    set p | p in x.entries && !x.entries[p].node.HardlinkN?
  }

  /** What imageMtime starts from: the largest entry time, zero if none is larger. */
  function MaxMtime(x: Ctx, order: seq<Path>): (m: int)
    ensures m >= 0
  {
    if order == [] then 0
    else
      var n := |order| - 1;
      var m := MaxMtime(x, order[..n]);
      var p := order[n];
      if p in x.entries && !x.entries[p].node.HardlinkN? && AttrsOf(x.entries[p].node).mtime.Some?
         && AttrsOf(x.entries[p].node).mtime.value > m
      then AttrsOf(x.entries[p].node).mtime.value else m
  }

  function Clamp32(sec: int): (r: nat)
  {
    if sec < 0 then 0 else if sec > 0xFFFF_FFFF then 0xFFFF_FFFF else sec
  }

  function ImageMtime(x: Ctx): (r: nat)
  {
    if x.cfg.mtime.Some? then Clamp32(x.cfg.mtime.value) else Clamp32(MaxMtime(x, x.order))
  }

  /** The parts of the file in order; `idBase` is where the ID blocks start. */
  datatype Regions = Regions(out: Bytes, inodes: Bytes, dirs: Bytes, idBase: nat, ids: Bytes, lookup: Bytes)

  function TablesOf(env: Env, root: Branch): (r: Option<Tables>)
    requires env.x.cfg.blockSize > 0
  {
    match WriteLeaves(env, env.x.order)
    case None => None
    case Some(tb) => if Open(tb) then WriteDir(env, root, tb) else None
  }

  function RegionsOf(env: Env, tb: Tables, out: Bytes): (r: Regions)
  {
    var c := env.x.cfg.codec;
    var inodes, dirs := Emit(c, Seal(tb.inodes).done), Emit(c, Seal(tb.dirs).done);
    var base := |out| + |inodes| + |dirs|;
    var blocks := IdBlocks(env.ids);
    Regions(out, inodes, dirs, base, Emit(c, blocks), LookupFrom(c, blocks, base, |blocks|))
  }

  function Body(g: Regions): Bytes
  {
    g.out + g.inodes + g.dirs + g.ids + g.lookup
  }

  /** The superblock from the values Close has at hand when it fills it in. */
  function SuperWith(x: Ctx, idCount: nat, inodeStart: nat, dirStart: nat, lookupStart: nat, used: nat,
                     rootRef: nat): (sb: Superblock.Super)
    requires x.cfg.blockSize > 0
  {
    Superblock.Super(
      inodeCount := |InodeOwners(x)| % 0x1_0000_0000,
      modTime := ImageMtime(x),
      blockSize := x.cfg.blockSize,
      fragCount := 0,
      compressor := x.cfg.compressorId,
      blockLog := Superblock.BlockLogFor(x.cfg.blockSize),
      flags := Superblock.FlagNoFragments + Superblock.FlagNoXattrs,
      idCount := idCount % 0x1_0000,
      rootInodeRef := rootRef,
      bytesUsed := used,
      idTableStart := lookupStart,
      xattrTableStart := Superblock.Absent,
      inodeTableStart := inodeStart,
      directoryTableStart := dirStart,
      fragmentTableStart := Superblock.Absent,
      exportTableStart := Superblock.Absent)
  }

  function SuperOf(env: Env, tb: Tables, g: Regions): (sb: Superblock.Super)
    requires Root in tb.refs && tb.refs[Root].block <= |Seal(tb.inodes).done|
    requires env.x.cfg.blockSize > 0
  {
    var root := tb.refs[Root];
    SuperWith(env.x, |env.ids|, |g.out|, |g.out| + |g.inodes|, |g.out| + |g.inodes| + |g.dirs| + |g.ids|, |Body(g)|,
              EncodeRef(BlockOffset(env.x.cfg.codec, Seal(tb.inodes).done, root.block), root.off))
  }

  function Padding(n: nat): (r: nat)
    ensures r < PadAlignment && (n + r) % PadAlignment == 0
  {
    if n % PadAlignment == 0 then 0 else PadAlignment - n % PadAlignment
  }

  /** The placeholder at the front replaced by the real superblock, zeros at the end. */
  function Finish(sb: Superblock.Super, body: Bytes): (img: Bytes)
    requires |body| >= Superblock.SuperblockSize
  {
    Superblock.Encode(sb) + body[Superblock.SuperblockSize..] + seq(Padding(|body|), _ => 0)
  }

  /** The finished image for a state with no file open; None where Close reports an error. */
  ghost function ImageOf(cfg: Config, s: State): (r: Option<Bytes>)
    requires cfg.blockSize > 0 && |s.out| >= Superblock.SuperblockSize
  {
    var x := Rooted(cfg, s);
    if !GoodCtx(x) || IdList(x).None? then None
    else
      RootShort(x);
      var root := Grow(x, Root);
      var env := Env(x, Preorder(x, root), IdList(x).value);
      match TablesOf(env, root)
      case None => None
      case Some(tb) =>
        if Root !in tb.refs || tb.refs[Root].block > |Seal(tb.inodes).done| then None
        else
          var g := RegionsOf(env, tb, s.out);
          Some(Finish(SuperOf(env, tb, g), Body(g)))
  }

  lemma {:induction false} RootShort(x: Ctx)
    ensures |Root| <= Longest(x.order)
  {
    LongestPositive(x.order);
  }

  lemma {:induction false} LongestPositive(order: seq<Path>)
    ensures Longest(order) >= 1
  {
    if order != [] {
      LongestPositive(order[..|order| - 1]);
    }
  }
}
