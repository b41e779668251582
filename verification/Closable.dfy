/**
 * When Close succeeds (squashfs/writer.go:434-573): the checks scattered over its passes, as one
 * condition on the tree. Where the tree alone
 * decides which listings stay below 64 KiB, and the tables stay below 4 GiB, the condition is exact.
 */
module Closable {
  import opened Bytes
  import opened Paths
  import opened Chunking
  import opened Metadata
  import opened Directory
  import opened IdTable
  import opened WriterSpec
  import opened Closing
  import opened TreeProofs
  import opened TableProofs
  import opened ImageTheorem
  import opened ImageMain
  import RootPlace
  import TablePasses
  import Inodes

  // ---- Owners ----

  function SetOf(ids: seq<u32>): (r: set<u32>)
  {
    set id | id in ids
  }

  lemma {:induction false} SetOfDistinct(list: seq<u32>)
    requires Distinct(list)
    ensures |SetOf(list)| == |list|
    decreases |list|
  {
    if list != [] {
      var n := |list| - 1;
      SetOfDistinct(list[..n]);
      TakeNext(list, n);
      TakeAll(list);
      assert SetOf(list) == SetOf(list[..n]) + {list[n]};
    }
  }

  lemma {:induction false} SetsStep(list: seq<u32>, ids: seq<u32>)
    requires ids != []
    ensures SetOf(list + [ids[0]]) + SetOf(ids[1..]) == SetOf(list) + SetOf(ids)
    ensures ids[0] in list ==> SetOf(list) + SetOf(ids[1..]) == SetOf(list) + SetOf(ids)
  {
    assert forall id :: id in ids <==> id == ids[0] || id in ids[1..];
  }

  /** Interning succeeds if and only if the distinct IDs fit the 16-bit index. */
  lemma {:induction false} InternIff(list: seq<u32>, ids: seq<u32>)
    requires Distinct(list) && |list| <= MaxIds
    ensures InternAll(list, ids).Some? <==> |SetOf(list) + SetOf(ids)| <= MaxIds
    decreases |ids|
  {
    if ids == [] {
      SetOfDistinct(list);
      assert SetOf(list) + SetOf(ids) == SetOf(list);
    } else {
      SetsStep(list, ids);
      if Interned(list, ids[0]).Some? {
        InternIff(Interned(list, ids[0]).value, ids[1..]);
      } else {
        TableFull(list, ids);
      }
    }
  }

  lemma {:induction false} TableFull(list: seq<u32>, ids: seq<u32>)
    requires Distinct(list) && ids != [] && ids[0] !in list && |list| == MaxIds
    ensures |SetOf(list) + SetOf(ids)| > MaxIds
  {
    SetOfDistinct(list + [ids[0]]);
    SubsetSmaller(SetOf(list + [ids[0]]), SetOf(list) + SetOf(ids));
  }

  lemma {:induction false} SubsetSmaller(a: set<u32>, b: set<u32>)
    requires a <= b
    ensures |a| <= |b|
  {
    assert b == a + (b - a);
  }

  /** All owners and groups in the tree; the root contributes zero. */
  function OwnerIds(x: Ctx): (r: set<u32>)
  {
    (set p | p in InodeOwners(x) :: AttrsOf(x.entries[p].node).uid)
        + (set p | p in InodeOwners(x) :: AttrsOf(x.entries[p].node).gid)
  }

  lemma {:induction false} MetAre(x: Ctx, order: seq<Path>, id: u32)
    ensures id in IdsMet(x, order) <==>
              exists p :: p in order && p in InodeOwners(x)
                && (AttrsOf(x.entries[p].node).uid == id || AttrsOf(x.entries[p].node).gid == id)
    decreases |order|
  {
    if order != [] {
      var n := |order| - 1;
      MetAre(x, order[..n], id);
      TakeNext(order, n);
      TakeAll(order);
      assert forall p :: p in order <==> p in order[..n] || p == order[n];
    }
  }

  lemma {:induction false} IdsFitIff(x: Ctx)
    requires BaseCtx(x) && x.entries[Root].node == DirN(RootAttrs(x.cfg))
    ensures IdList(x).Some? <==> |OwnerIds(x)| <= MaxIds
  {
    var ids := IdsMet(x, x.order) + [0, 0];
    forall id: u32
      ensures id in ids <==> id in OwnerIds(x)
    {
      MetAre(x, x.order, id);
      assert Root in InodeOwners(x) && AttrsOf(x.entries[Root].node).uid == 0;
    }
    InternIff([], ids);
    assert SetOf([]) + SetOf(ids) == OwnerIds(x);
  }

  // ---- Records ----

  predicate TimeFits(time: Option<int>)
  {
    time.Some? ==> 0 <= time.value <= 0xFFFF_FFFF
  }

  /** What the encoder of each kind accepts; directories are a matter of their listings. */
  predicate Recordable(x: Ctx, p: Path)
    requires p in InodeOwners(x)
  {
    var e := x.entries[p];
    && TimeFits(if x.cfg.mtime.Some? then x.cfg.mtime else AttrsOf(e.node).mtime)
    && match e.node
       case FileN(_) => e.start <= 0xFFFF_FFFF && e.size <= 0xFFFF_FFFF
       case SymlinkN(_, target) => |target| <= 0xFFFF
       case CharN(_, major, minor) => major <= 0xFFF && minor <= 0xFF
       case BlockN(_, major, minor) => major <= 0xFFF && minor <= 0xFF
       case _ => true
  }

  ghost predicate CountsRight(x: Ctx)
    requires x.cfg.blockSize > 0
  {
    forall p | p in x.entries && x.entries[p].node.FileN? ::
      |x.entries[p].sizes| == Ceil(x.entries[p].size, x.cfg.blockSize)
  }

  function RecordSize(x: Ctx, p: Path): (n: nat)
    requires p in x.entries
  {
    var e := x.entries[p];
    32 + if e.node.FileN? then 4 * |e.sizes| else if e.node.SymlinkN? then |e.node.target| else 0
  }

  lemma {:induction false} LeafRecord(env: Env, p: Path, loc: Loc)
    requires env.x.cfg.blockSize > 0 && CountsRight(env.x) && Leaf(env.x, p)
    ensures p in InodeOwners(env.x) && (InodeOf(env, p, loc).Some? <==> Recordable(env.x, p))
    ensures InodeOf(env, p, loc).Some? ==> |Inodes.Encode(InodeOf(env, p, loc).value)| <= RecordSize(env.x, p)
  {
    if InodeOf(env, p, loc).Some? {
      RootPlace.BodyLength(InodeOf(env, p, loc).value.body);
    }
  }

  // ---- Room ----

  /** The stream holds at most `bytes` bytes. */
  predicate Holding(ch: Chunks, bytes: nat)
  {
    Full(BlockCap, ch) && |Content(ch)| <= bytes
  }

  /** A stream of that many bytes has all its blocks below 4 GiB, two bytes of header to each included. */
  predicate Roomy(bytes: nat)
  {
    bytes < 524161 * 8192
  }

  lemma {:induction false} EmitFull(c: Codec, plains: seq<Bytes>)
    requires forall i | 0 <= i < |plains| :: |plains[i]| == BlockCap
    ensures |Emit(c, plains)| <= 8194 * |plains|
    decreases |plains|
  {
    if plains != [] {
      EmitFull(c, plains[1..]);
    }
  }

  lemma {:induction false} OffsetLow(c: Codec, ch: Chunks, k: nat, bytes: nat)
    requires Holding(ch, bytes) && Roomy(bytes) && k <= |ch.done|
    ensures BlockOffset(c, ch.done, k) <= 0xFFFF_FFFF
  {
    FullLength(BlockCap, ch);
    EmitFull(c, ch.done);
    OffsetBound(c, ch.done, k);
    assert |ch.done| < 524161;
  }

  lemma {:induction false} HoldingMore(ch: Chunks, bytes: nat, p: Bytes, more: nat)
    requires Holding(ch, bytes) && |p| <= more
    ensures Holding(Append(BlockCap, ch, p), bytes + more)
  {
    AppendFacts(BlockCap, ch, p);
  }

  // ---- The first pass ----

  function LeafBytes(x: Ctx, order: seq<Path>): (n: nat)
  {
    if order == [] then 0
    else
      var p := order[|order| - 1];
      LeafBytes(x, order[..|order| - 1]) + if Leaf(x, p) then RecordSize(x, p) else 0
  }

  lemma {:induction false} LeafAdded(env: Env, p: Path, tb: Tables, bytes: nat)
    requires env.x.cfg.blockSize > 0 && CountsRight(env.x) && Leaf(env.x, p) && Recordable(env.x, p)
    requires Holding(tb.inodes, bytes)
    ensures WriteInode(env, p, tb).Some? && Holding(WriteInode(env, p, tb).value.inodes, bytes + RecordSize(env.x, p))
  {
    LeafRecord(env, p, LocOf(tb, p));
    HoldingMore(tb.inodes, bytes, Inodes.Encode(InodeOf(env, p, LocOf(tb, p)).value), RecordSize(env.x, p));
  }

  lemma {:induction false} LeavesMade(env: Env, order: seq<Path>)
    requires env.x.cfg.blockSize > 0 && CountsRight(env.x)
    requires forall i | 0 <= i < |order| && Leaf(env.x, order[i]) :: Recordable(env.x, order[i])
    ensures WriteLeaves(env, order).Some?
    ensures Holding(WriteLeaves(env, order).value.inodes, LeafBytes(env.x, order))
    decreases |order|
  {
    if order != [] {
      var n := |order| - 1;
      LeavesMade(env, order[..n]);
      if Leaf(env.x, order[n]) {
        LeafAdded(env, order[n], WriteLeaves(env, order[..n]).value, LeafBytes(env.x, order[..n]));
      }
    }
  }

  // ---- The second pass ----

  /** Names the listing format can hold, and listings the directory record can. */
  ghost predicate ShortNames(x: Ctx)
  {
    forall p | p in x.order :: |Base(p)| <= 256
  }

  ghost predicate SmallListings(x: Ctx)
  {
    forall d | d in x.entries && IsDir(x, d) :: Weight(Kids(x, d)) + 3 <= 0xFFFF
  }

  lemma {:induction false} RowMade(env: Env, tb: Tables, k: Path, bytes: nat)
    requires TablePasses.KidReady(env, tb, k) && Holding(tb.inodes, bytes) && Roomy(bytes)
    ensures EntFor(env, tb, k).Some?
  {
    OffsetLow(env.x.cfg.codec, tb.inodes, tb.refs[Owner(env.x, k)].block, bytes);
  }

  lemma {:induction false} RowsMade(env: Env, tb: Tables, ks: seq<Path>, bytes: nat)
    requires (forall k | k in ks :: TablePasses.KidReady(env, tb, k)) && Holding(tb.inodes, bytes) && Roomy(bytes)
    ensures EntsFor(env, tb, ks).Some?
    decreases |ks|
  {
    if ks != [] {
      var n := |ks| - 1;
      assert ks[n] in ks;
      RowMade(env, tb, ks[n], bytes);
      RowsMade(env, tb, ks[..n], bytes);
    }
  }

  lemma {:induction false} RowNamesOk(env: Env, tb: Tables, d: Path)
    requires GoodCtx(env.x) && ShortNames(env.x) && EntsFor(env, tb, Kids(env.x, d)).Some?
    ensures NamesOk(Rows(env, tb, d)) && |EncodeListing(Rows(env, tb, d))| <= Weight(Kids(env.x, d))
  {
    var rows, ks := Rows(env, tb, d), Kids(env.x, d);
    RowBases(env, tb, d);
    KidsAre(env.x, d);
    forall i | 0 <= i < |rows|
      ensures NameOk(rows[i])
    {
      assert ks[i] in ks;
      BaseValid(ks[i]);
    }
    ListingLength(rows);
    WeightIs(rows, ks);
  }

  lemma {:induction false} DirRecord(env: Env, d: Path, loc: Loc)
    requires env.x.cfg.blockSize > 0 && IsDir(env.x, d) && Recordable(env.x, d)
    requires loc.start <= 0xFFFF_FFFF && loc.size + 3 <= 0xFFFF
    ensures InodeOf(env, d, loc).Some? && |Inodes.Encode(InodeOf(env, d, loc).value)| <= 32
  {
    var b := Inodes.DirBody(loc.start, LinksOf(env.x, d), loc.size, loc.ref.off, ParentNumber(env, d));
    assert b.Some? && BodyOf(env, d, loc) == b;
    RootPlace.BodyLength(b.value);
  }

  lemma {:induction false} ListingMade(env: Env, d: Path, tb: Tables, ib: nat, db: nat)
    requires GoodCtx(env.x) && ShortNames(env.x) && Weight(Kids(env.x, d)) + 3 <= 0xFFFF
    requires forall k | k in Kids(env.x, d) :: TablePasses.KidReady(env, tb, k)
    requires Holding(tb.inodes, ib) && Holding(tb.dirs, db) && Roomy(ib) && Roomy(db)
    ensures EntsFor(env, tb, Kids(env.x, d)).Some? && NamesOk(Rows(env, tb, d))
    ensures
      var next := WithRows(env, d, tb);
      && next.inodes == tb.inodes && Holding(next.dirs, db + Weight(Kids(env.x, d)))
      && d in next.locs && next.locs[d].start <= 0xFFFF_FFFF && next.locs[d].size + 3 <= 0xFFFF
  {
    RowsMade(env, tb, Kids(env.x, d), ib);
    RowNamesOk(env, tb, d);
    OffsetLow(env.x.cfg.codec, tb.dirs, |tb.dirs.done|, db);
    Unwrapped(|EncodeListing(Rows(env, tb, d))|);
    HoldingMore(tb.dirs, db, EncodeListing(Rows(env, tb, d)), Weight(Kids(env.x, d)));
  }

  lemma {:induction false} Unwrapped(n: nat)
    requires n < 0x1_0000_0000
    ensures n % 0x1_0000_0000 == n
  {
  }

  lemma {:induction false} OneDirMade(env: Env, d: Path, tb: Tables, ib: nat, db: nat)
    requires env.x.cfg.blockSize > 0 && GoodCtx(env.x) && IsDir(env.x, d) && Recordable(env.x, d)
    requires ShortNames(env.x) && Weight(Kids(env.x, d)) + 3 <= 0xFFFF
    requires forall k | k in Kids(env.x, d) :: TablePasses.KidReady(env, tb, k)
    requires Holding(tb.inodes, ib) && Holding(tb.dirs, db) && Roomy(ib) && Roomy(db)
    ensures WriteOneDir(env, d, tb).Some?
    ensures Holding(WriteOneDir(env, d, tb).value.inodes, ib + 32)
    ensures Holding(WriteOneDir(env, d, tb).value.dirs, db + Weight(Kids(env.x, d)))
  {
    ListingMade(env, d, tb, ib, db);
    OneDirIs(env, d, tb);
    RecordAdded(env, d, WithRows(env, d, tb), ib);
  }

  lemma {:induction false} RecordAdded(env: Env, d: Path, tb: Tables, ib: nat)
    requires env.x.cfg.blockSize > 0 && IsDir(env.x, d) && Recordable(env.x, d) && Holding(tb.inodes, ib)
    requires d in tb.locs && tb.locs[d].start <= 0xFFFF_FFFF && tb.locs[d].size + 3 <= 0xFFFF
    ensures WriteInode(env, d, tb).Some? && WriteInode(env, d, tb).value.dirs == tb.dirs
    ensures Holding(WriteInode(env, d, tb).value.inodes, ib + 32)
  {
    DirRecord(env, d, tb.locs[d]);
    HoldingMore(tb.inodes, ib, Inodes.Encode(InodeOf(env, d, tb.locs[d]).value), 32);
  }

  /** Thirty-two bytes for every directory of a branch. */
  function DirBytes(x: Ctx, b: Branch): (n: nat)
    decreases b, 1
  {
    if IsDir(x, b.path) then 32 + DirBytesAll(x, b.kids) else 0
  }

  function DirBytesAll(x: Ctx, bs: seq<Branch>): (n: nat)
    decreases bs, 0
  {
    if bs == [] then 0 else DirBytes(x, bs[0]) + DirBytesAll(x, bs[1..])
  }

  /** Twenty bytes and the name for every entry of every directory of a branch. */
  function ListBytes(x: Ctx, b: Branch): (n: nat)
    decreases b, 1
  {
    if IsDir(x, b.path) then Weight(Kids(x, b.path)) + ListBytesAll(x, b.kids) else 0
  }

  function ListBytesAll(x: Ctx, bs: seq<Branch>): (n: nat)
    decreases bs, 0
  {
    if bs == [] then 0 else ListBytes(x, bs[0]) + ListBytesAll(x, bs[1..])
  }

  ghost predicate Setting(env: Env)
  {
    && env.x.cfg.blockSize > 0 && GoodCtx(env.x) && ShortNames(env.x) && SmallListings(env.x)
    && forall p | p in InodeOwners(env.x) :: Recordable(env.x, p)
  }

  /** Where the walk stands: all leaves are in, none of `ds` is, and the streams hold so much. */
  ghost predicate Stands(env: Env, tb: Tables, ds: set<Path>, ib: nat, db: nat)
    requires env.x.cfg.blockSize > 0
  {
    && GoodTables(tb) && Open(tb) && TablePasses.LeavesIn(env, tb) && TablePasses.Vacant(tb, ds)
    && Holding(tb.inodes, ib) && Holding(tb.dirs, db)
  }

  lemma {:induction false} OwnTurn(env: Env, b: Branch, tb: Tables, ib: nat, db: nat)
    requires Setting(env) && IsBranch(env.x, b) && IsDir(env.x, b.path)
               && Stands(env, tb, DirsCovered(env.x, b.kids), ib, db)
    requires WriteSubdirs(env, b.kids, tb).Some?
    requires
      var mid := WriteSubdirs(env, b.kids, tb).value;
      Holding(mid.inodes, ib + DirBytesAll(env.x, b.kids)) && Holding(mid.dirs, db + ListBytesAll(env.x, b.kids))
    requires Roomy(ib + DirBytes(env.x, b)) && Roomy(db + ListBytes(env.x, b))
    ensures WriteDir(env, b, tb).Some?
    ensures Holding(WriteDir(env, b, tb).value.inodes, ib + DirBytes(env.x, b))
    ensures Holding(WriteDir(env, b, tb).value.dirs, db + ListBytes(env.x, b))
  {
    var mid, m, r := WriteSubdirs(env, b.kids, tb).value, DirBytesAll(env.x, b.kids), ListBytesAll(env.x, b.kids);
    TablePasses.SubdirsReady(env, b, tb);
    assert b.path in InodeOwners(env.x);
    OneDirMade(env, b.path, mid, ib + m, db + r);
  }

  lemma {:induction false} DirMade(env: Env, b: Branch, tb: Tables, ib: nat, db: nat)
    requires Setting(env) && IsBranch(env.x, b) && IsDir(env.x, b.path)
               && Stands(env, tb, DirsUnder(env.x, b.path), ib, db)
    requires Roomy(ib + DirBytes(env.x, b)) && Roomy(db + ListBytes(env.x, b))
    ensures WriteDir(env, b, tb).Some?
    ensures Holding(WriteDir(env, b, tb).value.inodes, ib + DirBytes(env.x, b))
    ensures Holding(WriteDir(env, b, tb).value.dirs, db + ListBytes(env.x, b))
    decreases b, 1
  {
    DirsSplit(env.x, b);
    KidsPlaced(env.x, b);
    SubdirsMade(env, b, b.kids, tb, ib, db);
    OwnTurn(env, b, tb, ib, db);
  }

  /** The branches are different children of one directory. */
  ghost predicate Siblings(x: Ctx, bs: seq<Branch>, d: Path)
  {
    && (forall i | 0 <= i < |bs| :: IsBranch(x, bs[i]))
    && (forall i | 0 <= i < |bs| :: bs[i].path in x.order && Dir(bs[i].path) == d)
    && (forall i, j | 0 <= i < j < |bs| :: bs[i].path != bs[j].path)
  }

  lemma {:induction false} FirstDone(env: Env, bs: seq<Branch>, d: Path, tb: Tables, ib: nat, db: nat)
    requires env.x.cfg.blockSize > 0 && GoodCtx(env.x) && bs != [] && Siblings(env.x, bs, d) && IsDir(env.x, bs[0].path)
    requires Stands(env, tb, DirsCovered(env.x, bs), ib, db) && WriteDir(env, bs[0], tb).Some?
    requires Holding(WriteDir(env, bs[0], tb).value.inodes, ib + DirBytes(env.x, bs[0]))
    requires Holding(WriteDir(env, bs[0], tb).value.dirs, db + ListBytes(env.x, bs[0]))
    ensures Stands(env, WriteDir(env, bs[0], tb).value, DirsCovered(env.x, bs[1..]), ib + DirBytes(env.x, bs[0]),
              db + ListBytes(env.x, bs[0]))
  {
    DirsCons(env.x, bs, d);
    DirWritten(env, bs[0], tb);
    TablePasses.LeavesStay(env, tb, WriteDir(env, bs[0], tb).value);
  }

  lemma {:induction false} FirstSkipped(env: Env, bs: seq<Branch>, d: Path, tb: Tables, ib: nat, db: nat)
    requires env.x.cfg.blockSize > 0 && GoodCtx(env.x) && bs != [] && Siblings(env.x, bs, d)
    requires Stands(env, tb, DirsCovered(env.x, bs), ib, db)
    ensures Siblings(env.x, bs[1..], d) && Stands(env, tb, DirsCovered(env.x, bs[1..]), ib, db)
    ensures Stands(env, tb, DirsUnder(env.x, bs[0].path), ib, db)
  {
    DirsCons(env.x, bs, d);
  }

  lemma {:induction false} SubdirsMade(env: Env, b: Branch, bs: seq<Branch>, tb: Tables, ib: nat, db: nat)
    requires Setting(env) && Siblings(env.x, bs, b.path) && forall i | 0 <= i < |bs| :: bs[i] < b
    requires Stands(env, tb, DirsCovered(env.x, bs), ib, db)
    requires Roomy(ib + DirBytesAll(env.x, bs)) && Roomy(db + ListBytesAll(env.x, bs))
    ensures WriteSubdirs(env, bs, tb).Some?
    ensures Holding(WriteSubdirs(env, bs, tb).value.inodes, ib + DirBytesAll(env.x, bs))
    ensures Holding(WriteSubdirs(env, bs, tb).value.dirs, db + ListBytesAll(env.x, bs))
    decreases b, 0, |bs|
  {
    if bs != [] {
      var m, r := DirBytes(env.x, bs[0]), ListBytes(env.x, bs[0]);
      FirstSkipped(env, bs, b.path, tb, ib, db);
      if IsDir(env.x, bs[0].path) {
        DirMade(env, bs[0], tb, ib, db);
        FirstDone(env, bs, b.path, tb, ib, db);
        SubdirsMade(env, b, bs[1..], WriteDir(env, bs[0], tb).value, ib + m, db + r);
      } else {
        SubdirsMade(env, b, bs[1..], tb, ib, db);
      }
    }
  }

  // ---- Close ----

  /** Nothing in the tree is beyond what the basic records and the ID table can say. */
  ghost predicate Representable(x: Ctx)
  {
    && ParentsOk(x) && |OwnerIds(x)| <= MaxIds && ShortNames(x)
    && forall p | p in InodeOwners(x) :: Recordable(x, p)
  }

  /** The least a listing can take: eight bytes an entry, the names, and a header to every 256 entries. */
  function LeastBytes(ks: seq<Path>): (n: nat)
  {
    NameBytes(ks) + 12 * Ceil(|ks|, 256)
  }

  function NameBytes(ks: seq<Path>): (n: nat)
  {
    if ks == [] then 0 else NameBytes(ks[..|ks| - 1]) + 8 + |Base(ks[|ks| - 1])|
  }

  /**
   * The tree alone tells of every listing whether it stays below 64 KiB or surely exceeds it, and
   * none can wrap its count; if they all stay below, both tables stay below 4 GiB.
   */
  ghost predicate Decided(x: Ctx)
    requires GoodCtx(x)
  {
    && (forall d | d in x.entries && IsDir(x, d) ::
          Weight(Kids(x, d)) + 3 <= 0xFFFF || SurelyLong(Kids(x, d)))
    && (SmallListings(x) ==>
          Roomy(ListBytes(x, TheRoot(x))) && Roomy(LeafBytes(x, x.order) + DirBytes(x, TheRoot(x))))
  }

  predicate SurelyLong(ks: seq<Path>)
  {
    LeastBytes(ks) + 3 > 0xFFFF && Weight(ks) + 3 < 0x1_0000_0000
  }

  lemma {:induction false} CeilStep(n: nat, r: nat)
    requires 0 < r <= n && r <= 256
    ensures Ceil(n, 256) <= 1 + Ceil(n - r, 256)
  {
  }

  lemma {:induction false} AtLeastStep(n: nat, size: nat, names: nat, tail: nat)
    requires 0 < n <= size && n <= 256 && tail >= 8 * (size - n) + 12 * Ceil(size - n, 256)
    ensures names + 12 + 8 * n + tail >= names + 8 * size + 12 * Ceil(size, 256)
  {
    CeilStep(size, n);
  }

  lemma {:induction false} ListingAtLeast(es: seq<DirEnt>)
    requires NamesOk(es)
    ensures |EncodeListing(es)| >= NamesLength(es) + 8 * |es| + 12 * Ceil(|es|, 256)
    decreases |es|
  {
    if es != [] {
      var n := Run(es);
      EntsLength(es[..n], es[0].inode);
      ListingAtLeast(es[n..]);
      SplitAt(es, n);
      NamesLengthConcat(es[..n], es[n..]);
      AtLeastStep(n, |es|, NamesLength(es[..n]), |EncodeListing(es[n..])| - NamesLength(es[n..]));
    }
  }

  lemma {:induction false} NameBytesAre(es: seq<DirEnt>, ks: seq<Path>)
    requires |es| == |ks| && forall i | 0 <= i < |ks| :: es[i].name == Base(ks[i])
    ensures NamesLength(es) + 8 * |es| == NameBytes(ks)
    decreases |es|
  {
    if es != [] {
      var n := |es| - 1;
      NameBytesAre(es[..n], ks[..n]);
      SplitAt(es, n);
      NamesLengthConcat(es[..n], es[n..]);
      assert es[n..] == [es[n]];
      assert [es[n]][1..] == [];
    }
  }

  /** The length of a listing, between what the tree says at least and at most. */
  lemma {:induction false} ListingBetween(env: Env, tb: Tables, d: Path)
    requires GoodCtx(env.x) && ListedAt(env, tb, d)
    ensures LeastBytes(Kids(env.x, d)) <= |EncodeListing(Rows(env, tb, d))| <= Weight(Kids(env.x, d))
  {
    var rows, ks := Rows(env, tb, d), Kids(env.x, d);
    RowBases(env, tb, d);
    ListingAtLeast(rows);
    NameBytesAre(rows, ks);
    ListingLength(rows);
    WeightIs(rows, ks);
  }

  /** The 32-bit count of a listing of `n` bytes, three added, passes for a 16-bit size. */
  predicate CountPasses(n: nat)
  {
    (n % 0x1_0000_0000 + 3) % 0x1_0000_0000 <= 0xFFFF
  }

  lemma {:induction false} RecordedCount(env: Env, tb: Tables, d: Path)
    requires env.x.cfg.blockSize > 0 && IsDir(env.x, d) && Written(env, tb, d) && ListedAt(env, tb, d)
    ensures CountPasses(|EncodeListing(Rows(env, tb, d))|)
  {
    assert BodyOf(env, d, LocOf(tb, d)).Some?;
  }

  lemma {:induction false} TablesMade(env: Env, root: Branch)
    requires Setting(env) && CountsRight(env.x) && IsBranch(env.x, root) && root.path == Root
    requires Roomy(ListBytes(env.x, root)) && Roomy(LeafBytes(env.x, env.x.order) + DirBytes(env.x, root))
    ensures TablesOf(env, root).Some?
  {
    var order := env.x.order;
    forall i | 0 <= i < |order| && Leaf(env.x, order[i])
      ensures Recordable(env.x, order[i])
    {
      assert order[i] in InodeOwners(env.x);
    }
    LeavesMade(env, order);
    LeavesWritten(env, order);
    var tb := WriteLeaves(env, order).value;
    LeavesAllIn(env, tb);
    DirMade(env, root, tb, LeafBytes(env.x, order), 0);
  }

  lemma {:induction false} LeavesAllIn(env: Env, tb: Tables)
    requires env.x.cfg.blockSize > 0 && GoodCtx(env.x) && tb.refs.Keys == Leaves(env.x, env.x.order) && tb.locs == map[]
    requires forall p | p in Leaves(env.x, env.x.order) :: Written(env, tb, p)
    ensures TablePasses.LeavesIn(env, tb) && TablePasses.Vacant(tb, DirsUnder(env.x, Root))
  {
    forall p | Leaf(env.x, p)
      ensures Written(env, tb, p)
    {
      assert p in Leaves(env.x, env.x.order);
    }
  }

  lemma {:induction false} FinalCounts(cfg: Config, ops: seq<Op>)
    requires GoodConfig(cfg)
    ensures CountsRight(Rooted(cfg, Final(cfg, ops)))
  {
    var s, t := Final(cfg, ops), TreeRun(ops).(cur := None);
    var x := Rooted(cfg, s);
    FinalInv(cfg, ops);
    forall p | p in x.entries && x.entries[p].node.FileN?
      ensures |x.entries[p].sizes| == Ceil(x.entries[p].size, cfg.blockSize)
    {
      FileOfTree(cfg, s, t, p);
      FileFits(cfg.codec, cfg.blockSize, s.out, x.entries[p], t.contents[p]);
    }
  }

  /** Whatever the size, Close needs all of this. */
  lemma {:induction false} CloseNeeds(cfg: Config, ops: seq<Op>)
    requires GoodConfig(cfg) && Closes(cfg, Final(cfg, ops))
    ensures Representable(Rooted(cfg, Final(cfg, ops)))
    ensures
      var env, tb := TheEnv(cfg, Final(cfg, ops)), TheTables(cfg, Final(cfg, ops));
      forall d | d in env.x.entries && IsDir(env.x, d) ::
        ListedAt(env, tb, d) && CountPasses(|EncodeListing(Rows(env, tb, d))|)
  {
    var s := Final(cfg, ops);
    var x, env, tb := Rooted(cfg, s), TheEnv(cfg, s), TheTables(cfg, s);
    FinalBase(cfg, ops);
    FinalCounts(cfg, ops);
    IdsFitIff(x);
    SceneTables(cfg, s, map[]);
    assert TheScene(cfg, s, map[]).env == env && TheScene(cfg, s, map[]).tb == tb && env.x == x;
    forall p | p in InodeOwners(x)
      ensures Recordable(x, p)
    {
      assert Written(env, tb, p);
      if Leaf(x, p) {
        LeafRecord(env, p, LocOf(tb, p));
      }
    }
    forall p | p in x.order
      ensures |Base(p)| <= 256
    {
      NameWasOk(env, tb, p);
    }
    forall d | d in x.entries && IsDir(x, d)
      ensures ListedAt(env, tb, d) && CountPasses(|EncodeListing(Rows(env, tb, d))|)
    {
      RecordedCount(env, tb, d);
    }
  }

  /** A directory whose listing surely exceeds 64 KiB makes Close fail. */
  lemma {:induction false} LargeDirFails(cfg: Config, ops: seq<Op>, d: Path)
    requires GoodConfig(cfg) && IsDir(Rooted(cfg, Final(cfg, ops)), d)
    requires SurelyLong(Kids(Rooted(cfg, Final(cfg, ops)), d))
    ensures !Closes(cfg, Final(cfg, ops))
  {
    if Closes(cfg, Final(cfg, ops)) {
      var env, tb := TheEnv(cfg, Final(cfg, ops)), TheTables(cfg, Final(cfg, ops));
      CloseNeeds(cfg, ops);
      ListingBetween(env, tb, d);
      LongCount(|EncodeListing(Rows(env, tb, d))|);
    }
  }

  lemma {:induction false} LongCount(n: nat)
    requires 0xFFFF < n + 3 < 0x1_0000_0000
    ensures !CountPasses(n)
  {
  }

  lemma {:induction false} NameWasOk(env: Env, tb: Tables, p: Path)
    requires GoodCtx(env.x) && p in env.x.order
    requires forall d | d in env.x.entries && IsDir(env.x, d) :: ListedAt(env, tb, d)
    ensures |Base(p)| <= 256
  {
    var i :| 0 <= i < |env.x.order| && env.x.order[i] == p;
    assert IsDir(env.x, Dir(env.x.order[i]));
    assert ListedAt(env, tb, Dir(p));
    RowBases(env, tb, Dir(p));
    KidsAre(env.x, Dir(p));
    var j :| 0 <= j < |Kids(env.x, Dir(p))| && Kids(env.x, Dir(p))[j] == p;
    assert NameOk(Rows(env, tb, Dir(p))[j]);
  }

  lemma {:induction false} CloseWorks(cfg: Config, ops: seq<Op>)
    requires GoodConfig(cfg) && GoodCtx(Rooted(cfg, Final(cfg, ops)))
    requires Representable(Rooted(cfg, Final(cfg, ops))) && Decided(Rooted(cfg, Final(cfg, ops)))
    requires SmallListings(Rooted(cfg, Final(cfg, ops)))
    ensures Closes(cfg, Final(cfg, ops))
  {
    var s := Final(cfg, ops);
    var x := Rooted(cfg, s);
    FinalBase(cfg, ops);
    FinalCounts(cfg, ops);
    IdsFitIff(x);
    RootShort(x);
    GrowIsBranch(x, Root);
    var root := Grow(x, Root);
    var env := Env(x, Preorder(x, root), IdList(x).value);
    TablesMade(env, root);
    RootPlace.RootLow(env, root);
  }

  /**
   * Wherever the tree decides it, Close succeeds if and only if every parent is a directory, at most
   * 65535 owners occur, every name has at most 256 bytes, every entry fits its record, and every
   * listing stays below 64 KiB.
   */
  lemma {:induction false} ClosesIff(cfg: Config, ops: seq<Op>)
    requires GoodConfig(cfg)
    requires GoodCtx(Rooted(cfg, Final(cfg, ops))) ==> Decided(Rooted(cfg, Final(cfg, ops)))
    ensures Closes(cfg, Final(cfg, ops)) <==>
              Representable(Rooted(cfg, Final(cfg, ops))) && SmallListings(Rooted(cfg, Final(cfg, ops)))
  {
    var x := Rooted(cfg, Final(cfg, ops));
    FinalBase(cfg, ops);
    if Closes(cfg, Final(cfg, ops)) {
      CloseNeeds(cfg, ops);
      forall d | d in x.entries && IsDir(x, d)
        ensures Weight(Kids(x, d)) + 3 <= 0xFFFF
      {
        if SurelyLong(Kids(x, d)) {
          LargeDirFails(cfg, ops, d);
        }
      }
    }
    if Representable(x) && SmallListings(x) {
      CloseWorks(cfg, ops);
    }
  }
}
