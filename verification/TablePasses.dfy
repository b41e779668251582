/**
 * The passes of Close that fill the inode and directory tables (squashfs/writer.go:715-822), over
 * the two metadata streams; they leave in them what the Closing module says.
 */
module TablePasses {
  import opened Bytes
  import opened Paths
  import opened Sorting
  import opened Chunking
  import opened Metadata
  import opened Directory
  import opened WriterSpec
  import opened Closing
  import opened TreeProofs
  import opened TableProofs
  import opened ClosePasses
  import opened InodeEncoders
  import Inodes

  /** The fields of one entry, as the earlier passes left them. A file's link count is free. */
  predicate Ready(env: Env, num: map<Path, nat>, par: map<Path, nat>, links: map<Path, nat>,
                  u: map<Path, nat>, g: map<Path, nat>, p: Path)
    requires p in InodeOwners(env.x)
  {
    var node := env.x.entries[p].node;
    && p in num && num[p] == NumberOf(env, p)
    && p in par && par[p] == ParentNumber(env, p)
    && (!node.FileN? ==> p in links && links[p] == LinksOf(env.x, p))
    && p in u && u[p] == IdIndex(env, AttrsOf(node).uid)
    && p in g && g[p] == IdIndex(env, AttrsOf(node).gid)
  }

  ghost predicate Settled(t: EntryTable, env: Env)
    reads t`children, t`inodeNumber, t`parentInode, t`nlinks, t`uidIdx, t`gidIdx
  {
    && t.x == env.x && env.x.cfg.blockSize > 0 && t.TreeBuilt()
    && forall p | p in InodeOwners(env.x) :: Ready(env, t.inodeNumber, t.parentInode, t.nlinks, t.uidIdx, t.gidIdx, p)
  }

  /** The streams and the recorded places are those of `tb`. */
  ghost predicate Shows(t: EntryTable, im: MetaWriter, dm: MetaWriter, env: Env, tb: Tables)
    reads t`inodeRef, t`dirLoc, im, dm
  {
    && im != dm && im.Valid() && dm.Valid()
    && im.comp == env.x.cfg.codec && dm.comp == env.x.cfg.codec
    && im.Stream() == tb.inodes && dm.Stream() == tb.dirs
    && Kept(tb.refs, t.inodeRef) && t.dirLoc == tb.locs
  }

  // ---- writeOneInode ----

  function Encoded(i: Option<Inodes.Inode>): Option<Bytes>
  {
    match i
    case None => None
    case Some(v) => Some(Inodes.Encode(v))
  }

  lemma {:induction false} HeadIs(env: Env, p: Path, loc: Loc, h: Common)
    requires env.x.cfg.blockSize > 0 && p in InodeOwners(env.x)
    requires
      var a := AttrsOf(env.x.entries[p].node);
      Mtime(env.x.cfg, a) == Some(h.mtime) && h.perm == a.mode % 4096 && h.number == NumberOf(env, p)
      && h.uidIdx == IdIndex(env, a.uid) && h.gidIdx == IdIndex(env, a.gid)
    ensures Encoded(InodeOf(env, p, loc)) == WithHead(h, BodyOf(env, p, loc))
  {
  }

  /** The dispatch to the encoder of each kind. */
  method EncodeBody(e: Entry, h: Common, loc: Loc, links: nat, parent: nat, blockSize: nat) returns (r: Option<Bytes>)
    requires blockSize > 0 && !e.node.HardlinkN?
    ensures r == WithHead(h, BodyFrom(e, blockSize, loc, links, parent))
  {
    match e.node {
      case FileN(_) => r := EncodeBasicFile(h, e.start, e.size, e.sizes, blockSize);
      case DirN(_) => r := EncodeBasicDir(h, loc.start, links, loc.size, loc.ref.off, parent);
      case _ => r := EncodeSmall(e, h, loc, links, parent, blockSize);
    }
  }

  method EncodeSmall(e: Entry, h: Common, ghost loc: Loc, links: nat, ghost parent: nat, ghost blockSize: nat)
                     returns (r: Option<Bytes>)
    requires blockSize > 0 && !e.node.HardlinkN? && !e.node.FileN? && !e.node.DirN?
    ensures r == WithHead(h, BodyFrom(e, blockSize, loc, links, parent))
  {
    if e.node.SymlinkN? {
      r := EncodeBasicSymlink(h, links, e.node.target);
    } else if e.node.CharN? || e.node.BlockN? {
      var block := e.node.BlockN?;
      r := EncodeBasicDevice(h, links, e.node.major, e.node.minor, block);
    } else {
      var socket := e.node.SocketN?;
      var b := EncodeBasicIPC(h, links, socket);
      r := Some(b);
    }
  }

  /** A file's record does not hold its link count. */
  lemma {:induction false} FileLinksFree(e: Entry, blockSize: nat, loc: Loc, a: nat, b: nat, parent: nat)
    requires blockSize > 0 && (e.node.FileN? || a == b)
    ensures BodyFrom(e, blockSize, loc, a, parent) == BodyFrom(e, blockSize, loc, b, parent)
  {
  }

  method EncodeInode(t: EntryTable, p: Path, loc: Loc, ghost env: Env) returns (r: Option<Bytes>)
    requires Settled(t, env) && p in env.x.entries
    ensures r == Encoded(InodeOf(env, p, loc))
  {
    var node := t.x.entries[p].node;
    if node.HardlinkN? {
      return None;
    }
    var mtime := Mtime(t.x.cfg, node.attrs);
    if mtime.None? {
      return None;
    }
    assert p in InodeOwners(env.x);
    var h := Common(node.attrs.mode % 4096, t.uidIdx[p], t.gidIdx[p], mtime.value, t.inodeNumber[p]);
    HeadIs(env, p, loc, h);
    var links := if p in t.nlinks then t.nlinks[p] else 0;
    FileLinksFree(t.x.entries[p], t.x.cfg.blockSize, loc, links, LinksOf(env.x, p), t.parentInode[p]);
    r := EncodeBody(t.x.entries[p], h, loc, links, t.parentInode[p], t.x.cfg.blockSize);
  }

  method WriteOneInode(t: EntryTable, im: MetaWriter, ghost dm: MetaWriter, p: Path, ghost env: Env, ghost tb: Tables)
    returns (ok: bool)
    requires Settled(t, env) && Shows(t, im, dm, env, tb) && p in env.x.entries
    modifies t`inodeRef, im
    ensures ok <==> WriteInode(env, p, tb).Some?
    ensures ok ==> Shows(t, im, dm, env, WriteInode(env, p, tb).value)
    ensures ok ==> t.inodeRef == old(t.inodeRef)[p := Here(tb.inodes)]
    ensures !ok ==> Shows(t, im, dm, env, tb) && t.inodeRef == old(t.inodeRef)
  {
    var loc := if p in t.dirLoc then t.dirLoc[p] else NoLoc;
    var body := EncodeInode(t, p, loc, env);
    if body.None? {
      return false;
    }
    t.inodeRef := t.inodeRef[p := im.Ref()];
    im.Write(body.value);
    ok := true;
  }

  // ---- writeLeafInodes ----

  lemma {:induction false} LeavesFail(env: Env, order: seq<Path>, i: nat)
    requires env.x.cfg.blockSize > 0 && i <= |order| && WriteLeaves(env, order[..i]).None?
    ensures WriteLeaves(env, order).None?
    decreases |order| - i
  {
    if i == |order| {
      TakeAll(order);
    } else {
      assert order[..i + 1][..i] == order[..i];
      LeavesFail(env, order, i + 1);
    }
  }

  /** One turn of the loop. */
  method WriteLeaf(t: EntryTable, im: MetaWriter, ghost dm: MetaWriter, p: Path, ghost i: nat, ghost env: Env,
                   ghost tb: Tables)
    returns (ok: bool)
    requires Settled(t, env) && i < |env.x.order| && p == env.x.order[i] && p in env.x.entries
    requires Shows(t, im, dm, env, tb) && WriteLeaves(env, env.x.order[..i]) == Some(tb)
    modifies t`inodeRef, im
    ensures ok <==> WriteLeaves(env, env.x.order[..i + 1]).Some?
    ensures ok ==> Shows(t, im, dm, env, WriteLeaves(env, env.x.order[..i + 1]).value)
  {
    assert env.x.order[..i + 1][..i] == env.x.order[..i];
    if t.x.entries[p].node.DirN? || t.x.entries[p].node.HardlinkN? {
      return true;
    }
    ok := WriteOneInode(t, im, dm, p, env, tb);
  }

  method WriteLeafInodes(t: EntryTable, im: MetaWriter, ghost dm: MetaWriter, ghost env: Env) returns (ok: bool)
    requires Settled(t, env) && BaseCtx(env.x) && Shows(t, im, dm, env, NoTables)
    modifies t`inodeRef, im
    ensures ok <==> WriteLeaves(env, env.x.order).Some?
    ensures ok ==> Shows(t, im, dm, env, WriteLeaves(env, env.x.order).value)
  {
    var i := 0;
    while i < |t.x.order|
      invariant 0 <= i <= |t.x.order|
      invariant Settled(t, env)
      invariant WriteLeaves(env, env.x.order[..i]).Some?
      invariant Shows(t, im, dm, env, WriteLeaves(env, env.x.order[..i]).value)
    {
      ok := WriteLeaf(t, im, dm, t.x.order[i], i, env, WriteLeaves(env, env.x.order[..i]).value);
      i := i + 1;
      if !ok {
        LeavesFail(env, env.x.order, i);
        return;
      }
    }
    TakeAll(env.x.order);
    ok := true;
  }

  // ---- Hard links ----

  predicate IsLink(x: Ctx, h: Path)
  {
    h in x.entries && x.entries[h].node.HardlinkN?
  }

  /** A hard link carries its target's number and place. */
  predicate Linked(env: Env, num: map<Path, nat>, refs: map<Path, MetaRef>, tb: Tables, h: Path)
    requires IsLink(env.x, h)
  {
    var target := env.x.entries[h].node.link;
    && target in tb.refs && h in refs && refs[h] == tb.refs[target]
    && h in num && num[h] == NumberOf(env, target)
  }

  ghost predicate AllLinked(env: Env, num: map<Path, nat>, refs: map<Path, MetaRef>, tb: Tables)
  {
    forall h | IsLink(env.x, h) :: Linked(env, num, refs, tb, h)
  }

  lemma {:induction false} LinkedStep(env: Env, tb: Tables, num: map<Path, nat>, refs: map<Path, MetaRef>,
                                      done: seq<Path>, h: Path)
    requires IsLink(env.x, h) && env.x.entries[h].node.link in tb.refs
    requires forall k | k in done && IsLink(env.x, k) :: Linked(env, num, refs, tb, k)
    ensures
      var target := env.x.entries[h].node.link;
      forall k | k in done + [h] && IsLink(env.x, k) ::
        Linked(env, num[h := NumberOf(env, target)], refs[h := tb.refs[target]], tb, k)
  {
  }

  ghost predicate LinkedUpTo(env: Env, num: map<Path, nat>, refs: map<Path, MetaRef>, tb: Tables, i: nat)
    requires i <= |env.x.order|
  {
    forall h | h in env.x.order[..i] && IsLink(env.x, h) :: Linked(env, num, refs, tb, h)
  }

  /** One turn of the loop: a hard link takes over its target's coordinates. */
  method ResolveOne(t: EntryTable, ghost im: MetaWriter, ghost dm: MetaWriter, h: Path, ghost i: nat, ghost env: Env,
                    ghost tb: Tables)
    requires Settled(t, env) && Shows(t, im, dm, env, tb) && i < |env.x.order| && h == env.x.order[i]
               && h in env.x.entries
    requires LinkedUpTo(env, t.inodeNumber, t.inodeRef, tb, i)
    requires IsLink(env.x, h) ==>
               && h !in tb.refs && env.x.entries[h].node.link in tb.refs
               && env.x.entries[h].node.link in InodeOwners(env.x)
    modifies t`inodeRef, t`inodeNumber
    ensures Settled(t, env) && Shows(t, im, dm, env, tb)
    ensures LinkedUpTo(env, t.inodeNumber, t.inodeRef, tb, i + 1)
  {
    TakeNext(env.x.order, i);
    if t.x.entries[h].node.HardlinkN? {
      var target := t.x.entries[h].node.link;
      LinkedStep(env, tb, t.inodeNumber, t.inodeRef, env.x.order[..i], h);
      t.inodeRef := t.inodeRef[h := t.inodeRef[target]];
      t.inodeNumber := t.inodeNumber[h := t.inodeNumber[target]];
    }
  }

  lemma {:induction false} LinksResolvable(env: Env, tb: Tables, h: Path)
    requires BaseCtx(env.x) && h in env.x.order
    requires forall p | Leaf(env.x, p) :: p in tb.refs
    requires forall k | IsLink(env.x, k) :: k !in tb.refs
    ensures h in env.x.entries
    ensures IsLink(env.x, h) ==>
              && h !in tb.refs && env.x.entries[h].node.link in tb.refs
              && env.x.entries[h].node.link in InodeOwners(env.x)
  {
    if IsLink(env.x, h) {
      assert Leaf(env.x, env.x.entries[h].node.link);
    }
  }

  lemma {:induction false} AllAreLinked(env: Env, num: map<Path, nat>, refs: map<Path, MetaRef>, tb: Tables)
    requires BaseCtx(env.x) && LinkedUpTo(env, num, refs, tb, |env.x.order|)
    ensures AllLinked(env, num, refs, tb)
  {
    TakeAll(env.x.order);
  }

  method ResolveHardlinks(t: EntryTable, ghost im: MetaWriter, ghost dm: MetaWriter, ghost env: Env, ghost tb: Tables)
    requires Settled(t, env) && BaseCtx(env.x) && Shows(t, im, dm, env, tb)
    requires forall p | Leaf(env.x, p) :: p in tb.refs
    requires forall h | IsLink(env.x, h) :: h !in tb.refs
    modifies t`inodeRef, t`inodeNumber
    ensures Settled(t, env) && Shows(t, im, dm, env, tb)
    ensures AllLinked(env, t.inodeNumber, t.inodeRef, tb)
  {
    var i := 0;
    while i < |t.x.order|
      invariant 0 <= i <= |t.x.order|
      invariant Settled(t, env) && Shows(t, im, dm, env, tb)
      invariant LinkedUpTo(env, t.inodeNumber, t.inodeRef, tb, i)
    {
      var h := t.x.order[i];
      LinksResolvable(env, tb, h);
      ResolveOne(t, im, dm, h, i, env, tb);
      i := i + 1;
    }
    AllAreLinked(env, t.inodeNumber, t.inodeRef, tb);
  }

  // ---- writeDirs ----

  ghost predicate Standing(t: EntryTable, im: MetaWriter, dm: MetaWriter, env: Env, tb: Tables)
    reads t, im, dm
  {
    && Settled(t, env) && GoodCtx(env.x) && Shows(t, im, dm, env, tb)
    && AllLinked(env, t.inodeNumber, t.inodeRef, tb)
  }

  /** The inode a child's row must point at is already in the table. */
  predicate KidReady(env: Env, tb: Tables, k: Path)
  {
    && k in env.x.entries && Owner(env.x, k) in InodeOwners(env.x) && Owner(env.x, k) in tb.refs
    && tb.refs[Owner(env.x, k)].block <= |tb.inodes.done|
  }

  /** basicTypeFor: a hard link shows its target's type. */
  function BasicTypeFor(x: Ctx, k: Path): (r: nat)
    requires k in x.entries && Owner(x, k) in x.entries
  {
    TypeFor(x.entries[Owner(x, k)].node)
  }

  method EntOf(t: EntryTable, im: MetaWriter, ghost dm: MetaWriter, k: Path, ghost env: Env, ghost tb: Tables)
    returns (r: Option<DirEnt>)
    requires Standing(t, im, dm, env, tb) && KidReady(env, tb, k)
    ensures r == EntFor(env, tb, k)
  {
    var node := t.x.entries[k].node;
    assert IsLink(env.x, k) ==> Linked(env, t.inodeNumber, t.inodeRef, tb, k);
    var block := 0;
    if node.HardlinkN? {
      block := im.BlockByteOffset(t.inodeRef[node.link].block);
    } else {
      block := im.BlockByteOffset(t.inodeRef[k].block);
    }
    if block > 0xFFFF_FFFF {
      return None;
    }
    r := Some(DirEnt(Base(k), t.inodeNumber[k], block, t.inodeRef[k].off, BasicTypeFor(t.x, k)));
  }

  lemma {:induction false} EntsNext(env: Env, tb: Tables, ks: seq<Path>, i: nat, es: seq<DirEnt>)
    requires i < |ks| && EntsFor(env, tb, ks[..i]) == Some(es)
    ensures EntsFor(env, tb, ks[..i + 1]) ==
              if EntFor(env, tb, ks[i]).Some? then Some(es + [EntFor(env, tb, ks[i]).value]) else None
  {
    assert ks[..i + 1][..i] == ks[..i];
  }

  lemma {:induction false} EntsFail(env: Env, tb: Tables, ks: seq<Path>, i: nat)
    requires i <= |ks| && EntsFor(env, tb, ks[..i]).None?
    ensures EntsFor(env, tb, ks).None?
    decreases |ks| - i
  {
    if i == |ks| {
      TakeAll(ks);
    } else {
      assert ks[..i + 1][..i] == ks[..i];
      EntsFail(env, tb, ks, i + 1);
    }
  }

  method BuildEnts(t: EntryTable, im: MetaWriter, ghost dm: MetaWriter, ks: seq<Path>, ghost env: Env, ghost tb: Tables)
    returns (ok: bool, es: seq<DirEnt>)
    requires Standing(t, im, dm, env, tb) && forall k | k in ks :: KidReady(env, tb, k)
    ensures ok <==> EntsFor(env, tb, ks).Some?
    ensures ok ==> es == EntsFor(env, tb, ks).value
  {
    es := [];
    var i := 0;
    while i < |ks|
      invariant 0 <= i <= |ks|
      invariant EntsFor(env, tb, ks[..i]) == Some(es)
    {
      EntsNext(env, tb, ks, i, es);
      var e := EntOf(t, im, dm, ks[i], env, tb);
      i := i + 1;
      if e.None? {
        EntsFail(env, tb, ks, i);
        return false, [];
      }
      es := es + [e.value];
    }
    TakeAll(ks);
    ok := true;
  }

  /** The tables once the listing is in place and before the directory's own inode is. */
  function WithListing(env: Env, d: Path, tb: Tables, es: seq<DirEnt>): (r: Tables)
    requires Open(tb) && NamesOk(Sort(es, NameOf))
  {
    var listing := EncodeListing(Sort(es, NameOf));
    var ref := Here(tb.dirs);
    var loc := Loc(ref, BlockOffset(env.x.cfg.codec, tb.dirs.done, ref.block), |listing| % 0x1_0000_0000);
    tb.(dirs := Append(BlockCap, tb.dirs, listing), locs := tb.locs[d := loc])
  }

  lemma {:induction false} OneDirIs(env: Env, d: Path, tb: Tables, es: seq<DirEnt>)
    requires env.x.cfg.blockSize > 0 && Open(tb) && EntsFor(env, tb, Kids(env.x, d)) == Some(es)
    ensures WriteOneDir(env, d, tb) ==
              if NamesOk(Sort(es, NameOf)) then WriteInode(env, d, WithListing(env, d, tb, es)) else None
  {
  }

  lemma {:induction false} StartKept(c: Codec, dirs: Chunks, listing: Bytes)
    requires Wf(BlockCap, dirs)
    ensures Here(dirs).block <= |Append(BlockCap, dirs, listing).done|
    ensures BlockOffset(c, Append(BlockCap, dirs, listing).done, Here(dirs).block)
              == BlockOffset(c, dirs.done, Here(dirs).block)
  {
    AppendFacts(BlockCap, dirs, listing);
    OffsetStable(c, dirs, Append(BlockCap, dirs, listing), Here(dirs).block);
  }

  method WriteListing(t: EntryTable, ghost im: MetaWriter, dm: MetaWriter, d: Path, es: seq<DirEnt>, ghost env: Env,
                      ghost tb: Tables)
    returns (ok: bool)
    requires Shows(t, im, dm, env, tb)
    modifies t`dirLoc, dm
    ensures ok <==> NamesOk(Sort(es, NameOf))
    ensures ok ==> Shows(t, im, dm, env, WithListing(env, d, tb, es))
  {
    var r := WriteDirListing(dm, es);
    if r.BadName? {
      return false;
    }
    StartKept(env.x.cfg.codec, tb.dirs, EncodeListing(Sort(es, NameOf)));
    var start := dm.BlockByteOffset(r.start.block);
    t.dirLoc := t.dirLoc[d := Loc(r.start, start, r.listingBytes)];
    ok := true;
  }

  lemma {:induction false} LinksKept(env: Env, tb: Tables, num: map<Path, nat>, refs: map<Path, MetaRef>, d: Path,
                                     r: MetaRef)
    requires BaseCtx(env.x) && IsDir(env.x, d) && AllLinked(env, num, refs, tb)
    ensures AllLinked(env, num, refs[d := r], tb.(refs := tb.refs[d := r]))
  {
  }

  lemma {:induction false} LinkedSame(env: Env, tb: Tables, tb': Tables, num: map<Path, nat>, refs: map<Path, MetaRef>)
    requires AllLinked(env, num, refs, tb) && tb'.refs == tb.refs
    ensures AllLinked(env, num, refs, tb')
  {
  }

  method WriteDirInode(t: EntryTable, im: MetaWriter, ghost dm: MetaWriter, d: Path, ghost env: Env,
                       ghost tb: Tables) returns (ok: bool)
    requires Standing(t, im, dm, env, tb) && IsDir(env.x, d)
    modifies t`inodeRef, im
    ensures ok <==> WriteInode(env, d, tb).Some?
    ensures ok ==> Standing(t, im, dm, env, WriteInode(env, d, tb).value)
  {
    LinksKept(env, tb, t.inodeNumber, t.inodeRef, d, Here(tb.inodes));
    ok := WriteOneInode(t, im, dm, d, env, tb);
    if ok {
      LinkedSame(env, tb.(refs := tb.refs[d := Here(tb.inodes)]), WriteInode(env, d, tb).value, t.inodeNumber,
          t.inodeRef);
    }
  }

  /** A directory's own turn, its subdirectories being done. */
  method WriteDirHere(t: EntryTable, im: MetaWriter, dm: MetaWriter, d: Path, ghost env: Env, ghost tb: Tables)
                      returns (ok: bool)
    requires Standing(t, im, dm, env, tb) && IsDir(env.x, d) && forall k | k in Kids(env.x, d) :: KidReady(env, tb, k)
    modifies t`inodeRef, t`dirLoc, im, dm
    ensures ok <==> WriteOneDir(env, d, tb).Some?
    ensures ok ==> Standing(t, im, dm, env, WriteOneDir(env, d, tb).value)
  {
    var ks := t.children[d];
    var es;
    ok, es := BuildEnts(t, im, dm, ks, env, tb);
    if !ok {
      return;
    }
    OneDirIs(env, d, tb, es);
    ok := WriteListing(t, im, dm, d, es, env, tb);
    if !ok {
      return;
    }
    LinkedSame(env, tb, WithListing(env, d, tb, es), t.inodeNumber, t.inodeRef);
    ok := WriteDirInode(t, im, dm, d, env, WithListing(env, d, tb, es));
  }

  // ---- The walk ----

  predicate Vacant(tb: Tables, ds: set<Path>)
  {
    ds !! tb.refs.Keys && ds !! tb.locs.Keys
  }

  ghost predicate LeavesIn(env: Env, tb: Tables)
    requires env.x.cfg.blockSize > 0
  {
    forall p | Leaf(env.x, p) :: Written(env, tb, p)
  }

  lemma {:induction false} LeavesStay(env: Env, a: Tables, b: Tables)
    requires env.x.cfg.blockSize > 0 && LeavesIn(env, a) && Grows(a, b)
    ensures LeavesIn(env, b)
  {
    forall p | Leaf(env.x, p)
      ensures Written(env, b, p)
    {
      WrittenStable(env, a, b, p);
    }
  }

  lemma {:induction false} KidsReady(env: Env, b: Branch, tb: Tables)
    requires env.x.cfg.blockSize > 0 && GoodCtx(env.x) && IsBranch(env.x, b) && IsDir(env.x, b.path)
    requires LeavesIn(env, tb) && forall d | d in DirsCovered(env.x, b.kids) :: Written(env, tb, d)
    ensures forall k | k in Kids(env.x, b.path) :: KidReady(env, tb, k)
  {
    KidsPlaced(env.x, b);
    forall k | k in Kids(env.x, b.path)
      ensures KidReady(env, tb, k)
    {
      OneKidReady(env, b, tb, k);
    }
  }

  lemma {:induction false} OneKidReady(env: Env, b: Branch, tb: Tables, k: Path)
    requires env.x.cfg.blockSize > 0 && GoodCtx(env.x) && IsBranch(env.x, b) && IsDir(env.x, b.path)
    requires LeavesIn(env, tb) && forall d | d in DirsCovered(env.x, b.kids) :: Written(env, tb, d)
    requires k in Kids(env.x, b.path)
    ensures KidReady(env, tb, k)
  {
    KidsAre(env.x, b.path);
    if IsDir(env.x, k) {
      KidsPlaced(env.x, b);
      var i :| 0 <= i < |Kids(env.x, b.path)| && Kids(env.x, b.path)[i] == k;
      assert Under(b.kids[i].path, k);
      assert Covered(b.kids, k);
      assert k in DirsCovered(env.x, b.kids);
    } else {
      assert Leaf(env.x, Owner(env.x, k));
    }
  }

  /** Where the loop over subdirectories stands: `cur` is what the first `i` of them made of `tb`. */
  ghost predicate Midway(env: Env, b: Branch, i: nat, tb: Tables, cur: Tables)
    requires env.x.cfg.blockSize > 0
  {
    && i <= |b.kids| && GoodTables(cur) && Open(tb) && Open(cur) && LeavesIn(env, cur)
    && Vacant(cur, DirsCovered(env.x, b.kids[i..]))
    && WriteSubdirs(env, b.kids, tb) == WriteSubdirs(env, b.kids[i..], cur)
  }

  lemma {:induction false} MidwayStart(env: Env, b: Branch, tb: Tables)
    requires env.x.cfg.blockSize > 0 && GoodTables(tb) && LeavesIn(env, tb) && Vacant(tb, DirsCovered(env.x, b.kids))
    ensures Midway(env, b, 0, tb, tb)
  {
    assert b.kids[0..] == b.kids;
  }

  /** The kids from `i` on, as SubdirsWritten and DirsCons want them. */
  lemma {:induction false} RestPlaced(x: Ctx, b: Branch, i: nat)
    requires GoodCtx(x) && IsBranch(x, b) && IsDir(x, b.path) && i < |b.kids|
    ensures b.kids[i..] != [] && b.kids[i..][0] == b.kids[i] && b.kids[i..][1..] == b.kids[i + 1..]
    ensures IsBranch(x, b.kids[i]) && b.kids[i].path == Kids(x, b.path)[i]
    ensures DirsCovered(x, b.kids[i..]) == DirsUnder(x, b.kids[i].path) + DirsCovered(x, b.kids[i + 1..])
    ensures DirsUnder(x, b.kids[i].path) !! DirsCovered(x, b.kids[i + 1..])
    ensures !IsDir(x, b.kids[i].path) ==> DirsUnder(x, b.kids[i].path) == {}
  {
    KidsPlaced(x, b);
    DirsCons(x, b.kids[i..], b.path);
  }

  lemma {:induction false} MidwaySkip(env: Env, b: Branch, i: nat, tb: Tables, cur: Tables)
    requires env.x.cfg.blockSize > 0 && GoodCtx(env.x) && IsBranch(env.x, b) && IsDir(env.x, b.path)
    requires i < |b.kids| && Midway(env, b, i, tb, cur) && !IsDir(env.x, b.kids[i].path)
    ensures Midway(env, b, i + 1, tb, cur)
  {
    RestPlaced(env.x, b, i);
  }

  lemma {:induction false} MidwayInto(env: Env, b: Branch, i: nat, tb: Tables, cur: Tables)
    requires env.x.cfg.blockSize > 0 && GoodCtx(env.x) && IsBranch(env.x, b) && IsDir(env.x, b.path)
    requires i < |b.kids| && Midway(env, b, i, tb, cur) && IsDir(env.x, b.kids[i].path)
    ensures IsBranch(env.x, b.kids[i]) && Vacant(cur, DirsUnder(env.x, b.kids[i].path))
    ensures WriteDir(env, b.kids[i], cur).None? ==> WriteSubdirs(env, b.kids, tb).None?
    ensures WriteDir(env, b.kids[i], cur).Some? ==> Midway(env, b, i + 1, tb, WriteDir(env, b.kids[i], cur).value)
  {
    RestPlaced(env.x, b, i);
    if WriteDir(env, b.kids[i], cur).Some? {
      DirWritten(env, b.kids[i], cur);
      LeavesStay(env, cur, WriteDir(env, b.kids[i], cur).value);
    }
  }

  lemma {:induction false} MidwayEnd(env: Env, b: Branch, tb: Tables, cur: Tables)
    requires env.x.cfg.blockSize > 0 && Midway(env, b, |b.kids|, tb, cur)
    ensures WriteSubdirs(env, b.kids, tb) == Some(cur)
  {
    assert b.kids[|b.kids|..] == [];
  }

  lemma {:induction false} SubdirsReady(env: Env, b: Branch, tb: Tables)
    requires env.x.cfg.blockSize > 0 && GoodCtx(env.x) && IsBranch(env.x, b) && IsDir(env.x, b.path)
    requires GoodTables(tb) && Open(tb) && LeavesIn(env, tb) && Vacant(tb, DirsCovered(env.x, b.kids))
    requires WriteSubdirs(env, b.kids, tb).Some?
    ensures forall k | k in Kids(env.x, b.path) :: KidReady(env, WriteSubdirs(env, b.kids, tb).value, k)
  {
    var mid := WriteSubdirs(env, b.kids, tb).value;
    KidsPlaced(env.x, b);
    SubdirsWritten(env, b, b.kids, tb);
    LeavesStay(env, tb, mid);
    forall d | d in DirsCovered(env.x, b.kids)
      ensures Written(env, mid, d)
    {
      assert DirDone(env, mid, d);
    }
    KidsReady(env, b, mid);
  }

  method WalkDirs(t: EntryTable, im: MetaWriter, dm: MetaWriter, d: Path, ghost b: Branch, ghost env: Env,
                  ghost tb: Tables)
    returns (ok: bool)
    requires Standing(t, im, dm, env, tb) && IsBranch(env.x, b) && b.path == d && IsDir(env.x, d)
    requires LeavesIn(env, tb) && Vacant(tb, DirsUnder(env.x, d))
    modifies t`inodeRef, t`dirLoc, im, dm
    ensures ok <==> WriteDir(env, b, tb).Some?
    ensures ok ==> Standing(t, im, dm, env, WriteDir(env, b, tb).value)
    decreases b, 1
  {
    DirsSplit(env.x, b);
    ok := WalkSubdirs(t, im, dm, t.children[d], b, env, tb);
    if ok {
      SubdirsReady(env, b, tb);
      ok := WriteDirHere(t, im, dm, d, env, WriteSubdirs(env, b.kids, tb).value);
    }
  }

  /** One turn of the loop over a directory's children. */
  method WalkKid(t: EntryTable, im: MetaWriter, dm: MetaWriter, k: Path, ghost b: Branch, ghost i: nat, ghost env: Env,
                 ghost tb: Tables, ghost cur: Tables)
    returns (ok: bool, ghost next: Tables)
    requires Standing(t, im, dm, env, cur) && IsBranch(env.x, b) && IsDir(env.x, b.path)
    requires i < |b.kids| && k == b.kids[i].path && k in env.x.entries && Midway(env, b, i, tb, cur)
    modifies t`inodeRef, t`dirLoc, im, dm
    ensures if ok then Standing(t, im, dm, env, next) && Midway(env, b, i + 1, tb, next)
              else WriteSubdirs(env, b.kids, tb).None?
    decreases b, 0, 0
  {
    next := cur;
    if t.x.entries[k].node.DirN? {
      MidwayInto(env, b, i, tb, cur);
      ok := WalkDirs(t, im, dm, k, b.kids[i], env, cur);
      if ok {
        next := WriteDir(env, b.kids[i], cur).value;
      }
    } else {
      MidwaySkip(env, b, i, tb, cur);
      ok := true;
    }
  }

  method WalkSubdirs(t: EntryTable, im: MetaWriter, dm: MetaWriter, ks: seq<Path>, ghost b: Branch, ghost env: Env,
                     ghost tb: Tables)
    returns (ok: bool)
    requires Standing(t, im, dm, env, tb) && IsBranch(env.x, b) && IsDir(env.x, b.path) && ks == Kids(env.x, b.path)
    requires LeavesIn(env, tb) && Vacant(tb, DirsCovered(env.x, b.kids))
    modifies t`inodeRef, t`dirLoc, im, dm
    ensures ok <==> WriteSubdirs(env, b.kids, tb).Some?
    ensures ok ==> Standing(t, im, dm, env, WriteSubdirs(env, b.kids, tb).value)
    decreases b, 0, 1
  {
    ghost var cur := tb;
    MidwayStart(env, b, tb);
    KidsThere(env.x, b, ks);
    var i := 0;
    while i < |ks|
      invariant 0 <= i <= |ks|
      invariant Standing(t, im, dm, env, cur) && Midway(env, b, i, tb, cur)
    {
      ok, cur := WalkKid(t, im, dm, ks[i], b, i, env, tb, cur);
      if !ok {
        return;
      }
      i := i + 1;
    }
    MidwayEnd(env, b, tb, cur);
    ok := true;
  }
}
