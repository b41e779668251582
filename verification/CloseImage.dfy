/** Close from end to end (squashfs/writer.go:434-573), on the entry table of a finished run. */
module CloseImage {
  import opened Bytes
  import opened Paths
  import opened Chunking
  import opened Metadata
  import opened IdTable
  import opened WriterSpec
  import opened Closing
  import opened TreeProofs
  import opened TableProofs
  import opened ClosePasses
  import opened TablePasses
  import Superblock

  predicate RootPlain(x: Ctx)
  {
    Root in x.entries && x.entries[Root].node == DirN(RootAttrs(x.cfg))
  }

  /** The environment of the later passes; Grow needs the tree to be sound. */
  ghost function EnvOf(x: Ctx, ids: seq<u32>): (env: Env)
    requires GoodCtx(x)
    ensures env.x == x && env.ids == ids
  {
    RootShort(x);
    Env(x, Preorder(x, Grow(x, Root)), ids)
  }

  lemma {:induction false} RootBranch(x: Ctx, ids: seq<u32>) returns (root: Branch)
    requires GoodCtx(x)
    ensures IsBranch(x, root) && root.path == Root
    ensures EnvOf(x, ids).pre == Preorder(x, root) && InOrder(EnvOf(x, ids))
  {
    RootShort(x);
    root := Grow(x, Root);
    GrowIsBranch(x, Root);
    Numbering(x);
  }

  /** Some order of the entries: a Go map gives any of them, a different one each time. */
  method RangeOver(keys: set<Path>) returns (order: seq<Path>)
    ensures forall p :: p in order <==> p in keys
    ensures forall i, j | 0 <= i < j < |order| :: order[i] != order[j]
  {
    order := [];
    var rest := keys;
    while rest != {}
      invariant rest <= keys
      invariant forall p :: p in order <==> p in keys && p !in rest
      invariant forall i, j | 0 <= i < j < |order| :: order[i] != order[j]
      decreases |rest|
    {
      var p :| p in rest;
      order := order + [p];
      rest := rest - {p};
    }
  }

  lemma {:induction false} ReadyFor(env: Env, num: map<Path, nat>, par: map<Path, nat>, links: map<Path, nat>,
                                    u: map<Path, nat>, g: map<Path, nat>)
    requires NumbersDone(env, num, par) && LinksDone(env.x, links) && OwnersDone(env.x, u, g, env.ids)
    ensures forall p | p in InodeOwners(env.x) :: Ready(env, num, par, links, u, g, p)
  {
    forall p | p in InodeOwners(env.x)
      ensures Ready(env, num, par, links, u, g, p)
    {
      assert Indexed(env.x, u, g, env.ids, p);
    }
  }

  method NumberAndCount(t: EntryTable, ghost env: Env, ghost root: Branch)
    requires GoodCtx(t.x) && t.TreeBuilt() && env.x == t.x && IsBranch(t.x, root) && root.path == Root
    requires env.pre == Preorder(t.x, root) && InOrder(env)
    modifies t`inodeNumber, t`parentInode, t`nlinks
    ensures NumbersDone(env, t.inodeNumber, t.parentInode) && LinksDone(t.x, t.nlinks)
  {
    t.AssignInodeNumbers(env, root);
    var order := RangeOver(t.x.entries.Keys);
    t.ComputeLinkCounts(order, root);
  }

  method Number(t: EntryTable, ids: IdTable, ghost env: Env, ghost root: Branch) returns (ok: bool)
    requires GoodCtx(t.x) && RootPlain(t.x) && t.TreeBuilt() && ids.Valid() && ids.list == [] && env.x == t.x
    requires IsBranch(t.x, root) && root.path == Root && env.pre == Preorder(t.x, root) && InOrder(env)
    modifies t`inodeNumber, t`parentInode, t`nlinks, t`uidIdx, t`gidIdx, ids
    ensures ids.Valid()
    ensures NumbersDone(env, t.inodeNumber, t.parentInode) && LinksDone(t.x, t.nlinks)
    ensures ok <==> IdList(t.x).Some?
    ensures ok ==> ids.list == IdList(t.x).value && OwnersDone(t.x, t.uidIdx, t.gidIdx, ids.list)
  {
    NumberAndCount(t, env, root);
    ok := t.InternIDs(ids);
  }

  lemma {:induction false} NowSettled(t: EntryTable, env: Env)
    requires t.x == env.x && env.x.cfg.blockSize > 0 && t.TreeBuilt()
    requires NumbersDone(env, t.inodeNumber, t.parentInode) && LinksDone(env.x, t.nlinks)
    requires OwnersDone(env.x, t.uidIdx, t.gidIdx, env.ids)
    ensures Settled(t, env)
  {
    ReadyFor(env, t.inodeNumber, t.parentInode, t.nlinks, t.uidIdx, t.gidIdx);
  }

  /** Numbers, link counts and owner indices: everything the tables are then written from. */
  method Prepare(t: EntryTable, ids: IdTable) returns (ok: bool)
    requires BaseCtx(t.x) && RootPlain(t.x) && t.x.cfg.blockSize > 0 && ids.Valid() && ids.list == []
    modifies t`children, t`inodeNumber, t`parentInode, t`nlinks, t`uidIdx, t`gidIdx, ids
    ensures ids.Valid()
    ensures ok <==> GoodCtx(t.x) && IdList(t.x).Some?
    ensures ok ==> ids.list == IdList(t.x).value && Settled(t, EnvOf(t.x, ids.list))
  {
    ok := t.BuildTree();
    if !ok {
      return;
    }
    ghost var ids0: seq<u32> := if IdList(t.x).Some? then IdList(t.x).value else [];
    ghost var env := EnvOf(t.x, ids0);
    ghost var root := RootBranch(t.x, ids0);
    ok := Number(t, ids, env, root);
    if ok {
      NowSettled(t, env);
    }
  }

  lemma {:induction false} LeavesDone(env: Env)
    requires env.x.cfg.blockSize > 0 && BaseCtx(env.x) && WriteLeaves(env, env.x.order).Some?
    ensures
      var tb := WriteLeaves(env, env.x.order).value;
      && LeavesIn(env, tb) && Vacant(tb, DirsUnder(env.x, Root))
      && (forall p | Leaf(env.x, p) :: p in tb.refs)
      && (forall h | IsLink(env.x, h) :: h !in tb.refs)
  {
    LeavesWritten(env, env.x.order);
    var tb := WriteLeaves(env, env.x.order).value;
    forall p | Leaf(env.x, p)
      ensures Written(env, tb, p)
    {
      assert p in Leaves(env.x, env.x.order);
    }
  }

  method FirstPass(t: EntryTable, im: MetaWriter, ghost dm: MetaWriter, ghost env: Env) returns (ok: bool)
    requires Settled(t, env) && GoodCtx(env.x) && Shows(t, im, dm, env, NoTables)
    modifies t`inodeRef, t`inodeNumber, im
    ensures ok <==> WriteLeaves(env, env.x.order).Some?
    ensures ok ==> Standing(t, im, dm, env, WriteLeaves(env, env.x.order).value)
  {
    ok := WriteLeafInodes(t, im, dm, env);
    if ok {
      LeavesDone(env);
      ResolveHardlinks(t, im, dm, env, WriteLeaves(env, env.x.order).value);
    }
  }

  /** Both passes over the two streams. */
  method FillTables(t: EntryTable, im: MetaWriter, dm: MetaWriter, ghost env: Env, ghost root: Branch)
                    returns (ok: bool)
    requires Settled(t, env) && GoodCtx(env.x) && Shows(t, im, dm, env, NoTables)
    requires IsBranch(env.x, root) && root.path == Root
    modifies t`inodeRef, t`inodeNumber, t`dirLoc, im, dm
    ensures ok <==> TablesOf(env, root).Some?
    ensures ok ==> Shows(t, im, dm, env, TablesOf(env, root).value)
  {
    ok := FirstPass(t, im, dm, env);
    TablesAre(env, root);
    if ok {
      LeavesDone(env);
      ok := WalkDirs(t, im, dm, Root, root, env, WriteLeaves(env, env.x.order).value);
    }
  }

  lemma {:induction false} TablesAre(env: Env, root: Branch)
    requires env.x.cfg.blockSize > 0 && BaseCtx(env.x)
    ensures WriteLeaves(env, env.x.order).None? ==> TablesOf(env, root).None?
    ensures WriteLeaves(env, env.x.order).Some? ==>
              var tb := WriteLeaves(env, env.x.order).value;
              Open(tb) && TablesOf(env, root) == WriteDir(env, root, tb)
  {
    if WriteLeaves(env, env.x.order).Some? {
      LeavesWritten(env, env.x.order);
    }
  }

  lemma {:induction false} RootPlaced(env: Env, root: Branch)
    requires env.x.cfg.blockSize > 0 && GoodCtx(env.x) && IsBranch(env.x, root) && root.path == Root
    requires TablesOf(env, root).Some?
    ensures var tb := TablesOf(env, root).value;
            Root in tb.refs && tb.refs[Root].block <= |tb.inodes.done| <= |Seal(tb.inodes).done|
  {
    AllWritten(env, root);
    assert Root in InodeOwners(env.x);
    assert Written(env, TablesOf(env, root).value, Root);
  }

  /** Everything behind the data blocks, in file order; the offsets are those of the superblock. */
  method EmitRegions(out: Bytes, im: MetaWriter, dm: MetaWriter, ids: IdTable, codec: Codec, ghost env: Env,
                     ghost tb: Tables)
    returns (body: Bytes, dirStart: nat, lookupStart: nat)
    requires im.Valid() && dm.Valid() && ids.Valid() && im.comp == dm.comp == codec == env.x.cfg.codec
               && ids.list == env.ids
    requires im.plains == Seal(tb.inodes).done && dm.plains == Seal(tb.dirs).done
    ensures
      var g := RegionsOf(env, tb, out);
      body == Body(g) && dirStart == |out| + |g.inodes| && lookupStart == |out| + |g.inodes| + |g.dirs| + |g.ids|
  {
    var n, offsets;
    body, n := im.EmitTo(out);
    dirStart := |out| + n;
    body, n := dm.EmitTo(body);
    ghost var blocks, base := IdBlocks(ids.list), dirStart + n;
    body, offsets := ids.WriteData(body, codec, dirStart + n);
    lookupStart := |body|;
    body := WriteLookup(body, offsets, codec, blocks, base);
  }

  method Patch(sb: Superblock.Super, body: Bytes) returns (img: Bytes)
    requires |body| >= Superblock.SuperblockSize
    ensures img == Finish(sb, body)
  {
    img := body;
    if |img| % PadAlignment != 0 {
      img := img + seq(PadAlignment - |img| % PadAlignment, _ => 0);
    }
    var head := Superblock.EncodeInto(sb);
    PadIs(body, img);
    img := head + img[Superblock.SuperblockSize..];
  }

  lemma {:induction false} PadIs(body: Bytes, padded: Bytes)
    requires |body| >= Superblock.SuperblockSize
    requires padded == body + seq(if |body| % PadAlignment == 0 then 0 else PadAlignment - |body| % PadAlignment,
               _ => 0)
    ensures padded[Superblock.SuperblockSize..] == body[Superblock.SuperblockSize..] + seq(Padding(|body|), _ => 0)
  {
  }

  lemma {:induction false} ImageIs(cfg: Config, s: State, env: Env, root: Branch, tb: Tables)
    requires cfg.blockSize > 0 && |s.out| >= Superblock.SuperblockSize
    requires env.x == Rooted(cfg, s) && GoodCtx(env.x) && IdList(env.x) == Some(env.ids) && env == EnvOf(env.x, env.ids)
    requires |Root| <= Longest(env.x.order) && root == Grow(env.x, Root)
    ensures TablesOf(env, root).None? ==> ImageOf(cfg, s).None?
    ensures TablesOf(env, root) == Some(tb) ==>
              && Root in tb.refs && tb.refs[Root].block <= |tb.inodes.done| <= |Seal(tb.inodes).done|
              && var g := RegionsOf(env, tb, s.out);
                 |Body(g)| >= Superblock.SuperblockSize && ImageOf(cfg, s) == Some(Finish(SuperOf(env, tb, g), Body(g)))
  {
    GrowIsBranch(env.x, Root);
    if TablesOf(env, root) == Some(tb) {
      RootPlaced(env, root);
    }
  }

  /** The image Close leaves for this table, or None exactly where it reports an error. */
  method BuildImage(cfg: Config, out: Bytes, entries: map<Path, Entry>, order: seq<Path>) returns (r: Option<Bytes>)
    requires cfg.blockSize > 0 && |out| >= Superblock.SuperblockSize
    requires BaseCtx(Rooted(cfg, State(out, entries, order, None)))
    ensures r == ImageOf(cfg, State(out, entries, order, None))
  {
    ghost var s := State(out, entries, order, None);
    var x := Ctx(cfg, entries[Root := Entry(DirN(RootAttrs(cfg)), 0, [], 0)], order);
    var t := new EntryTable(x);
    var ids := new IdTable();
    var ok := Prepare(t, ids);
    if !ok {
      return None;
    }
    var im := new MetaWriter(cfg.codec);
    var dm := new MetaWriter(cfg.codec);
    ghost var env := EnvOf(x, ids.list);
    RootShort(x);
    ghost var root := Grow(x, Root);
    GrowIsBranch(x, Root);
    ok := FillTables(t, im, dm, env, root);
    ghost var tb := if TablesOf(env, root).Some? then TablesOf(env, root).value else NoTables;
    ImageIs(cfg, s, env, root, tb);
    if !ok {
      return None;
    }
    var img := Assemble(t, im, dm, ids, out, env, tb);
    r := Some(img);
  }

  /** Flush, emit, count, stamp, back-patch. */
  method Assemble(t: EntryTable, im: MetaWriter, dm: MetaWriter, ids: IdTable, out: Bytes, ghost env: Env,
                  ghost tb: Tables)
    returns (img: Bytes)
    requires Shows(t, im, dm, env, tb) && ids.Valid() && ids.list == env.ids && t.x == env.x
    requires BaseCtx(env.x) && RootPlain(env.x) && env.x.cfg.blockSize > 0 && |out| >= Superblock.SuperblockSize
    requires Root in tb.refs && tb.refs[Root].block <= |tb.inodes.done| <= |Seal(tb.inodes).done|
    requires |Body(RegionsOf(env, tb, out))| >= Superblock.SuperblockSize
    modifies im, dm
    ensures var g := RegionsOf(env, tb, out); img == Finish(SuperOf(env, tb, g), Body(g))
  {
    var cfg := t.x.cfg;
    var rootRef := t.inodeRef[Root];
    im.Flush();
    dm.Flush();
    var body, dirStart, lookupStart := EmitRegions(out, im, dm, ids, cfg.codec, env, tb);
    var rootByte := im.BlockByteOffset(rootRef.block);
    var sb := MakeSuper(t, |ids.list|, |out|, dirStart, lookupStart, |body|, EncodeRef(rootByte, rootRef.off));
    SuperIs(env, tb, out, dirStart, lookupStart, rootByte);
    img := Patch(sb, body);
  }

  lemma {:induction false} SuperIs(env: Env, tb: Tables, out: Bytes, dirStart: nat, lookupStart: nat, rootByte: nat)
    requires Root in tb.refs && tb.refs[Root].block <= |Seal(tb.inodes).done| && env.x.cfg.blockSize > 0
    requires rootByte == BlockOffset(env.x.cfg.codec, Seal(tb.inodes).done, tb.refs[Root].block)
    requires
      var g := RegionsOf(env, tb, out);
      dirStart == |out| + |g.inodes| && lookupStart == |out| + |g.inodes| + |g.dirs| + |g.ids|
    ensures
      var g := RegionsOf(env, tb, out);
      SuperOf(env, tb, g)
      == SuperWith(env.x, |env.ids|, |out|, dirStart, lookupStart, |Body(g)|, EncodeRef(rootByte, tb.refs[Root].off))
  {
  }

  method MakeSuper(t: EntryTable, idCount: nat, inodeStart: nat, dirStart: nat, lookupStart: nat, used: nat,
                   rootRef: nat)
    returns (sb: Superblock.Super)
    requires BaseCtx(t.x) && RootPlain(t.x) && t.x.cfg.blockSize > 0
    ensures sb == SuperWith(t.x, idCount, inodeStart, dirStart, lookupStart, used, rootRef)
  {
    var order := RangeOver(t.x.entries.Keys);
    var count := t.TotalInodeCount(order);
    order := RangeOver(t.x.entries.Keys);
    var time := t.ImageTime(order);
    sb := Superblock.Super(
      inodeCount := count, modTime := time, blockSize := t.x.cfg.blockSize,
      fragCount := 0, compressor := t.x.cfg.compressorId, blockLog := Superblock.BlockLogFor(t.x.cfg.blockSize),
      flags := Superblock.FlagNoFragments + Superblock.FlagNoXattrs, idCount := idCount % 0x1_0000,
      rootInodeRef := rootRef, bytesUsed := used, idTableStart := lookupStart, xattrTableStart := Superblock.Absent,
      inodeTableStart := inodeStart, directoryTableStart := dirStart,
      fragmentTableStart := Superblock.Absent, exportTableStart := Superblock.Absent);
  }
}
