/** From a run of calls to the finished image: the main theorems about squashfs.Writer. */
module ImageMain {
  import opened Bytes
  import opened Paths
  import opened Chunking
  import opened Metadata
  import opened IdTable
  import opened WriterSpec
  import opened Closing
  import opened TreeProofs
  import opened TableProofs
  import opened RootPlace
  import opened ImageReader
  import opened ImageTheorem
  import opened WriterProofs
  import Superblock
  import Inodes

  // ---- The layout of the file ----

  lemma {:induction false} RegionsAt(g: Regions)
    ensures
      var body := Body(g);
      var p1 := |g.out| + |g.inodes|;
      var p2 := p1 + |g.dirs|;
      && At(body, 0, g.out)
      && At(body, |g.out|, g.inodes)
      && At(body, p1, g.dirs)
      && At(body, p2, g.ids)
      && At(body, p2 + |g.ids|, g.lookup)
  {
    var a := g.out + g.inodes;
    var b := a + g.dirs;
    var d := b + g.ids;
    assert At(Body(g), 0, Body(g));
    AtConcat(Body(g), 0, d, g.lookup);
    AtConcat(Body(g), 0, b, g.ids);
    AtConcat(Body(g), 0, a, g.dirs);
    AtConcat(Body(g), 0, g.out, g.inodes);
  }

  /** Behind the superblock the image is the body, byte for byte. */
  lemma {:induction false} FinishAt(sb: Superblock.Super, body: Bytes, pos: nat, part: Bytes)
    requires |body| >= Superblock.SuperblockSize && pos >= Superblock.SuperblockSize && At(body, pos, part)
    ensures At(Finish(sb, body), pos, part)
  {
    var n := Superblock.SuperblockSize;
    var img := Finish(sb, body);
    var pad: Bytes := seq(Padding(|body|), _ => 0);
    MiddleIs(Superblock.Encode(sb), body, n, pad);
    assert img[pos..pos + |part|] == body[pos..pos + |part|];
  }

  lemma {:induction false} MiddleIs(head: Bytes, body: Bytes, n: nat, pad: Bytes)
    requires |head| == n <= |body|
    ensures
      var img := head + body[n..] + pad;
      |img| == |body| + |pad| && forall k | n <= k < |body| :: img[k] == body[k]
  {
  }

  lemma {:induction false} FinishHead(sb: Superblock.Super, body: Bytes)
    requires |body| >= Superblock.SuperblockSize
    ensures At(Finish(sb, body), 0, Superblock.Encode(sb))
    ensures |Finish(sb, body)| == |body| + Padding(|body|)
  {
  }

  lemma {:induction false} ImageRegions(sb: Superblock.Super, g: Regions, p1: nat, p2: nat, p3: nat, p4: nat)
    requires |g.out| >= Superblock.SuperblockSize
    requires p1 == |g.out| && p2 == p1 + |g.inodes| && p3 == p2 + |g.dirs| && p4 == p3 + |g.ids|
    ensures |Body(g)| >= Superblock.SuperblockSize
    ensures
      var img := Finish(sb, Body(g));
      At(img, p1, g.inodes) && At(img, p2, g.dirs) && At(img, p3, g.ids) && At(img, p4, g.lookup)
  {
    RegionsAt(g);
    FinishAt(sb, Body(g), p1, g.inodes);
    FinishAt(sb, Body(g), p2, g.dirs);
    FinishAt(sb, Body(g), p3, g.ids);
    FinishAt(sb, Body(g), p4, g.lookup);
  }

  /** File data already out when Close starts stays where it is. */
  lemma {:induction false} DataStays(sb: Superblock.Super, g: Regions, pos: nat, part: Bytes)
    requires |g.out| >= Superblock.SuperblockSize
    requires pos >= Superblock.SuperblockSize && At(g.out, pos, part)
    ensures |Body(g)| >= Superblock.SuperblockSize
    ensures At(Finish(sb, Body(g)), pos, part)
  {
    RegionsAt(g);
    AtTrans(Body(g), 0, g.out, pos, part);
    FinishAt(sb, Body(g), pos, part);
  }

  lemma {:induction false} PlacedStays(c: Codec, size: nat, sb: Superblock.Super, g: Regions, e: Entry, data: Bytes)
    requires size > 0 && |g.out| >= Superblock.SuperblockSize && Placed(c, size, g.out, e, data, false)
    ensures |Body(g)| >= Superblock.SuperblockSize
    ensures Placed(c, size, Finish(sb, Body(g)), e, data, false)
  {
    DataStays(sb, g, e.start, FileData.Disk(c, Layout(size, data, false).done));
  }

  // ---- The finished image as a scene ----

  ghost predicate Closes(cfg: Config, s: State)
  {
    cfg.blockSize > 0 && |s.out| >= Superblock.SuperblockSize && ImageOf(cfg, s).Some?
  }

  /** Close succeeds exactly when there is an image, and leaves it; otherwise the output is as it was. */
  ghost predicate Outcome(cfg: Config, s: State, ok: bool, out: Bytes)
  {
    && (ok <==> Closes(cfg, s))
    && out == if ok then ImageOf(cfg, s).value else s.out
  }

  ghost function TheRoot(x: Ctx): Branch
    requires GoodCtx(x)
  {
    RootShort(x);
    Grow(x, Root)
  }

  ghost function TheEnv(cfg: Config, s: State): Env
    requires Closes(cfg, s)
  {
    var x := Rooted(cfg, s);
    Env(x, Preorder(x, TheRoot(x)), IdList(x).value)
  }

  ghost function TheTables(cfg: Config, s: State): Tables
    requires Closes(cfg, s)
  {
    TablesOf(TheEnv(cfg, s), TheRoot(Rooted(cfg, s))).value
  }

  ghost function TheScene(cfg: Config, s: State, contents: map<Path, Bytes>): Scene
    requires Closes(cfg, s)
  {
    var env, tb := TheEnv(cfg, s), TheTables(cfg, s);
    var g := RegionsOf(env, tb, s.out);
    Scene(env, tb, ImageOf(cfg, s).value, SuperOf(env, tb, g), g.idBase, contents)
  }

  lemma {:induction false} RegionFacts(env: Env, tb: Tables, out: Bytes)
    ensures
      var g, c := RegionsOf(env, tb, out), env.x.cfg.codec;
      && g.out == out && g.idBase == |g.out| + |g.inodes| + |g.dirs|
      && g.inodes == Emit(c, Seal(tb.inodes).done) && g.dirs == Emit(c, Seal(tb.dirs).done)
      && g.ids == Emit(c, IdBlocks(env.ids))
      && g.lookup == LookupFrom(c, IdBlocks(env.ids), g.idBase, |IdBlocks(env.ids)|)
  {
  }

  lemma {:induction false} SceneImage(cfg: Config, s: State, contents: map<Path, Bytes>)
    requires Closes(cfg, s)
    ensures
      var z := TheScene(cfg, s, contents);
      var g := RegionsOf(z.env, z.tb, s.out);
      && |Body(g)| >= Superblock.SuperblockSize
      && z.img == Finish(z.sb, Body(g))
      && GoodCtx(z.env.x) && z.env.x == Rooted(cfg, s)
      && z.sb.inodeTableStart == |g.out| && z.sb.directoryTableStart == |g.out| + |g.inodes|
      && z.idBase == g.idBase && z.sb.idTableStart == |g.out| + |g.inodes| + |g.dirs| + |g.ids|
  {
  }

  lemma {:induction false} SceneTables(cfg: Config, s: State, contents: map<Path, Bytes>)
    requires Closes(cfg, s)
    ensures
      var z := TheScene(cfg, s, contents);
      && GoodTables(z.tb)
      && (forall p | p in InodeOwners(z.env.x) :: Written(z.env, z.tb, p))
      && (forall d | d in z.env.x.entries && IsDir(z.env.x, d) :: ListedAt(z.env, z.tb, d))
  {
    var x := Rooted(cfg, s);
    RootShort(x);
    GrowIsBranch(x, Root);
    AllWritten(TheEnv(cfg, s), TheRoot(x));
  }

  lemma {:induction false} SceneRegions(cfg: Config, s: State, contents: map<Path, Bytes>)
    requires Closes(cfg, s)
    ensures
      var z := TheScene(cfg, s, contents);
      var c := cfg.codec;
      && At(z.img, z.sb.inodeTableStart, Emit(c, Seal(z.tb.inodes).done))
      && At(z.img, z.sb.directoryTableStart, Emit(c, Seal(z.tb.dirs).done))
      && At(z.img, z.idBase, Emit(c, IdBlocks(z.env.ids)))
      && At(z.img, z.sb.idTableStart, LookupFrom(c, IdBlocks(z.env.ids), z.idBase, |IdBlocks(z.env.ids)|))
  {
    SceneImage(cfg, s, contents);
    var z := TheScene(cfg, s, contents);
    RegionFacts(z.env, z.tb, s.out);
    ImageRegions(z.sb, RegionsOf(z.env, z.tb, s.out), z.sb.inodeTableStart, z.sb.directoryTableStart, z.idBase,
        z.sb.idTableStart);
  }

  lemma {:induction false} SceneGood(cfg: Config, s: State, contents: map<Path, Bytes>)
    requires Closes(cfg, s) && GoodConfig(cfg)
    ensures GoodScene(TheScene(cfg, s, contents))
  {
    SceneImage(cfg, s, contents);
    SceneTables(cfg, s, contents);
    SceneRegions(cfg, s, contents);
  }

  // ---- Owners are in the ID list ----

  lemma {:induction false} IdsMetHas(x: Ctx, order: seq<Path>, p: Path)
    requires p in order && p in x.entries && !x.entries[p].node.HardlinkN?
    ensures AttrsOf(x.entries[p].node).uid in IdsMet(x, order) && AttrsOf(x.entries[p].node).gid in IdsMet(x, order)
    decreases |order|
  {
    var n := |order| - 1;
    if order[n] == p {
      var a := AttrsOf(x.entries[p].node);
      LastTwo(IdsMet(x, order[..n]), a.uid, a.gid);
    } else {
      TakeNext(order, n);
      TakeAll(order);
      assert p in order[..n];
      IdsMetHas(x, order[..n], p);
    }
  }

  lemma {:induction false} LastTwo(s: seq<u32>, a: u32, b: u32)
    ensures a in s + [a, b] && b in s + [a, b]
  {
    assert (s + [a, b])[|s|] == a && (s + [a, b])[|s| + 1] == b;
  }

  lemma {:induction false} SceneIds(cfg: Config, s: State, contents: map<Path, Bytes>)
    requires Closes(cfg, s) && |ImageOf(cfg, s).value| < 0x1_0000_0000_0000_0000
    ensures IdsReadable(TheScene(cfg, s, contents))
  {
    var z := TheScene(cfg, s, contents);
    var x := Rooted(cfg, s);
    SceneRegions(cfg, s, contents);
    InternAllFacts([], IdsMet(x, x.order) + [0, 0]);
    LastTwo(IdsMet(x, x.order), 0, 0);
    forall p | p in InodeOwners(x)
      ensures AttrsOf(x.entries[p].node).uid in z.env.ids && AttrsOf(x.entries[p].node).gid in z.env.ids
    {
      if p != Root {
        IdsMetHas(x, x.order, p);
      }
    }
  }

  // ---- File contents ----

  lemma {:induction false} FileOfTree(cfg: Config, s: State, t: Tree, p: Path)
    requires cfg.blockSize > 0 && Inv(cfg.codec, cfg.blockSize, s, t) && t.cur.None?
    requires p in Rooted(cfg, s).entries && Rooted(cfg, s).entries[p].node.FileN?
    ensures p in s.entries && Rooted(cfg, s).entries[p] == s.entries[p] && p in t.contents
    ensures Placed(cfg.codec, cfg.blockSize, s.out, s.entries[p], t.contents[p], false)
  {
    assert p in NodesOf(s.entries);
    assert t.nodes[p].FileN?;
    assert Placed(cfg.codec, cfg.blockSize, s.out, s.entries[p], t.contents[p], Live(t, p));
  }

  lemma {:induction false} SceneFiles(cfg: Config, s: State, t: Tree)
    requires Closes(cfg, s) && Inv(cfg.codec, cfg.blockSize, s, t) && t.cur.None?
    ensures FilesReadable(TheScene(cfg, s, t.contents))
  {
    var z := TheScene(cfg, s, t.contents);
    var x := Rooted(cfg, s);
    SceneImage(cfg, s, t.contents);
    forall p | p in x.entries && x.entries[p].node.FileN?
      ensures p in t.contents && Placed(cfg.codec, cfg.blockSize, z.img, x.entries[p], t.contents[p], false)
    {
      FileOfTree(cfg, s, t, p);
      PlacedStays(cfg.codec, cfg.blockSize, z.sb, RegionsOf(z.env, z.tb, s.out), s.entries[p], t.contents[p]);
    }
  }

  // ---- The superblock ----

  lemma {:induction false} SceneSuper(cfg: Config, s: State, contents: map<Path, Bytes>)
    requires Closes(cfg, s) && GoodConfig(cfg) && |ImageOf(cfg, s).value| < 0x1_0000_0000_0000_0000
    ensures
      var z := TheScene(cfg, s, contents);
      && Superblock.Decode(z.img) == Some(z.sb)
      && Root in z.tb.refs && z.tb.refs[Root].block <= |z.tb.inodes.done|
      && z.sb.rootInodeRef / 0x1_0000 == BlockOffset(cfg.codec, z.tb.inodes.done, z.tb.refs[Root].block)
      && z.sb.rootInodeRef % 0x1_0000 == z.tb.refs[Root].off
  {
    var z := TheScene(cfg, s, contents);
    var g := RegionsOf(z.env, z.tb, s.out);
    SceneImage(cfg, s, contents);
    SceneTables(cfg, s, contents);
    assert Written(z.env, z.tb, Root) by {
      assert Root in InodeOwners(z.env.x);
    }
    var ref := z.tb.refs[Root];
    SealFacts(BlockCap, z.tb.inodes);
    OffsetStable(cfg.codec, z.tb.inodes, Seal(z.tb.inodes), ref.block);
    SceneRoot(cfg, s, contents);
    FinishHead(z.sb, Body(g));
    var block := BlockOffset(cfg.codec, Seal(z.tb.inodes).done, ref.block);
    EncodeRefSplits(block, ref.off);
    SuperFits(z.env, z.tb, g);
    Superblock.DecodeBack(z.img, z.sb);
  }

  lemma {:induction false} SceneRoot(cfg: Config, s: State, contents: map<Path, Bytes>)
    requires Closes(cfg, s)
    ensures
      var z := TheScene(cfg, s, contents);
      && Root in z.tb.refs && z.tb.refs[Root].block <= |z.tb.inodes.done|
      && BlockOffset(cfg.codec, z.tb.inodes.done, z.tb.refs[Root].block) < 0x1_0000_0000_0000
  {
    var x := Rooted(cfg, s);
    RootShort(x);
    GrowIsBranch(x, Root);
    RootLow(TheEnv(cfg, s), TheRoot(x));
  }

  lemma {:induction false} SuperFits(env: Env, tb: Tables, g: Regions)
    requires Root in tb.refs && tb.refs[Root].block <= |Seal(tb.inodes).done| && tb.refs[Root].off < BlockCap
    requires Superblock.ValidBlockSize(env.x.cfg.blockSize)
    requires |Body(g)| < 0x1_0000_0000_0000_0000
    requires BlockOffset(env.x.cfg.codec, Seal(tb.inodes).done, tb.refs[Root].block) < 0x1_0000_0000_0000
    ensures Superblock.Fits(SuperOf(env, tb, g))
  {
    Superblock.BlockLogAgrees(env.x.cfg.blockSize);
    var sb := SuperOf(env, tb, g);
    assert |g.out| + |g.inodes| + |g.dirs| + |g.ids| <= |Body(g)|;
    assert sb.rootInodeRef < 0x1_0000_0000_0000_0000;
  }

  // ---- The main theorem ----

  /** The state Close works on: whatever the calls left, with the last file sealed. */
  ghost function Final(cfg: Config, ops: seq<Op>): (s: State)
    requires cfg.blockSize > 0
  {
    RunInv(cfg.codec, cfg.blockSize, ops);
    FlushInv(cfg.codec, cfg.blockSize, Run(cfg.codec, cfg.blockSize, ops).value, TreeRun(ops));
    FlushCur(cfg.codec, Run(cfg.codec, cfg.blockSize, ops).value)
  }

  lemma {:induction false} FinalInv(cfg: Config, ops: seq<Op>)
    requires cfg.blockSize > 0
    ensures Inv(cfg.codec, cfg.blockSize, Final(cfg, ops), TreeRun(ops).(cur := None))
  {
    RunInv(cfg.codec, cfg.blockSize, ops);
    FlushInv(cfg.codec, cfg.blockSize, Run(cfg.codec, cfg.blockSize, ops).value, TreeRun(ops));
  }

  /** The entry table Close starts from is always sound; only a missing parent can spoil the tree. */
  lemma {:induction false} FinalBase(cfg: Config, ops: seq<Op>)
    requires cfg.blockSize > 0
    ensures var s := Final(cfg, ops); BaseCtx(Rooted(cfg, s)) && |s.out| >= Superblock.SuperblockSize && s.cur == None
  {
    FinalInv(cfg, ops);
    RootedBase(cfg, Final(cfg, ops), TreeRun(ops).(cur := None));
  }

  lemma {:induction false} RootedBase(cfg: Config, s: State, t: Tree)
    requires cfg.blockSize > 0 && Inv(cfg.codec, cfg.blockSize, s, t)
    ensures BaseCtx(Rooted(cfg, s))
  {
    var x := Rooted(cfg, s);
    assert forall p | p in s.entries :: s.entries[p].node == t.nodes[p];
    assert !ValidPath(Root);
    forall p | p in t.order
      ensures p in x.entries && ValidPath(p) && p != Root
    {
      assert NodeOk(t.nodes, p);
    }
    forall p | p in x.entries && x.entries[p].node.HardlinkN?
      ensures x.entries[p].node.link in x.order && x.entries[x.entries[p].node.link].node.FileN?
    {
      assert NodeOk(t.nodes, p);
    }
  }

  lemma {:induction false} ImageLong(cfg: Config, s: State)
    requires Closes(cfg, s)
    ensures |ImageOf(cfg, s).value| >= Superblock.SuperblockSize
  {
  }

  /** The image of a run as a scene, with everything the readers need of it. */
  lemma {:induction false} FinalScene(cfg: Config, ops: seq<Op>) returns (z: Scene)
    requires GoodConfig(cfg)
    requires Closes(cfg, Final(cfg, ops)) && |ImageOf(cfg, Final(cfg, ops)).value| < 0x1_0000_0000_0000_0000
    ensures z == TheScene(cfg, Final(cfg, ops), TreeRun(ops).contents)
    ensures GoodScene(z) && IdsReadable(z) && FilesReadable(z)
    ensures Superblock.Decode(z.img) == Some(z.sb)
    ensures Root in z.tb.refs && z.tb.refs[Root].block <= |z.tb.inodes.done|
    ensures z.sb.rootInodeRef / 0x1_0000 == BlockOffset(z.env.x.cfg.codec, z.tb.inodes.done, z.tb.refs[Root].block)
    ensures z.sb.rootInodeRef % 0x1_0000 == z.tb.refs[Root].off
  {
    var s, t := Final(cfg, ops), TreeRun(ops).(cur := None);
    FinalInv(cfg, ops);
    z := TheScene(cfg, s, t.contents);
    SceneGood(cfg, s, t.contents);
    SceneIds(cfg, s, t.contents);
    SceneFiles(cfg, s, t);
    SceneSuper(cfg, s, t.contents);
  }

  /**
   * The shape of every finished image: padded with zeros to a multiple of 4 KiB, the tables one
   * behind the other between the data blocks and bytes_used, the counts those of the tree.
   */
  lemma {:induction false} ImageGeometry(cfg: Config, ops: seq<Op>)
    requires GoodConfig(cfg)
    requires Closes(cfg, Final(cfg, ops)) && |ImageOf(cfg, Final(cfg, ops)).value| < 0x1_0000_0000_0000_0000
    ensures
      var s := Final(cfg, ops);
      var img := ImageOf(cfg, s).value;
      && Superblock.Decode(img).Some?
      && var sb := Superblock.Decode(img).value;
         && |img| % PadAlignment == 0 && sb.bytesUsed <= |img| < sb.bytesUsed + PadAlignment
         && (forall k | sb.bytesUsed <= k < |img| :: img[k] == 0)
         && Superblock.SuperblockSize <= |s.out| == sb.inodeTableStart <= sb.directoryTableStart <= sb.idTableStart
             <= sb.bytesUsed
         && sb.inodeCount == |InodeOwners(Rooted(cfg, s))| % 0x1_0000_0000
         && sb.idCount == |TheEnv(cfg, s).ids| % 0x1_0000 && sb.modTime == ImageMtime(Rooted(cfg, s))
         && sb.blockSize == cfg.blockSize == Superblock.Pow2(sb.blockLog) && sb.compressor == cfg.compressorId
         && sb.flags == Superblock.FlagNoFragments + Superblock.FlagNoXattrs && sb.fragCount == 0
         && sb.xattrTableStart == sb.fragmentTableStart == sb.exportTableStart == Superblock.Absent
  {
    var z := FinalScene(cfg, ops);
    var s := Final(cfg, ops);
    FinalBase(cfg, ops);
    SceneImage(cfg, s, TreeRun(ops).contents);
    var g := RegionsOf(z.env, z.tb, s.out);
    RegionFacts(z.env, z.tb, s.out);
    Superblock.BlockLogAgrees(cfg.blockSize);
    PaddingIs(z.sb, Body(g));
    SuperFields(z.env, z.tb, g);
  }

  lemma {:induction false} PaddingIs(sb: Superblock.Super, body: Bytes)
    requires |body| >= Superblock.SuperblockSize
    ensures
      var img := Finish(sb, body);
      |img| % PadAlignment == 0 && |body| <= |img| < |body| + PadAlignment
          && forall k | |body| <= k < |img| :: img[k] == 0
  {
    FinishHead(sb, body);
    var n := Superblock.SuperblockSize;
    var pad: Bytes := seq(Padding(|body|), _ => 0);
    MiddleIs(Superblock.Encode(sb), body, n, pad);
    forall k | |body| <= k < |body| + |pad|
      ensures Finish(sb, body)[k] == 0
    {
      assert Finish(sb, body)[k] == pad[k - |body|];
    }
  }

  lemma {:induction false} SuperFields(env: Env, tb: Tables, g: Regions)
    requires Root in tb.refs && tb.refs[Root].block <= |Seal(tb.inodes).done| && env.x.cfg.blockSize > 0
    ensures
      var sb := SuperOf(env, tb, g);
      && sb.bytesUsed == |Body(g)| && sb.inodeTableStart == |g.out| && sb.directoryTableStart == |g.out| + |g.inodes|
      && sb.idTableStart == |g.out| + |g.inodes| + |g.dirs| + |g.ids| <= sb.bytesUsed
      && sb.inodeCount == |InodeOwners(env.x)| % 0x1_0000_0000 && sb.idCount == |env.ids| % 0x1_0000
      && sb.modTime == ImageMtime(env.x)
      && sb.blockSize == env.x.cfg.blockSize && sb.blockLog == Superblock.BlockLogFor(env.x.cfg.blockSize)
      && sb.compressor == env.x.cfg.compressorId && sb.flags == Superblock.FlagNoFragments + Superblock.FlagNoXattrs
          && sb.fragCount == 0
      && sb.xattrTableStart == sb.fragmentTableStart == sb.exportTableStart == Superblock.Absent
  {
  }

  lemma {:induction false} LookupWalks(z: Scene, names: seq<Bytes>)
    requires GoodScene(z) && IdsReadable(z) && FilesReadable(z)
    requires Superblock.Decode(z.img) == Some(z.sb)
    requires Root in z.tb.refs && z.tb.refs[Root].block <= |z.tb.inodes.done|
    requires z.sb.rootInodeRef / 0x1_0000 == BlockOffset(z.env.x.cfg.codec, z.tb.inodes.done, z.tb.refs[Root].block)
    requires z.sb.rootInodeRef % 0x1_0000 == z.tb.refs[Root].off
    ensures TheInode(z, Root).Some?
    ensures Lookup(z.env.x.cfg.codec, z.img, names) == Walk(z.env.x.cfg.codec, z.img, z.sb, TheInode(z, Root).value,
              names)
  {
    assert Root in InodeOwners(z.env.x);
    InodeReads(z, Root);
    LookupIs(z.env.x.cfg.codec, z.img, z.sb, TheInode(z, Root).value, names);
  }

  lemma {:induction false} LookupIs(c: Codec, img: Bytes, sb: Superblock.Super, root: Inodes.Inode, names: seq<Bytes>)
    requires Superblock.Decode(img) == Some(sb) && sb.blockSize > 0
    requires ReadInode(c, img, sb, sb.rootInodeRef / 0x1_0000, sb.rootInodeRef % 0x1_0000) == Some(root)
    ensures Lookup(c, img, names) == Walk(c, img, sb, root, names)
  {
  }
}
