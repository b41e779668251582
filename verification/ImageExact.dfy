/**
 * The main theorem about squashfs.Writer, and exactly when it holds. A directory whose listing is
 * longer than its 32-bit byte count can say is the one thing that spoils an image.
 */
module ImageExact {
  import opened Bytes
  import opened Paths
  import opened Sorting
  import opened Chunking
  import opened Metadata
  import opened Directory
  import opened IdTable
  import opened WriterSpec
  import opened Closing
  import opened TableProofs
  import opened ImageReader
  import opened ImageTheorem
  import opened ImageMain
  import Superblock
  import Inodes

  /** At every path the reader finds what was created there, and nothing anywhere else. */
  ghost predicate ReadsBack(cfg: Config, ops: seq<Op>)
    requires cfg.blockSize > 0 && Closes(cfg, Final(cfg, ops))
  {
    forall names: seq<Bytes> ::
      Lookup(cfg.codec, ImageOf(cfg, Final(cfg, ops)).value, names)
      == ExpectFrom(TheEnv(cfg, Final(cfg, ops)), TreeRun(ops).contents, Root, names)
  }

  /** Every listing's true length leaves room for the three extra bytes in 32 bits. */
  ghost predicate ListingsShort(cfg: Config, ops: seq<Op>)
    requires cfg.blockSize > 0 && Closes(cfg, Final(cfg, ops))
  {
    AllShort(TheScene(cfg, Final(cfg, ops), TreeRun(ops).contents))
  }

  // ---- A listing that is too long ----

  /** The size field of a directory whose listing is too long says less than the listing holds. */
  lemma {:induction false} WrappedSize(n: nat, size: nat)
    requires n + 3 >= 0x1_0000_0000 && size == (n % 0x1_0000_0000 + 3) % 0x1_0000_0000 && size <= 0xFFFF
    ensures size < 3 || size - 3 < n
  {
  }

  lemma {:induction false} LongBody(env: Env, d: Path, loc: Loc)
    requires IsDir(env.x, d) && env.x.cfg.blockSize > 0 && InodeOf(env, d, loc).Some?
    ensures
      var b := InodeOf(env, d, loc).value.body;
      b.DirB? && b.start == loc.start && b.off == loc.ref.off
      && b.size == (loc.size + 3) % 0x1_0000_0000 && b.size <= 0xFFFF
  {
  }

  lemma {:induction false} CutRows(es: seq<DirEnt>, n: nat)
    requires NamesOk(es) && (forall i | 0 <= i < |es| :: Directory.Fits(es[i])) && n < |EncodeListing(es)|
    ensures var seen := DecodeListing(EncodeListing(es)[..n]); seen.None? || |seen.value| < |es|
  {
    var listing := EncodeListing(es);
    ListingBack(es);
    SplitAt(listing, n);
    if DecodeListing(listing[..n]).Some? {
      CutShowsLess(listing[..n], listing[n..]);
    }
  }

  lemma {:induction false} PartRead(c: Codec, img: Bytes, sb: Superblock.Super, body: Inodes.Body, part: Bytes)
    requires body.DirB? && body.size == |part| + 3
    requires ReadMeta(c, img, sb.directoryTableStart + body.start, body.off, |part|) == Some(part)
    ensures ReadDir(c, img, sb, body) == DecodeListing(part)
  {
  }

  lemma {:induction false} CutListing(c: Codec, img: Bytes, sb: Superblock.Super, ch: Chunks, loc: Loc,
                                      body: Inodes.Body, listing: Bytes)
    requires Faithful(c) && Wf(BlockCap, ch)
    requires Holds(ch, loc.ref, listing) && loc.start == BlockOffset(c, ch.done, loc.ref.block)
    requires At(img, sb.directoryTableStart, Emit(c, Seal(ch).done))
    requires body.DirB? && body.start == loc.start && body.off == loc.ref.off && 3 <= body.size < |listing| + 3
    ensures ReadDir(c, img, sb, body) == DecodeListing(listing[..body.size - 3])
  {
    var n := body.size - 3;
    HoldsPrefix(ch, loc.ref, listing, n);
    StreamReads(c, ch, loc.ref, listing[..n], img, sb.directoryTableStart, sb.directoryTableStart + body.start);
    PartRead(c, img, sb, body, listing[..n]);
  }

  lemma {:induction false} CutSeen(c: Codec, img: Bytes, sb: Superblock.Super, ch: Chunks, loc: Loc,
                                   body: Inodes.Body, es: seq<DirEnt>)
    requires Faithful(c) && Wf(BlockCap, ch) && NamesOk(es) && forall i | 0 <= i < |es| :: Directory.Fits(es[i])
    requires Holds(ch, loc.ref, EncodeListing(es)) && loc.start == BlockOffset(c, ch.done, loc.ref.block)
    requires loc.size == |EncodeListing(es)| % 0x1_0000_0000 && |EncodeListing(es)| + 3 >= 0x1_0000_0000
    requires At(img, sb.directoryTableStart, Emit(c, Seal(ch).done))
    requires body.DirB? && body.start == loc.start && body.off == loc.ref.off
    requires body.size == (loc.size + 3) % 0x1_0000_0000 && body.size <= 0xFFFF
    ensures var seen := ReadDir(c, img, sb, body); seen.None? || |seen.value| < |es|
  {
    WrappedSize(|EncodeListing(es)|, body.size);
    if body.size >= 3 {
      CutListing(c, img, sb, ch, loc, body, EncodeListing(es));
      CutRows(es, body.size - 3);
    }
  }

  /** The reader never sees all the rows of such a directory. */
  lemma {:induction false} LongShowsLess(z: Scene, d: Path)
    requires GoodScene(z) && IsDir(z.env.x, d) && !Short(z.env, z.tb, d)
    ensures TheInode(z, d).Some? && TheInode(z, d).value.body.DirB?
    ensures
      var seen := ReadDir(z.env.x.cfg.codec, z.img, z.sb, TheInode(z, d).value.body);
      seen.None? || |seen.value| < |Kids(z.env.x, d)|
  {
    assert d in InodeOwners(z.env.x);
    assert Written(z.env, z.tb, d) && ListedAt(z.env, z.tb, d);
    var loc, es, body := z.tb.locs[d], Rows(z.env, z.tb, d), TheInode(z, d).value.body;
    LongBody(z.env, d, loc);
    RowsAllFit(z, d);
    RowsAre(z.env, z.tb, d);
    assert |EncodeListing(es)| + 3 >= 0x1_0000_0000;
    assert body.size == (loc.size + 3) % 0x1_0000_0000 && body.size <= 0xFFFF;
    assert body.DirB? && body.start == loc.start && body.off == loc.ref.off;
    assert Holds(z.tb.dirs, loc.ref, EncodeListing(es)) && loc.start
        == BlockOffset(z.env.x.cfg.codec, z.tb.dirs.done, loc.ref.block);
    assert loc.size == |EncodeListing(es)| % 0x1_0000_0000;
    CutSeen(z.env.x.cfg.codec, z.img, z.sb, z.tb.dirs, loc, body, es);
  }

  lemma {:induction false} FewerNames(c: Codec, img: Bytes, sb: Superblock.Super, i: Inodes.Inode,
                                      want: Option<Stat>, names: seq<Bytes>)
    requires i.body.DirB? && want.Some? && want.value.what.Folder? && want.value.what.names == names
    requires var seen := ReadDir(c, img, sb, i.body); seen.None? || |seen.value| < |names|
    ensures StatInode(c, img, sb, i) != want
  {
  }

  lemma {:induction false} LongStat(z: Scene, d: Path)
    requires GoodScene(z) && IsDir(z.env.x, d) && !Short(z.env, z.tb, d)
    ensures TheInode(z, d).Some?
    ensures StatInode(z.env.x.cfg.codec, z.img, z.sb, TheInode(z, d).value) != Expect(z.env, z.contents, d)
  {
    LongShowsLess(z, d);
    FewerNames(z.env.x.cfg.codec, z.img, z.sb, TheInode(z, d).value, Expect(z.env, z.contents, d),
        BaseNames(Kids(z.env.x, d)));
  }

  // ---- It shows at some path ----

  predicate Differs(z: Scene, p: Path, names: seq<Bytes>)
    requires z.sb.blockSize > 0
  {
    && TheInode(z, p).Some?
    && Walk(z.env.x.cfg.codec, z.img, z.sb, TheInode(z, p).value, names) != ExpectFrom(z.env, z.contents, p, names)
  }

  /** One step down through a sound directory changes nothing about the comparison. */
  lemma {:induction false} StepDown(z: Scene, d: Path, name: Bytes, names: seq<Bytes>)
    requires GoodScene(z) && IdsReadable(z) && FilesReadable(z) && IsDir(z.env.x, d) && Short(z.env, z.tb, d) && d != []
    requires ValidName(name) && IsDir(z.env.x, Child(d, name)) && Differs(z, Child(d, name), names)
    ensures Differs(z, d, [name] + names)
  {
    var k := Child(d, name);
    var all := [name] + names;
    assert all[0] == name && all[1..] == names;
    DirReads(z, d);
    var es := Rows(z.env, z.tb, d);
    var i := NameListed(z.env.x, d, name);
    RowLeads(z, d, i);
    RowsAre(z.env, z.tb, d);
    FindFirst(es, i, name);
    WalkDown(z.env.x.cfg.codec, z.img, z.sb, TheInode(z, d).value, all, es, es[i], TheInode(z, k).value);
    ValidSplits(all);
  }

  lemma {:induction false} LongIsSeen(z: Scene, p: Path, names: seq<Bytes>) returns (bad: seq<Bytes>)
    requires GoodScene(z) && IdsReadable(z) && FilesReadable(z) && IsDir(z.env.x, p)
    requires AllValid(names) && IsDir(z.env.x, PathFrom(p, names)) && !Short(z.env, z.tb, PathFrom(p, names))
    ensures Differs(z, p, bad)
    decreases |names|
  {
    PathNonEmpty(z.env.x, p);
    if !Short(z.env, z.tb, p) {
      bad := [];
      LongDiffers(z, p);
    } else {
      var k := Child(p, names[0]);
      ValidTail(names);
      ChildIsDir(z.env.x, p, names);
      var rest := LongIsSeen(z, k, names[1..]);
      StepDown(z, p, names[0], rest);
      bad := [names[0]] + rest;
    }
  }

  lemma {:induction false} LongDiffers(z: Scene, d: Path)
    requires GoodScene(z) && IsDir(z.env.x, d) && !Short(z.env, z.tb, d)
    ensures Differs(z, d, [])
  {
    LongStat(z, d);
    WalkEnds(z.env.x.cfg.codec, z.img, z.sb, TheInode(z, d).value);
  }

  lemma {:induction false} ValidTail(names: seq<Bytes>)
    requires names != [] && AllValid(names)
    ensures ValidName(names[0]) && AllValid(names[1..])
  {
  }

  lemma {:induction false} ChildIsDir(x: Ctx, p: Path, names: seq<Bytes>)
    requires GoodCtx(x) && p != [] && names != [] && AllValid(names) && IsDir(x, PathFrom(p, names))
    ensures IsDir(x, Child(p, names[0]))
  {
    AboveIsDir(x, p, names);
    if |names| > 1 {
      ChildLonger(p, names[0]);
      ValidTail(names);
      AboveIsDir(x, Child(p, names[0]), names[1..]);
    }
  }

  // ---- The theorem ----

  /**
   * For every run of calls that Close turns into an image (of a length the 64-bit offsets of the
   * format can say): the image reads back as exactly the tree that was asked for if and only if no
   * directory's listing exceeds its 32-bit count.
   */
  lemma {:induction false} ImageReadsBack(cfg: Config, ops: seq<Op>)
    requires GoodConfig(cfg) && Closes(cfg, Final(cfg, ops))
    requires |ImageOf(cfg, Final(cfg, ops)).value| < 0x1_0000_0000_0000_0000
    ensures ReadsBack(cfg, ops) <==> ListingsShort(cfg, ops)
  {
    var z := FinalScene(cfg, ops);
    forall names: seq<Bytes>
      ensures Lookup(cfg.codec, z.img, names) == Walk(cfg.codec, z.img, z.sb, TheInode(z, Root).value, names)
    {
      LookupWalks(z, names);
    }
    LookupWalks(z, []);
    if AllShort(z) {
      forall names: seq<Bytes>
        ensures Lookup(cfg.codec, z.img, names) == ExpectFrom(z.env, z.contents, Root, names)
      {
        WalkReads(z, Root, names);
      }
    } else {
      LongSpoils(z);
    }
  }

  lemma {:induction false} LongSpoils(z: Scene)
    requires GoodScene(z) && IdsReadable(z) && FilesReadable(z) && !AllShort(z)
    ensures exists names: seq<Bytes> :: Differs(z, Root, names)
  {
    var d :| d in z.env.x.entries && IsDir(z.env.x, d) && !Short(z.env, z.tb, d);
    var names := [];
    if d != Root {
      SplitFollows(d);
      names := Split(d[1..]);
    }
    var bad := LongIsSeen(z, Root, names);
  }

  /** A simple sufficient condition: twenty bytes an entry and its name, summed, stay below 4 GiB. */
  lemma {:induction false} SmallDirsSuffice(cfg: Config, ops: seq<Op>)
    requires GoodConfig(cfg) && Closes(cfg, Final(cfg, ops))
    requires |ImageOf(cfg, Final(cfg, ops)).value| < 0x1_0000_0000_0000_0000
    requires ListingsFit(Rooted(cfg, Final(cfg, ops)))
    ensures ReadsBack(cfg, ops)
  {
    var z := FinalScene(cfg, ops);
    FitsIsShort(z);
    ImageReadsBack(cfg, ops);
  }

  // ---- There are such runs ----

  lemma {:induction false} EmptyFinal(cfg: Config)
    requires cfg.blockSize > 0
    ensures Final(cfg, []) == Start()
  {
  }

  lemma {:induction false} EmptyKids(x: Ctx)
    requires x.order == []
    ensures Kids(x, Root) == [] && IdsMet(x, x.order) == []
  {
  }

  lemma {:induction false} ZeroTwice(ids: seq<u32>)
    requires |ids| == 2 && ids[0] == 0 && ids[1] == 0
    ensures InternAll([], ids).Some?
  {
    var one := Interned([], ids[0]);
    assert one.Some? && ids[0] in one.value;
    var rest := ids[1..];
    assert rest[0] == 0 && rest[1..] == [];
    assert Interned(one.value, rest[0]) == one;
    assert InternAll(one.value, rest[1..]) == one;
  }

  lemma {:induction false} EmptyIds(x: Ctx)
    requires x.order == []
    ensures IdList(x).Some?
  {
    EmptyKids(x);
    ZeroTwice(IdsMet(x, x.order) + [0, 0]);
  }

  lemma {:induction false} EmptyTables(env: Env, root: Branch)
    requires env.x.cfg.blockSize > 0 && env.x.order == [] && IsDir(env.x, Root) && root == Branch(Root, [])
    requires env.x.entries[Root].node == DirN(RootAttrs(env.x.cfg)) && Mtime(env.x.cfg, RootAttrs(env.x.cfg)).Some?
    ensures TablesOf(env, root).Some?
    ensures var tb := TablesOf(env, root).value; Root in tb.refs && tb.refs[Root].block <= |Seal(tb.inodes).done|
  {
    EmptyKids(env.x);
    assert WriteLeaves(env, env.x.order) == Some(NoTables);
    assert WriteSubdirs(env, root.kids, NoTables) == Some(NoTables);
    assert EntsFor(env, NoTables, []) == Some([]);
    assert Sort<DirEnt>([], NameOf) == [];
    var listing := EncodeListing([]);
    assert listing == [];
    var loc := Loc(Here(Empty), BlockOffset(env.x.cfg.codec, [], 0), 0);
    var tb := NoTables.(dirs := Append(BlockCap, Empty, listing), locs := NoTables.locs[Root := loc]);
    assert BlockOffset(env.x.cfg.codec, [], 0) == 0;
    assert LocOf(tb, Root) == loc;
    assert BodyOf(env, Root, loc).Some?;
    assert InodeOf(env, Root, loc).Some?;
    assert WriteOneDir(env, Root, NoTables) == WriteInode(env, Root, tb);
  }

  /** Already the empty run closes, as long as the fixed time, if there is one, can be written down. */
  lemma {:induction false} EmptyRunCloses(cfg: Config)
    requires GoodConfig(cfg) && Mtime(cfg, RootAttrs(cfg)).Some?
    ensures Closes(cfg, Final(cfg, []))
  {
    var s := Final(cfg, []);
    EmptyFinal(cfg);
    var x := Rooted(cfg, s);
    assert s.entries == map[] && s.order == [];
    FinalBase(cfg, []);
    assert GoodCtx(x);
    EmptyIds(x);
    EmptyKids(x);
    RootShort(x);
    var root := Grow(x, Root);
    assert root.kids == GrowAll(x, Root, Kids(x, Root));
    var env := Env(x, Preorder(x, root), IdList(x).value);
    EmptyTables(env, root);
  }
}
