/**
 * The image in terms of the calls alone: which calls take effect, by position in the history, what
 * a file collects between its creation and the next one, and what the image then shows.
 */
module CallHistory {
  import opened Bytes
  import opened Paths
  import opened WriterSpec
  import opened ImageReader
  import opened ImageTree
  import opened ImageMain
  import opened Closing
  import opened ClosePasses
  import Superblock

  // ---- Which calls take effect ----

  /**
   * Call `i` adds an entry: its path is canonical and not taken by an earlier call that did, a
   * symlink has a target, and a hard link leads to a file that an earlier call made.
   */
  ghost predicate Made(ops: seq<Op>, i: nat)
    requires i < |ops|
    decreases i
  {
    && ops[i].Create? && Canonical(ops[i].path)
    && (forall j: nat | j < i && Made(ops, j) :: ops[j].path != ops[i].path)
    && (ops[i].node.SymlinkN? ==> ops[i].node.target != [])
    && (ops[i].node.HardlinkN? ==>
          exists j: nat | j < i && Made(ops, j) :: ops[j].path == ops[i].node.link && ops[j].node.FileN?)
  }

  lemma {:induction false} MadeBefore(ops: seq<Op>, n: nat, i: nat)
    requires i < n <= |ops|
    ensures Made(ops[..n], i) <==> Made(ops, i)
    decreases i
  {
    forall j: nat | j < i
      ensures Made(ops[..n], j) <==> Made(ops, j)
    {
      MadeBefore(ops, n, j);
    }
  }

  /** The checks of the Create* calls, without their order. */
  lemma {:induction false} AcceptedIff(nodes: map<Path, Node>, path: Path, node: Node)
    requires forall p | p in nodes :: Canonical(p)
    ensures Refusal(nodes, path, node).None? <==>
              && Canonical(path) && path !in nodes
              && (node.SymlinkN? ==> node.target != [])
              && (node.HardlinkN? ==> node.link in nodes && nodes[node.link].FileN?)
  {
    ValidPathIff(path);
    if node.HardlinkN? {
      ValidPathIff(node.link);
    }
  }

  /** Which error a refused call reports. */
  lemma {:induction false} RefusedFor(nodes: map<Path, Node>, path: Path, node: Node)
    ensures
      var e := Refusal(nodes, path, node);
      var canonical := Canonical(path) && (node.HardlinkN? ==> Canonical(node.link));
      && (e == Some(ErrInvalidPath) <==> !canonical)
      && (e == Some(ErrDuplicate) <==> canonical && path in nodes)
      && (e == Some(ErrEmptyTarget) <==> canonical && path !in nodes && node.SymlinkN? && node.target == [])
      && (e == Some(ErrHardlinkTarget) <==>
            canonical && path !in nodes && node.HardlinkN? && !(node.link in nodes && nodes[node.link].FileN?))
      && e != Some(ErrClosed) && e != Some(ErrStaleEntry)
  {
    ValidPathIff(path);
    if node.HardlinkN? {
      ValidPathIff(node.link);
    }
  }

  ghost predicate MadeAt(ops: seq<Op>, i: nat, p: Path, node: Node)
  {
    i < |ops| && Made(ops, i) && ops[i].path == p && ops[i].node == node
  }

  /** `nodes` is what the calls that took effect made. */
  ghost predicate Collects(ops: seq<Op>, nodes: map<Path, Node>)
  {
    && (forall i: nat | i < |ops| && Made(ops, i) :: ops[i].path in nodes && nodes[ops[i].path] == ops[i].node)
    && (forall p | p in nodes :: exists i: nat :: MadeAt(ops, i, p, nodes[p]))
  }

  lemma {:induction false} CollectsCanonical(ops: seq<Op>, nodes: map<Path, Node>)
    requires Collects(ops, nodes)
    ensures forall p | p in nodes :: Canonical(p)
  {
  }

  /** The last call takes effect exactly if it is not refused. */
  lemma {:induction false} LastMade(ops: seq<Op>, nodes: map<Path, Node>)
    requires ops != [] && ops[|ops| - 1].Create? && Collects(ops[..|ops| - 1], nodes)
    ensures Made(ops, |ops| - 1) <==> Refusal(nodes, ops[|ops| - 1].path, ops[|ops| - 1].node).None?
  {
    var n := |ops| - 1;
    var head, path, node := ops[..n], ops[n].path, ops[n].node;
    CollectsCanonical(head, nodes);
    AcceptedIff(nodes, path, node);
    forall j: nat | j < n
      ensures Made(head, j) <==> Made(ops, j)
    {
      MadeBefore(ops, n, j);
    }
    if path in nodes {
      var j: nat :| MadeAt(head, j, path, nodes[path]);
      assert Made(ops, j) && ops[j].path == path;
    }
    if node.HardlinkN? && node.link in nodes {
      var j: nat :| MadeAt(head, j, node.link, nodes[node.link]);
      assert Made(ops, j) && ops[j].path == node.link && ops[j].node == nodes[node.link];
    }
  }

  lemma {:induction false} StillCollects(ops: seq<Op>, nodes: map<Path, Node>)
    requires ops != [] && Collects(ops[..|ops| - 1], nodes) && !Made(ops, |ops| - 1)
    ensures Collects(ops, nodes)
  {
    var n := |ops| - 1;
    forall i: nat | i < n
      ensures Made(ops[..n], i) <==> Made(ops, i)
    {
      MadeBefore(ops, n, i);
    }
    forall p | p in nodes
      ensures exists i: nat :: MadeAt(ops, i, p, nodes[p])
    {
      EarlierMade(ops, nodes, p);
    }
  }

  lemma {:induction false} CollectsMore(ops: seq<Op>, nodes: map<Path, Node>)
    requires ops != [] && Collects(ops[..|ops| - 1], nodes) && Made(ops, |ops| - 1)
    ensures Collects(ops, nodes[ops[|ops| - 1].path := ops[|ops| - 1].node])
  {
    var n := |ops| - 1;
    var path, more := ops[n].path, nodes[ops[n].path := ops[n].node];
    forall i: nat | i < |ops| && Made(ops, i)
      ensures ops[i].path in more && more[ops[i].path] == ops[i].node
    {
      if i < n {
        EarlierKept(ops, nodes, i);
      }
    }
    assert MadeAt(ops, n, path, more[path]);
    forall p | p in more && p != path
      ensures exists i: nat :: MadeAt(ops, i, p, more[p])
    {
      EarlierMade(ops, nodes, p);
    }
  }

  lemma {:induction false} EarlierKept(ops: seq<Op>, nodes: map<Path, Node>, i: nat)
    requires i < |ops| - 1 && Collects(ops[..|ops| - 1], nodes) && Made(ops, i) && Made(ops, |ops| - 1)
    ensures ops[i].path != ops[|ops| - 1].path && ops[i].path in nodes && nodes[ops[i].path] == ops[i].node
  {
    MadeBefore(ops, |ops| - 1, i);
    assert Made(ops[..|ops| - 1], i);
  }

  lemma {:induction false} EarlierMade(ops: seq<Op>, nodes: map<Path, Node>, p: Path)
    requires ops != [] && Collects(ops[..|ops| - 1], nodes) && p in nodes
    ensures exists i: nat :: MadeAt(ops, i, p, nodes[p])
  {
    var n := |ops| - 1;
    var i: nat :| MadeAt(ops[..n], i, p, nodes[p]);
    MadeBefore(ops, n, i);
    assert MadeAt(ops, i, p, nodes[p]);
  }

  /** The tree holds, at each path, what the one call that took effect there asked for, and nothing else. */
  lemma {:induction false} NodesAre(ops: seq<Op>)
    ensures Collects(ops, TreeRun(ops).nodes)
    decreases |ops|
  {
    if ops != [] {
      var n := |ops| - 1;
      NodesAre(ops[..n]);
      var nodes := TreeRun(ops[..n]).nodes;
      if ops[n].Create? {
        LastMade(ops, nodes);
      }
      if Made(ops, n) {
        CollectsMore(ops, nodes);
      } else {
        StillCollects(ops, nodes);
      }
    }
  }

  // ---- What a file collects ----

  /** Where the next Create* call at or behind `i` is, refused or not; the end if there is none. */
  function NextCreate(ops: seq<Op>, i: nat): (m: nat)
    requires i <= |ops|
    ensures i <= m <= |ops| && (m < |ops| ==> ops[m].Create?)
    ensures forall k | i <= k < m :: ops[k].Write?
    decreases |ops| - i
  {
    if i == |ops| || ops[i].Create? then i else NextCreate(ops, i + 1)
  }

  lemma {:induction false} NextCreateIs(ops: seq<Op>, i: nat, m: nat)
    requires i <= m <= |ops| && (m < |ops| ==> ops[m].Create?) && forall k | i <= k < m :: ops[k].Write?
    ensures NextCreate(ops, i) == m
  {
  }

  /** The data written to `p`, joined. */
  function Sent(ops: seq<Op>, p: Path): (r: Bytes)
  {
    if ops == [] then []
    else
      var op := ops[|ops| - 1];
      Sent(ops[..|ops| - 1], p) + if op.Write? && op.path == p then op.data else []
  }

  /** The file made by call `i` has what was written to it up to the next Create* call. */
  function Collected(ops: seq<Op>, i: nat): (r: Bytes)
    requires i < |ops|
  {
    Sent(ops[i + 1..NextCreate(ops, i + 1)], ops[i].path)
  }

  ghost predicate MadeFile(ops: seq<Op>, i: nat)
  {
    i < |ops| && Made(ops, i) && ops[i].node.FileN?
  }

  /** The tree has what the file collected, and knows whether it is still open. */
  ghost predicate FileIs(ops: seq<Op>, t: Tree, i: nat)
    requires i < |ops|
  {
    && ops[i].path in t.contents && t.contents[ops[i].path] == Collected(ops, i)
    && (NextCreate(ops, i + 1) == |ops| <==> t.cur == Some(ops[i].path))
  }

  ghost predicate FilesAre(ops: seq<Op>, t: Tree)
  {
    forall i: nat | MadeFile(ops, i) :: FileIs(ops, t, i)
  }

  lemma {:induction false} SentOneMore(ops: seq<Op>, i: nat, n: nat, p: Path)
    requires i <= n < |ops| && ops[n].Write?
    ensures Sent(ops[i..n + 1], p) == Sent(ops[i..n], p) + if ops[n].path == p then ops[n].data else []
  {
    var all := ops[i..n + 1];
    assert all[..|all| - 1] == ops[i..n] && all[|all| - 1] == ops[n];
  }

  lemma {:induction false} BehindCreate(ops: seq<Op>, i: nat)
    requires i < |ops| - 1 && ops[|ops| - 1].Create?
    ensures Collected(ops, i) == Collected(ops[..|ops| - 1], i) && NextCreate(ops, i + 1) < |ops|
  {
    var n := |ops| - 1;
    var m := NextCreate(ops[..n], i + 1);
    NextCreateIs(ops, i + 1, m);
    SliceOfTake(ops, n, i + 1, m);
  }

  lemma {:induction false} BehindWrite(ops: seq<Op>, i: nat)
    requires i < |ops| - 1 && ops[|ops| - 1].Write?
    ensures
      var n := |ops| - 1;
      var live := NextCreate(ops[..n], i + 1) == n;
      && (NextCreate(ops, i + 1) == |ops| <==> live)
      && Collected(ops, i) == Collected(ops[..n], i)
           + if live && ops[n].path == ops[i].path then ops[n].data else []
  {
    var n := |ops| - 1;
    var m := NextCreate(ops[..n], i + 1);
    SliceOfTake(ops, n, i + 1, m);
    if m == n {
      NextCreateIs(ops, i + 1, n + 1);
      SentOneMore(ops, i + 1, n, ops[i].path);
    } else {
      NextCreateIs(ops, i + 1, m);
    }
  }

  lemma {:induction false} FileKept(ops: seq<Op>, i: nat)
    requires i < |ops| - 1 && MadeFile(ops, i)
    ensures MadeFile(ops[..|ops| - 1], i)
  {
    MadeBefore(ops, |ops| - 1, i);
  }

  lemma {:induction false} OldFileStays(ops: seq<Op>, t: Tree, i: nat)
    requires i < |ops| - 1 && MadeFile(ops, i) && ops[|ops| - 1].Create? && FileIs(ops[..|ops| - 1], t, i)
    requires Made(ops, |ops| - 1) <==> Refusal(t.nodes, ops[|ops| - 1].path, ops[|ops| - 1].node).None?
    ensures FileIs(ops, TreeStep(t, ops[|ops| - 1]), i)
  {
    BehindCreate(ops, i);
  }

  lemma {:induction false} NewFileIs(ops: seq<Op>, t: Tree, i: nat)
    requires i == |ops| - 1 && MadeFile(ops, i) && Refusal(t.nodes, ops[i].path, ops[i].node).None?
    ensures FileIs(ops, TreeStep(t, ops[i]), i)
  {
    assert ops[i + 1..i + 1] == [];
  }

  lemma {:induction false} FilesAfterCreate(ops: seq<Op>, t: Tree)
    requires ops != [] && ops[|ops| - 1].Create? && FilesAre(ops[..|ops| - 1], t)
    requires Collects(ops[..|ops| - 1], t.nodes)
    ensures FilesAre(ops, TreeStep(t, ops[|ops| - 1]))
  {
    var n := |ops| - 1;
    LastMade(ops, t.nodes);
    forall i: nat | MadeFile(ops, i)
      ensures FileIs(ops, TreeStep(t, ops[n]), i)
    {
      if i < n {
        FileKept(ops, i);
        OldFileStays(ops, t, i);
      } else {
        NewFileIs(ops, t, i);
      }
    }
  }

  lemma {:induction false} FilesAfterWrite(ops: seq<Op>, t: Tree)
    requires ops != [] && ops[|ops| - 1].Write? && FilesAre(ops[..|ops| - 1], t)
    ensures FilesAre(ops, TreeStep(t, ops[|ops| - 1]))
  {
    var n := |ops| - 1;
    forall i: nat | MadeFile(ops, i)
      ensures FileIs(ops, TreeStep(t, ops[n]), i)
    {
      FileKept(ops, i);
      BehindWrite(ops, i);
    }
  }

  lemma {:induction false} ContentsAre(ops: seq<Op>)
    ensures FilesAre(ops, TreeRun(ops))
    decreases |ops|
  {
    if ops != [] {
      var n := |ops| - 1;
      ContentsAre(ops[..n]);
      if ops[n].Create? {
        NodesAre(ops[..n]);
        FilesAfterCreate(ops, TreeRun(ops[..n]));
      } else {
        FilesAfterWrite(ops, TreeRun(ops[..n]));
      }
    }
  }

  // ---- What the image shows ----

  ghost predicate Shows(r: Option<Stat>, cfg: Config, ops: seq<Op>, i: nat)
    requires i < |ops| && ops[i].Create? && !ops[i].node.HardlinkN?
  {
    && r.Some? && SameOwner(r.value, cfg, ops[i].node.attrs)
    && IsWhat(r.value.what, ops[i].node, if ops[i].node.FileN? then Collected(ops, i) else [])
  }

  /** A call that made an entry other than a hard link shows in the image as it was asked for. */
  lemma {:induction false} CallShown(cfg: Config, ops: seq<Op>, i: nat)
    requires Finished(cfg, ops) && i < |ops| && Made(ops, i) && !ops[i].node.HardlinkN?
    ensures ValidPath(ops[i].path) && Shows(ShownAt(cfg, ops, ops[i].path), cfg, ops, i)
  {
    NodesAre(ops);
    ContentsAre(ops);
    TreeRecovered(cfg, ops, ops[i].path);
    if ops[i].node.FileN? {
      assert MadeFile(ops, i) && FileIs(ops, TreeRun(ops), i);
    }
  }

  /** A hard link shows the file it was made for. */
  lemma {:induction false} LinkShown(cfg: Config, ops: seq<Op>, i: nat) returns (j: nat)
    requires Finished(cfg, ops) && i < |ops| && Made(ops, i) && ops[i].node.HardlinkN?
    ensures j < i && MadeFile(ops, j) && ops[j].path == ops[i].node.link
    ensures ValidPath(ops[i].path) && Shows(ShownAt(cfg, ops, ops[i].path), cfg, ops, j)
  {
    j :| j < i && Made(ops, j) && ops[j].path == ops[i].node.link && ops[j].node.FileN?;
    NodesAre(ops);
    ContentsAre(ops);
    assert MadeFile(ops, j) && FileIs(ops, TreeRun(ops), j);
    TreeRecovered(cfg, ops, ops[i].path);
  }

  /** At names that no call made, there is nothing. */
  lemma {:induction false} OnlyCallsShow(cfg: Config, ops: seq<Op>, names: seq<Bytes>)
    requires Finished(cfg, ops) && names != []
    requires forall i: nat | i < |ops| && Made(ops, i) :: ops[i].path != PathFrom(Root, names)
    ensures Shown(cfg, ops, names) == None
  {
    NodesAre(ops);
    NothingElse(cfg, ops, names);
  }

  // ---- The image's own time ----

  /** Call `i` made an entry with a time of its own. */
  ghost predicate TimedCall(ops: seq<Op>, i: nat)
  {
    i < |ops| && Made(ops, i) && !ops[i].node.HardlinkN? && ops[i].node.attrs.mtime.Some?
  }

  ghost predicate IsLatest(ops: seq<Op>, time: int)
  {
    && (forall i: nat | TimedCall(ops, i) :: ops[i].node.attrs.mtime.value <= time)
    && (time == 0 || exists i: nat :: TimedCall(ops, i) && ops[i].node.attrs.mtime.value == time)
  }

  lemma {:induction false} LatestIs(x: Ctx, ops: seq<Op>, nodes: map<Path, Node>)
    requires Collects(ops, nodes) && (forall p :: p in x.order <==> p in nodes)
    requires forall p | p in nodes :: p in x.entries && x.entries[p].node == nodes[p]
    ensures IsLatest(ops, MaxMtime(x, x.order))
  {
    var time := MaxMtime(x, x.order);
    MaximumIs(x, x.order);
    forall i: nat | TimedCall(ops, i)
      ensures ops[i].node.attrs.mtime.value <= time
    {
      assert ops[i].path in x.order && Timed(x, ops[i].path);
    }
    if time != 0 {
      var p :| p in x.order && Timed(x, p) && AttrsOf(x.entries[p].node).mtime.value == time;
      var i: nat :| MadeAt(ops, i, p, nodes[p]);
      assert TimedCall(ops, i) && ops[i].node.attrs.mtime.value == time;
    }
  }

  lemma {:induction false} RunLatest(cfg: Config, ops: seq<Op>)
    requires GoodConfig(cfg)
    ensures IsLatest(ops, MaxMtime(Rooted(cfg, Final(cfg, ops)), Rooted(cfg, Final(cfg, ops)).order))
  {
    TreeIs(cfg, ops);
    NodesAre(ops);
    LatestIs(Rooted(cfg, Final(cfg, ops)), ops, TreeRun(ops).nodes);
  }

  /** A time that shows in a finished image is one of 32 bits. */
  lemma {:induction false} OwnerTime(cfg: Config, ops: seq<Op>, p: Path)
    requires Finished(cfg, ops) && (p == Root || p in TreeRun(ops).nodes)
    ensures
      var x := Rooted(cfg, Final(cfg, ops));
      p in x.entries && (x.entries[p].node.HardlinkN? || Mtime(cfg, AttrsOf(x.entries[p].node)).Some?)
  {
    var x := Rooted(cfg, Final(cfg, ops));
    TreeIs(cfg, ops);
    if !x.entries[p].node.HardlinkN? {
      TimeFits(cfg, ops, p);
    }
  }

  lemma {:induction false} LatestFits(x: Ctx)
    requires forall p | p in x.order && Timed(x, p) :: Mtime(x.cfg, AttrsOf(x.entries[p].node)).Some?
    ensures x.cfg.mtime.None? ==> 0 <= MaxMtime(x, x.order) <= 0xFFFF_FFFF
  {
    MaximumIs(x, x.order);
  }

  /** No time of a finished image needs clamping. */
  lemma {:induction false} RunTimeIs(cfg: Config, ops: seq<Op>)
    requires Finished(cfg, ops)
    ensures
      var x := Rooted(cfg, Final(cfg, ops));
      ImageMtime(x) == if cfg.mtime.Some? then cfg.mtime.value else MaxMtime(x, x.order)
  {
    var x := Rooted(cfg, Final(cfg, ops));
    OwnerTime(cfg, ops, Root);
    OrderIs(cfg, ops);
    forall p | p in x.order && Timed(x, p)
      ensures Mtime(x.cfg, AttrsOf(x.entries[p].node)).Some?
    {
      OwnerTime(cfg, ops, p);
    }
    LatestFits(x);
  }

  lemma {:induction false} OrderIs(cfg: Config, ops: seq<Op>)
    requires GoodConfig(cfg)
    ensures
      var x := Rooted(cfg, Final(cfg, ops));
      x.cfg == cfg && Root in x.entries && x.entries[Root].node == DirN(RootAttrs(cfg))
      && forall p | p in x.order :: p in TreeRun(ops).nodes
  {
    TreeIs(cfg, ops);
  }

  lemma {:induction false} ModTimeIs(cfg: Config, ops: seq<Op>, time: int)
    requires Finished(cfg, ops) && ImageMtime(Rooted(cfg, Final(cfg, ops))) == time
    ensures
      var sb := Superblock.Decode(ImageOf(cfg, Final(cfg, ops)).value);
      sb.Some? && sb.value.modTime == time
  {
    ImageGeometry(cfg, ops);
  }

  /** The superblock has the fixed time, or else the latest of the entries' times, zero if there is none. */
  lemma {:induction false} TimeShown(cfg: Config, ops: seq<Op>)
    requires Finished(cfg, ops)
    ensures Superblock.Decode(ImageOf(cfg, Final(cfg, ops)).value).Some?
    ensures
      var time := Superblock.Decode(ImageOf(cfg, Final(cfg, ops)).value).value.modTime;
      if cfg.mtime.Some? then time == cfg.mtime.value else IsLatest(ops, time)
  {
    RunTimeIs(cfg, ops);
    ModTimeIs(cfg, ops, ImageMtime(Rooted(cfg, Final(cfg, ops))));
    RunLatest(cfg, ops);
  }
}
