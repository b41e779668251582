/**
 * squashfs.Writer up to Close, as the objects it is: a Writer that owns the output and the entry
 * table, and the FileWriter handed out by CreateFile, which goes stale at the next call.
 */
module StreamWriter {
  import opened Bytes
  import opened Paths
  import opened Metadata
  import opened FileData
  import opened Superblock
  import opened WriterSpec
  import opened WriterProofs
  import Closing
  import CloseImage
  import ImageMain

  class FileWriter {
    const w: Writer
    const path: Path
    var buf: Bytes
    var stale: bool

    constructor (w: Writer, path: Path)
      ensures this.w == w && this.path == path && buf == [] && !stale
    {
      this.w := w;
      this.path := path;
      buf := [];
      stale := false;
    }

    /** A writer that is not stale is its Writer's current one. */
    ghost predicate Owned()
      reads this, w
    {
      !stale ==> w.curFile == this
    }

    method Write(p: Bytes) returns (written: nat, err: Option<Error>)
      requires w.Valid() && w.Reached() && Owned()
      modifies this, w
      ensures w.Valid() && w.Reached() && Owned() && stale == old(stale) && w.curFile == old(w.curFile)
      ensures w.ops == if err.None? then old(w.ops) + [Op.Write(path, p)] else old(w.ops)
      ensures err == if old(stale) then Some(ErrStaleEntry) else if old(w.closed) then Some(ErrClosed) else None
      ensures written == if err.None? then |p| else 0
      ensures w.View() == if err.None? then WriteStep(w.cfg.codec, w.cfg.blockSize, old(w.View()), path, p)
                else old(w.View())
      ensures w.closed == old(w.closed)
    {
      if stale {
        return 0, Some(ErrStaleEntry);
      }
      if w.closed {
        return 0, Some(ErrClosed);
      }
      ghost var op := Op.Write(path, p);
      NextRun(w.cfg, w.ops, w.View(), op);
      w.ops := w.ops + [op];
      Accept(p);
      return |p|, None;
    }

    method Accept(p: Bytes)
      requires w.Valid() && w.curFile == this
      modifies this`buf, w`out, w`outPos, w`entries
      ensures w.Valid()
      ensures w.View() == WriteStep(w.cfg.codec, w.cfg.blockSize, old(w.View()), path, p)
    {
      Fill(p);
      var e := w.entries[path];
      w.entries := w.entries[path := e.(size := e.size + |p|)];
    }

    /** The loop of Write. */
    method Fill(p: Bytes)
      requires w.Valid() && w.curFile == this
      modifies this`buf, w`out, w`outPos, w`entries
      ensures w.Valid()
      ensures w.View() == Feed(w.cfg.codec, w.cfg.blockSize, old(w.View()), p)
    {
      ghost var c, size, before := w.cfg.codec, w.cfg.blockSize, w.View();
      var rest := p;
      while |rest| > 0
        invariant w.Valid()
        invariant Feed(c, size, w.View(), rest) == Feed(c, size, before, p)
        decreases |rest|
      {
        var need := w.cfg.blockSize - |buf|;
        var n := |rest|;
        if n > need {
          n := need;
        }
        ghost var s := w.View();
        assert n == Room(size, s, rest);
        FillOnce(rest[..n]);
        rest := rest[n..];
      }
    }

    method FillOnce(q: Bytes)
      requires w.Valid() && w.curFile == this && q != [] && |buf| + |q| <= w.cfg.blockSize
      modifies this`buf, w`out, w`outPos, w`entries
      ensures w.Valid()
      ensures w.View() == Fed(w.cfg.codec, w.cfg.blockSize, old(w.View()), q)
    {
      buf := buf + q;
      if |buf| == w.cfg.blockSize {
        EmitBlock();
      }
    }

    /** Pack the buffer, append it to the output, note the size word. */
    method EmitBlock()
      requires w.curFile == this && !stale && path in w.entries && buf != []
      requires w.outPos == |w.out|
      modifies this`buf, w`out, w`outPos, w`entries
      ensures buf == [] && w.outPos == |w.out|
      ensures w.View() == EmitData(w.cfg.codec, old(w.View()))
    {
      var disk, sizeWord;
      match w.cfg.codec.compress(buf) {
        case Incompressible =>
          disk, sizeWord := buf, |buf| + RawDataBit;
        case Packed(out) =>
          if |out| >= |buf| {
            disk, sizeWord := buf, |buf| + RawDataBit;
          } else {
            disk, sizeWord := out, |out|;
          }
      }
      w.out := w.out + disk;
      w.outPos := w.outPos + |disk|;
      var e := w.entries[path];
      w.entries := w.entries[path := e.(sizes := e.sizes + [sizeWord])];
      buf := [];
    }

    method FlushTail()
      requires w.curFile == this && !stale && path in w.entries
      requires w.outPos == |w.out|
      modifies this`buf, w`out, w`outPos, w`entries
      ensures buf == [] && w.outPos == |w.out|
      ensures w.View() == if old(buf) == [] then old(w.View()) else EmitData(w.cfg.codec, old(w.View()))
    {
      if |buf| == 0 {
        return;
      }
      EmitBlock();
    }
  }

  class Writer {
    const cfg: Config
    var closed: bool
    var out: Bytes
    var outPos: nat
    var entries: map<Path, Entry>
    var entryOrder: seq<Path>
    var curFile: FileWriter?
    /** The calls made so far. */
    ghost var ops: seq<Op>

    /** Until Close, the object is in the state the calls lead to. */
    ghost predicate Reached()
      reads this, curFile
    {
      closed || Run(cfg.codec, cfg.blockSize, ops) == Some(View())
    }

    ghost predicate Valid()
      reads this, curFile
    {
      && cfg.blockSize > 0
      && outPos == |out| && |out| >= SuperblockSize
      && (curFile != null ==>
            curFile.w == this && !curFile.stale && curFile.path in entries && |curFile.buf| < cfg.blockSize)
    }

    ghost function View(): State
      reads this, curFile
    {
      State(out, entries, entryOrder, if curFile == null then None else Some(Cur(curFile.path, curFile.buf)))
    }

    constructor (cfg: Config)
      requires ValidBlockSize(cfg.blockSize)
      ensures Valid() && Reached() && View() == Start() && !closed && this.cfg == cfg && curFile == null && ops == []
    {
      this.cfg := cfg;
      closed := false;
      out := seq(SuperblockSize, _ => 0);
      outPos := SuperblockSize;
      entries := map[];
      entryOrder := [];
      curFile := null;
      ops := [];
    }

    method FlushCurFile()
      requires Valid()
      modifies this, curFile
      ensures Valid() && curFile == null && closed == old(closed) && ops == old(ops)
      ensures View() == FlushCur(cfg.codec, old(View()))
      ensures old(curFile) != null ==> old(curFile).stale
    {
      if curFile == null {
        return;
      }
      curFile.FlushTail();
      curFile.stale := true;
      curFile := null;
    }

    /** The bookkeeping shared by every Create* call: closed, flush, path, duplicate. */
    method BeginEntry(p: Path) returns (err: Option<Error>)
      requires Valid()
      modifies this, curFile
      ensures Valid() && closed == old(closed) && ops == old(ops)
      ensures old(closed) ==> err == Some(ErrClosed) && View() == old(View()) && curFile == old(curFile)
      ensures !old(closed) ==> curFile == null && View() == FlushCur(cfg.codec, old(View()))
      ensures !old(closed) ==>
                err == if !ValidPath(p) then Some(ErrInvalidPath) else if p in entries then Some(ErrDuplicate) else None
      ensures !old(closed) ==> (err.None? <==> Canonical(p) && p !in old(entries))
      ensures !old(closed) && old(curFile) != null ==> old(curFile).stale
    {
      if closed {
        return Some(ErrClosed);
      }
      FlushCurFile();
      FlushKeepsKeys(cfg.codec, old(View()));
      ValidPathIff(p);
      if !ValidPath(p) {
        return Some(ErrInvalidPath);
      }
      if p in entries {
        return Some(ErrDuplicate);
      }
      return None;
    }

    method AddEntry(path: Path, node: Node)
      requires Valid() && curFile == null
      modifies this`entries, this`entryOrder
      ensures Valid()
      ensures View() == old(View()).(entries := old(entries)[path := Entry(node, |out|, [], 0)],
                order := old(entryOrder) + [path])
    {
      entries := entries[path := Entry(node, outPos, [], 0)];
      entryOrder := entryOrder + [path];
    }

    method CreateFile(path: Path, attrs: Attrs) returns (fw: FileWriter?, err: Option<Error>)
      requires Valid() && Reached()
      modifies this, curFile
      ensures Valid() && Reached() && closed == old(closed)
      ensures ops == if old(closed) then old(ops) else old(ops) + [Create(path, FileN(attrs))]
      ensures old(closed) ==> err == Some(ErrClosed) && View() == old(View())
      ensures !old(closed) ==> View() == CreateStep(cfg.codec, old(View()), path, FileN(attrs))
      ensures !old(closed) ==> err == Refusal(NodesOf(old(entries)), path, FileN(attrs))
      ensures err.None? <==> !old(closed) && Canonical(path) && path !in old(entries)
      ensures !old(closed) ==> curFile == fw && (fw != null <==> err.None?)
      ensures fw != null ==> fresh(fw) && fw.Owned() && !fw.stale && fw.path == path
      ensures !old(closed) && old(curFile) != null ==> old(curFile).stale
    {
      if !closed {
        NextRun(cfg, ops, View(), Create(path, FileN(attrs)));
        ops := ops + [Create(path, FileN(attrs))];
      }
      err := BeginEntry(path);
      FlushKeepsKeys(cfg.codec, old(View()));
      if err.Some? {
        return null, err;
      }
      AddEntry(path, FileN(attrs));
      fw := new FileWriter(this, path);
      curFile := fw;
    }

    /** CreateDir, CreateFIFO, CreateSocket and the device calls differ only in the node. */
    method CreatePlain(path: Path, node: Node) returns (err: Option<Error>)
      requires Valid() && Reached() && !node.FileN? && !node.SymlinkN? && !node.HardlinkN?
      modifies this, curFile
      ensures Valid() && Reached() && closed == old(closed)
      ensures ops == if old(closed) then old(ops) else old(ops) + [Create(path, node)]
      ensures old(closed) ==> err == Some(ErrClosed) && View() == old(View())
      ensures !old(closed) ==> curFile == null && View() == CreateStep(cfg.codec, old(View()), path, node)
      ensures !old(closed) ==> err == Refusal(NodesOf(old(entries)), path, node)
      ensures err.None? <==> !old(closed) && Canonical(path) && path !in old(entries)
      ensures !old(closed) && old(curFile) != null ==> old(curFile).stale
    {
      if !closed {
        NextRun(cfg, ops, View(), Create(path, node));
        ops := ops + [Create(path, node)];
      }
      err := BeginEntry(path);
      FlushKeepsKeys(cfg.codec, old(View()));
      if err.Some? {
        return;
      }
      AddEntry(path, node);
    }

    method CreateSymlink(path: Path, attrs: Attrs, target: Bytes) returns (err: Option<Error>)
      requires Valid() && Reached()
      modifies this, curFile
      ensures Valid() && Reached() && closed == old(closed)
      ensures ops == if old(closed) then old(ops) else old(ops) + [Create(path, SymlinkN(attrs, target))]
      ensures old(closed) ==> err == Some(ErrClosed) && View() == old(View())
      ensures !old(closed) ==> curFile == null && View() == CreateStep(cfg.codec, old(View()), path,
                SymlinkN(attrs, target))
      ensures !old(closed) ==> err == Refusal(NodesOf(old(entries)), path, SymlinkN(attrs, target))
      ensures err.None? <==> !old(closed) && Canonical(path) && path !in old(entries) && target != []
      ensures !old(closed) && old(curFile) != null ==> old(curFile).stale
    {
      if !closed {
        NextRun(cfg, ops, View(), Create(path, SymlinkN(attrs, target)));
        ops := ops + [Create(path, SymlinkN(attrs, target))];
      }
      err := BeginEntry(path);
      FlushKeepsKeys(cfg.codec, old(View()));
      if err.Some? {
        return;
      }
      if target == [] {
        return Some(ErrEmptyTarget);
      }
      AddEntry(path, SymlinkN(attrs, target));
    }

    method CreateHardlink(linkPath: Path, target: Path) returns (err: Option<Error>)
      requires Valid() && Reached()
      modifies this, curFile
      ensures Valid() && Reached() && closed == old(closed)
      ensures ops == if old(closed) then old(ops) else old(ops) + [Create(linkPath, HardlinkN(target))]
      ensures old(closed) ==> err == Some(ErrClosed) && View() == old(View())
      ensures !old(closed) ==> curFile == null && View() == CreateStep(cfg.codec, old(View()), linkPath,
                HardlinkN(target))
      ensures !old(closed) ==> err == Refusal(NodesOf(old(entries)), linkPath, HardlinkN(target))
      ensures err.None? <==>
                && !old(closed) && Canonical(linkPath) && linkPath !in old(entries)
                && target in old(entries) && old(entries)[target].node.FileN?
      ensures !old(closed) && old(curFile) != null ==> old(curFile).stale
    {
      if !closed {
        NextRun(cfg, ops, View(), Create(linkPath, HardlinkN(target)));
        ops := ops + [Create(linkPath, HardlinkN(target))];
      }
      if closed {
        return Some(ErrClosed);
      }
      if target in entries {
        EntryValid(cfg, old(ops), old(View()), target);
      }
      FlushCurFile();
      FlushKeepsKeys(cfg.codec, old(View()));
      ValidPathIff(linkPath);
      if !ValidPath(linkPath) {
        return Some(ErrInvalidPath);
      }
      if !ValidPath(target) {
        return Some(ErrInvalidPath);
      }
      if linkPath in entries {
        return Some(ErrDuplicate);
      }
      if target !in entries || !entries[target].node.FileN? {
        return Some(ErrHardlinkTarget);
      }
      AddEntry(linkPath, HardlinkN(target));
      return None;
    }

    /**
     * The image is a function of the calls alone: the Go maps Close ranges over may give any
     * order. A refused Close has written nothing behind the data blocks.
     */
    method Close() returns (ok: bool)
      requires Valid() && Reached()
      modifies this, curFile
      ensures Valid() && closed && ops == old(ops)
      ensures old(closed) ==> !ok && View() == old(View())
      ensures !old(closed) ==> curFile == null && (old(curFile) != null ==> old(curFile).stale)
      ensures !old(closed) ==> ImageMain.Outcome(cfg, ImageMain.Final(cfg, ops), ok, out)
    {
      if closed {
        return false;
      }
      FlushCurFile();
      closed := true;
      ok := WriteTables();
    }

    method WriteTables() returns (ok: bool)
      requires Valid() && curFile == null && View() == ImageMain.Final(cfg, ops)
      modifies this`out, this`outPos
      ensures Valid() && ImageMain.Outcome(cfg, ImageMain.Final(cfg, ops), ok, out)
    {
      ghost var s := View();
      FinalReady(cfg, ops, s);
      ok, out := Sealed(cfg, out, entries, entryOrder, s);
      outPos := |out|;
    }
  }

  method Sealed(cfg: Config, out: Bytes, entries: map<Path, Entry>, order: seq<Path>, ghost s: State)
    returns (ok: bool, img: Bytes)
    requires cfg.blockSize > 0 && |out| >= SuperblockSize && s == State(out, entries, order, None)
    requires Closing.BaseCtx(Closing.Rooted(cfg, s))
    ensures |img| >= SuperblockSize && ImageMain.Outcome(cfg, s, ok, img)
  {
    var r := CloseImage.BuildImage(cfg, out, entries, order);
    if r.None? {
      return false, out;
    }
    ImageMain.ImageLong(cfg, s);
    return true, r.value;
  }

  lemma {:induction false} FinalReady(cfg: Config, ops: seq<Op>, s: State)
    requires cfg.blockSize > 0 && s == ImageMain.Final(cfg, ops)
    ensures Closing.BaseCtx(Closing.Rooted(cfg, s))
  {
    ImageMain.FinalBase(cfg, ops);
  }

  lemma {:induction false} NextRun(cfg: Config, ops: seq<Op>, s: State, op: Op)
    requires cfg.blockSize > 0 && Run(cfg.codec, cfg.blockSize, ops) == Some(s)
    ensures Ready(cfg.blockSize, s)
    ensures Run(cfg.codec, cfg.blockSize, ops + [op]) == Some(Step(cfg.codec, cfg.blockSize, s, op))
  {
    RunInv(cfg.codec, cfg.blockSize, ops);
    StepInv(cfg.codec, cfg.blockSize, s, TreeRun(ops), op);
    SnocLaw(ops, op);
  }

  lemma {:induction false} SnocLaw(ops: seq<Op>, op: Op)
    ensures var all := ops + [op]; all != [] && all[..|all| - 1] == ops && all[|all| - 1] == op
  {
  }

  /** Only accepted paths are in the table. */
  lemma {:induction false} EntryValid(cfg: Config, ops: seq<Op>, s: State, p: Path)
    requires cfg.blockSize > 0 && Run(cfg.codec, cfg.blockSize, ops) == Some(s) && p in s.entries
    ensures ValidPath(p)
  {
    RunInv(cfg.codec, cfg.blockSize, ops);
    assert p in NodesOf(s.entries) && NodeOk(TreeRun(ops).nodes, p);
  }

  /** Sealing a file changes no entry's kind, so the later checks see the same table. */
  lemma {:induction false} FlushKeepsKeys(c: Codec, s: State)
    requires s.cur.Some? ==> s.cur.value.path in s.entries
    ensures NodesOf(FlushCur(c, s).entries) == NodesOf(s.entries)
    ensures FlushCur(c, s).entries.Keys == s.entries.Keys
  {
    if s.cur.Some? && s.cur.value.buf != [] {
      var f := s.cur.value.path;
      SameNodes(s.entries, f, FlushCur(c, s).entries[f]);
    }
  }
}
