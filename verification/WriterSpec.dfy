/**
 * The streaming half of squashfs/writer.go, twice: as the abstract filesystem a caller builds
 * call by call, and as the state the writer really keeps (bytes already out, block sizes, the
 * buffered tail of the file being written). The invariant ties the second to the first.
 */
module WriterSpec {
  import opened Bytes
  import opened Paths
  import opened Chunking
  import opened Metadata
  import opened FileData
  import opened Superblock

  /** `mtime` is None for Go's zero time, else seconds since the epoch. */
  datatype Attrs = Attrs(mode: u32, uid: u32, gid: u32, mtime: Option<int>)

  datatype Node =
    | FileN(attrs: Attrs)
    | DirN(attrs: Attrs)
    | SymlinkN(attrs: Attrs, target: Bytes)
    | HardlinkN(link: Path)
    | CharN(attrs: Attrs, major: u32, minor: u32)
    | BlockN(attrs: Attrs, major: u32, minor: u32)
    | FifoN(attrs: Attrs)
    | SocketN(attrs: Attrs)

  datatype Error =
    | ErrClosed | ErrInvalidPath | ErrDuplicate | ErrHardlinkTarget | ErrEmptyTarget | ErrStaleEntry

  datatype Config = Config(codec: Codec, blockSize: nat, mtime: Option<int>, compressorId: u16)

  ghost predicate GoodConfig(cfg: Config)
  {
    Faithful(cfg.codec) && ValidBlockSize(cfg.blockSize)
  }

  datatype Op = Create(path: Path, node: Node) | Write(path: Path, data: Bytes)

  // ---- What the caller means ----

  /** `cur` is the file whose writer is still live. */
  datatype Tree = Tree(nodes: map<Path, Node>, contents: map<Path, Bytes>, order: seq<Path>, cur: Option<Path>)

  const NoTree := Tree(map[], map[], [], None)

  /** The checks of the Create* methods, in their order. */
  function Refusal(nodes: map<Path, Node>, path: Path, node: Node): (r: Option<Error>)
  {
    if !ValidPath(path) then Some(ErrInvalidPath)
    else if node.HardlinkN? && !ValidPath(node.link) then Some(ErrInvalidPath)
    else if path in nodes then Some(ErrDuplicate)
    else if node.SymlinkN? && node.target == [] then Some(ErrEmptyTarget)
    else if node.HardlinkN? && !(node.link in nodes && nodes[node.link].FileN?) then Some(ErrHardlinkTarget)
    else None
  }

  function TreeStep(t: Tree, op: Op): (r: Tree)
  {
    match op
    case Create(path, node) =>
      if Refusal(t.nodes, path, node).Some? then t.(cur := None)
      else
        Tree(t.nodes[path := node], if node.FileN? then t.contents[path := []] else t.contents, t.order + [path],
             if node.FileN? then Some(path) else None)
    case Write(path, data) =>
      if t.cur == Some(path) && path in t.contents then
        t.(contents := t.contents[path := t.contents[path] + data])
      else t
  }

  function TreeRun(ops: seq<Op>): (r: Tree)
  {
    if ops == [] then NoTree else TreeStep(TreeRun(ops[..|ops| - 1]), ops[|ops| - 1])
  }

  // ---- What the writer does ----

  datatype Entry = Entry(node: Node, start: nat, sizes: seq<nat>, size: nat)

  datatype Cur = Cur(path: Path, buf: Bytes)

  datatype State = State(out: Bytes, entries: map<Path, Entry>, order: seq<Path>, cur: Option<Cur>)

  function Start(): (s: State)
  {
    State(seq(SuperblockSize, _ => 0), map[], [], None)
  }

  /** emitBlock: pack the buffer, append it to the output, note its size word. */
  function EmitData(c: Codec, s: State): (r: State)
    requires s.cur.Some? && s.cur.value.path in s.entries
    ensures r.order == s.order && r.entries.Keys == s.entries.Keys
  {
    var f := s.cur.value;
    var b := Shrink(c, f.buf);
    var e := s.entries[f.path];
    State(s.out + b.data, s.entries[f.path := e.(sizes := e.sizes + [SizeWord(b)])], s.order, Some(Cur(f.path, [])))
  }

  /** flushCurFile: emit the tail if there is one; no file is live afterwards. */
  function FlushCur(c: Codec, s: State): (r: State)
    requires s.cur.Some? ==> s.cur.value.path in s.entries
    ensures r.cur == None
  {
    if s.cur.None? then s
    else if s.cur.value.buf == [] then s.(cur := None)
    else EmitData(c, s).(cur := None)
  }

  function NodesOf(entries: map<Path, Entry>): (m: map<Path, Node>)
  {
    map p | p in entries :: entries[p].node
  }

  function CreateStep(c: Codec, s: State, path: Path, node: Node): (r: State)
    requires s.cur.Some? ==> s.cur.value.path in s.entries
  {
    var f := FlushCur(c, s);
    if Refusal(NodesOf(f.entries), path, node).Some? then f
    else
      State(f.out, f.entries[path := Entry(node, |f.out|, [], 0)], f.order + [path],
            if node.FileN? then Some(Cur(path, [])) else None)
  }

  /** One turn of the write loop: fill the buffer, emit it when it is full. */
  function Fed(c: Codec, blockSize: nat, s: State, q: Bytes): (r: State)
    requires s.cur.Some? && s.cur.value.path in s.entries && |s.cur.value.buf| + |q| <= blockSize && blockSize > 0
    ensures r.cur.Some? && r.cur.value.path == s.cur.value.path && |r.cur.value.buf| < blockSize
    ensures r.order == s.order && r.entries.Keys == s.entries.Keys
  {
    var f := s.cur.value;
    var filled := s.(cur := Some(Cur(f.path, f.buf + q)));
    if |f.buf| + |q| == blockSize then EmitData(c, filled) else filled
  }

  function Room(blockSize: nat, s: State, p: Bytes): (n: nat)
    requires s.cur.Some? && |s.cur.value.buf| < blockSize
    ensures n <= |p| && n <= blockSize - |s.cur.value.buf| && (p != [] ==> n > 0)
  {
    if |p| > blockSize - |s.cur.value.buf| then blockSize - |s.cur.value.buf| else |p|
  }

  function Feed(c: Codec, blockSize: nat, s: State, p: Bytes): (r: State)
    requires s.cur.Some? && s.cur.value.path in s.entries && |s.cur.value.buf| < blockSize
    ensures r.cur.Some? && r.cur.value.path == s.cur.value.path && |r.cur.value.buf| < blockSize
    ensures r.order == s.order && r.entries.Keys == s.entries.Keys
    decreases |p|
  {
    if p == [] then s
    else
      var n := Room(blockSize, s, p);
      Feed(c, blockSize, Fed(c, blockSize, s, p[..n]), p[n..])
  }

  function WriteStep(c: Codec, blockSize: nat, s: State, path: Path, data: Bytes): (r: State)
    requires s.cur.Some? ==> s.cur.value.path in s.entries && |s.cur.value.buf| < blockSize
  {
    if s.cur.Some? && s.cur.value.path == path then
      var f := Feed(c, blockSize, s, data);
      var e := f.entries[path];
      f.(entries := f.entries[path := e.(size := e.size + |data|)])
    else s
  }

  // ---- The invariant ----

  /** How a file's contents are cut into blocks: the last one is closed once the file is sealed. */
  function Layout(blockSize: nat, data: Bytes, live: bool): (ch: Chunks)
    requires blockSize > 0
  {
    var ch := Append(blockSize, Empty, data);
    if live then ch else Seal(ch)
  }

  /** One file's entry agrees with the bytes accepted for it. */
  predicate Placed(c: Codec, blockSize: nat, out: Bytes, e: Entry, data: Bytes, live: bool)
    requires blockSize > 0
  {
    var done := Layout(blockSize, data, live).done;
    && SuperblockSize <= e.start
    && At(out, e.start, Disk(c, done))
    && e.sizes == SizeWords(c, done)
    && e.size == |data|
  }

  function End(c: Codec, blockSize: nat, e: Entry, data: Bytes, live: bool): nat
    requires blockSize > 0
  {
    e.start + |Disk(c, Layout(blockSize, data, live).done)|
  }

  predicate Live(t: Tree, p: Path)
  {
    t.cur == Some(p)
  }

  /** What every tree built by calls satisfies. */
  ghost predicate TreeOk(t: Tree)
  {
    && (forall p :: p in t.contents <==> p in t.nodes && t.nodes[p].FileN?)
    && (forall p :: p in t.order <==> p in t.nodes)
    && (forall i, j | 0 <= i < j < |t.order| :: t.order[i] != t.order[j])
    && (forall p | p in t.nodes :: NodeOk(t.nodes, p))
    && (t.cur.Some? ==> t.cur.value in t.contents && t.order != [] && t.order[|t.order| - 1] == t.cur.value)
  }

  predicate NodeOk(nodes: map<Path, Node>, p: Path)
    requires p in nodes
  {
    && ValidPath(p)
    && (nodes[p].HardlinkN? ==> nodes[p].link in nodes && nodes[nodes[p].link].FileN?)
    && (nodes[p].SymlinkN? ==> nodes[p].target != [])
  }

  ghost predicate SameShape(s: State, t: Tree)
  {
    && s.order == t.order
    && NodesOf(s.entries) == t.nodes
    && (s.cur.Some? <==> t.cur.Some?)
    && (t.cur.Some? ==> s.cur.value.path == t.cur.value)
  }

  /** Each file's blocks decode to the bytes accepted for it so far. */
  ghost predicate FilesPlaced(c: Codec, blockSize: nat, s: State, t: Tree)
    requires blockSize > 0
  {
    forall p | p in t.contents && p in s.entries ::
      Placed(c, blockSize, s.out, s.entries[p], t.contents[p], Live(t, p))
  }

  /** The live file's blocks end where the output ends, and its buffer is the rest of it. */
  ghost predicate TailBuffered(c: Codec, blockSize: nat, s: State, t: Tree)
    requires blockSize > 0
  {
    t.cur.Some? && t.cur.value in t.contents && t.cur.value in s.entries && s.cur.Some? ==>
      && s.cur.value.buf == Layout(blockSize, t.contents[t.cur.value], true).cur
      && |s.out| == End(c, blockSize, s.entries[t.cur.value], t.contents[t.cur.value], true)
  }

  /** Regions follow one another in the order the files were created. */
  ghost predicate Ordered(c: Codec, blockSize: nat, s: State, t: Tree)
    requires blockSize > 0
  {
    forall i, j | 0 <= i < j < |t.order| :: Before(c, blockSize, s, t, t.order[i], t.order[j])
  }

  predicate Before(c: Codec, blockSize: nat, s: State, t: Tree, a: Path, b: Path)
    requires blockSize > 0
  {
    a in t.contents && b in t.contents && a in s.entries && b in s.entries ==>
      End(c, blockSize, s.entries[a], t.contents[a], Live(t, a)) <= s.entries[b].start
  }

  ghost predicate Inv(c: Codec, blockSize: nat, s: State, t: Tree)
    requires blockSize > 0
  {
    && SuperblockSize <= |s.out|
    && TreeOk(t)
    && SameShape(s, t)
    && FilesPlaced(c, blockSize, s, t)
    && TailBuffered(c, blockSize, s, t)
    && Ordered(c, blockSize, s, t)
  }
}
