/** Every run of Create* and Write calls keeps the writer's state in step with what was asked for. */
module WriterProofs {
  import opened Bytes
  import opened Paths
  import opened Chunking
  import opened Metadata
  import opened FileData
  import opened Superblock
  import opened WriterSpec

  /** The output and the size list advance exactly as the cutting into blocks does. */
  lemma {:induction false} FeedLayout(c: Codec, size: nat, s: State, ch: Chunks, p: Bytes, base: Bytes)
    requires s.cur.Some? && s.cur.value.path in s.entries && |ch.cur| < size
    requires s.cur.value.buf == ch.cur
    requires s.entries[s.cur.value.path].sizes == SizeWords(c, ch.done)
    requires s.out == base + Disk(c, ch.done)
    ensures
      var f := s.cur.value.path;
      var r, end := Feed(c, size, s, p), Append(size, ch, p);
      && r.cur.value.buf == end.cur
      && r.out == base + Disk(c, end.done)
      && r.entries == s.entries[f := s.entries[f].(sizes := SizeWords(c, end.done))]
    decreases |p|
  {
    var f := s.cur.value.path;
    if p == [] {
      assert s.entries == s.entries[f := s.entries[f].(sizes := SizeWords(c, ch.done))];
    } else {
      var n := if |p| > size - |ch.cur| then size - |ch.cur| else |p|;
      var filled := s.(cur := Some(Cur(f, ch.cur + p[..n])));
      if |ch.cur| + n == size {
        var s1 := EmitData(c, filled);
        DiskSnoc(c, ch.done, ch.cur + p[..n]);
        Assoc(base, Disk(c, ch.done), Shrink(c, ch.cur + p[..n]).data);
        FeedLayout(c, size, s1, Push(size, ch, p[..n]), p[n..], base);
      } else {
        FeedLayout(c, size, filled, Push(size, ch, p[..n]), p[n..], base);
      }
    }
  }

  /** A file already placed is not disturbed by what is appended to the output. */
  lemma {:induction false} PlacedGrows(c: Codec, size: nat, out: Bytes, out': Bytes, e: Entry, data: Bytes, live: bool)
    requires size > 0 && Placed(c, size, out, e, data, live) && out <= out'
    ensures Placed(c, size, out', e, data, live)
    ensures End(c, size, e, data, live) <= |out|
  {
    AtPrefix(out, out', e.start, Disk(c, Layout(size, data, live).done));
  }

  // ---- The tree being asked for ----

  lemma {:induction false} TreeOkStep(t: Tree, op: Op)
    requires TreeOk(t)
    ensures TreeOk(TreeStep(t, op))
  {
    match op {
      case Create(path, node) =>
        if Refusal(t.nodes, path, node).None? {
          TreeOkCreate(t, path, node);
        }
      case Write(path, data) =>
    }
  }

  lemma {:induction false} TreeOkCreate(t: Tree, path: Path, node: Node)
    requires TreeOk(t) && Refusal(t.nodes, path, node).None?
    ensures TreeOk(TreeStep(t, Create(path, node)))
  {
    var q := TreeStep(t, Create(path, node));
    assert path !in t.order;
    OrderSnoc(t.order, path);
    forall p | p in q.nodes
      ensures NodeOk(q.nodes, p)
    {
      if p != path {
        assert NodeOk(t.nodes, p);
      }
    }
  }

  lemma {:induction false} OrderSnoc(order: seq<Path>, path: Path)
    requires path !in order
    requires forall i, j | 0 <= i < j < |order| :: order[i] != order[j]
    ensures forall p :: p in order + [path] <==> p in order || p == path
    ensures forall i, j | 0 <= i < j < |order + [path]| :: (order + [path])[i] != (order + [path])[j]
  {
  }

  // ---- Steps that touch one file only: the last one ----

  predicate TouchesOnly(s: State, t: Tree, r: State, q: Tree, f: Path)
  {
    && f in s.entries && f in r.entries && f in t.contents && f in q.contents
    && s.out <= r.out
    && q.order == t.order
    && r.entries == s.entries[f := r.entries[f]]
    && q.contents == t.contents[f := q.contents[f]]
    && r.entries[f].start == s.entries[f].start
    && (t.cur.None? || t.cur.value == f) && (q.cur.None? || q.cur.value == f)
  }

  lemma {:induction false} OthersPlaced(c: Codec, size: nat, s: State, t: Tree, r: State, q: Tree, f: Path)
    requires size > 0 && FilesPlaced(c, size, s, t) && TouchesOnly(s, t, r, q, f)
    requires Placed(c, size, r.out, r.entries[f], q.contents[f], Live(q, f))
    ensures FilesPlaced(c, size, r, q)
  {
    forall p | p in q.contents && p in r.entries
      ensures Placed(c, size, r.out, r.entries[p], q.contents[p], Live(q, p))
    {
      if p != f {
        PlacedGrows(c, size, s.out, r.out, s.entries[p], t.contents[p], Live(t, p));
      }
    }
  }

  lemma {:induction false} OthersOrdered(c: Codec, size: nat, s: State, t: Tree, r: State, q: Tree, f: Path)
    requires size > 0 && Ordered(c, size, s, t) && TouchesOnly(s, t, r, q, f)
    requires t.order != [] && t.order[|t.order| - 1] == f
    requires forall i, j | 0 <= i < j < |t.order| :: t.order[i] != t.order[j]
    ensures Ordered(c, size, r, q)
  {
    forall i, j | 0 <= i < j < |q.order|
      ensures Before(c, size, r, q, q.order[i], q.order[j])
    {
      assert q.order[i] != f;
      assert Before(c, size, s, t, t.order[i], t.order[j]);
    }
  }

  // ---- Sealing the live file ----

  lemma {:induction false} FlushOne(c: Codec, size: nat, s: State, t: Tree)
    requires size > 0 && Inv(c, size, s, t) && t.cur.Some?
    ensures
      var f, r := t.cur.value, FlushCur(c, s);
      && f in s.entries && f in r.entries
      && s.out <= r.out
      && Placed(c, size, r.out, r.entries[f], t.contents[f], false)
      && r.entries == s.entries[f := r.entries[f]]
      && r.order == s.order
      && r.entries[f].node == s.entries[f].node && r.entries[f].start == s.entries[f].start
  {
    var f := t.cur.value;
    assert f in NodesOf(s.entries);
    var r := FlushCur(c, s);
    var ch := Append(size, Empty, t.contents[f]);
    var e := s.entries[f];
    if ch.cur == [] {
      assert r.entries == s.entries[f := e];
    } else {
      DiskSnoc(c, ch.done, ch.cur);
      AtExtend(s.out, e.start, Disk(c, ch.done), Shrink(c, ch.cur).data);
    }
  }

  lemma {:induction false} AtExtend(out: Bytes, pos: nat, part: Bytes, more: Bytes)
    requires At(out, pos, part) && pos + |part| == |out|
    ensures At(out + more, pos, part + more)
  {
    assert (out + more)[pos..pos + |part| + |more|] == part + more;
  }

  lemma {:induction false} SameNodes(entries: map<Path, Entry>, f: Path, e: Entry)
    requires f in entries && e.node == entries[f].node
    ensures NodesOf(entries[f := e]) == NodesOf(entries)
  {
  }

  lemma {:induction false} FlushInv(c: Codec, size: nat, s: State, t: Tree)
    requires size > 0 && Inv(c, size, s, t)
    ensures s.cur.Some? ==> s.cur.value.path in s.entries
    ensures Inv(c, size, FlushCur(c, s), t.(cur := None))
  {
    if t.cur.Some? {
      var f := t.cur.value;
      FlushOne(c, size, s, t);
      var r, q := FlushCur(c, s), t.(cur := None);
      SameNodes(s.entries, f, r.entries[f]);
      assert q.contents == t.contents[f := q.contents[f]];
      OthersPlaced(c, size, s, t, r, q, f);
      OthersOrdered(c, size, s, t, r, q, f);
    }
  }

  // ---- Adding an entry ----

  lemma {:induction false} CreateInv(c: Codec, size: nat, s: State, t: Tree, path: Path, node: Node)
    requires size > 0 && Inv(c, size, s, t) && t.cur.None?
    ensures Inv(c, size, CreateStep(c, s, path, node), TreeStep(t, Create(path, node)))
  {
    if Refusal(t.nodes, path, node).None? {
      var r, q := CreateStep(c, s, path, node), TreeStep(t, Create(path, node));
      TreeOkCreate(t, path, node);
      AddedNode(s.entries, path, Entry(node, |s.out|, [], 0));
      CreatePlaced(c, size, s, t, path, node);
      CreateOrdered(c, size, s, t, path, node);
    }
  }

  lemma {:induction false} AddedNode(entries: map<Path, Entry>, path: Path, e: Entry)
    ensures NodesOf(entries[path := e]) == NodesOf(entries)[path := e.node]
  {
  }

  lemma {:induction false} CreatePlaced(c: Codec, size: nat, s: State, t: Tree, path: Path, node: Node)
    requires size > 0 && Inv(c, size, s, t) && t.cur.None? && Refusal(t.nodes, path, node).None?
    ensures FilesPlaced(c, size, CreateStep(c, s, path, node), TreeStep(t, Create(path, node)))
  {
    var r, q := CreateStep(c, s, path, node), TreeStep(t, Create(path, node));
    forall p | p in q.contents && p in r.entries
      ensures Placed(c, size, r.out, r.entries[p], q.contents[p], Live(q, p))
    {
      if p != path {
        assert p in t.contents && p in s.entries;
        assert Placed(c, size, s.out, s.entries[p], t.contents[p], Live(t, p));
      }
    }
  }

  lemma {:induction false} CreateOrdered(c: Codec, size: nat, s: State, t: Tree, path: Path, node: Node)
    requires size > 0 && Inv(c, size, s, t) && t.cur.None? && Refusal(t.nodes, path, node).None?
    ensures Ordered(c, size, CreateStep(c, s, path, node), TreeStep(t, Create(path, node)))
  {
    var r, q := CreateStep(c, s, path, node), TreeStep(t, Create(path, node));
    forall i, j | 0 <= i < j < |q.order|
      ensures Before(c, size, r, q, q.order[i], q.order[j])
    {
      var a := q.order[i];
      assert a == t.order[i] && a in t.order && a != path;
      if a in t.contents {
        assert a in NodesOf(s.entries);
        PlacedGrows(c, size, s.out, s.out, s.entries[a], t.contents[a], Live(t, a));
        if j < |t.order| {
          assert q.order[j] == t.order[j] && t.order[j] in t.order;
          assert Before(c, size, s, t, t.order[i], t.order[j]);
        }
      }
    }
  }

  // ---- Writing to the live file ----

  lemma {:induction false} LiveBuffer(c: Codec, size: nat, s: State, t: Tree)
    requires size > 0 && Inv(c, size, s, t) && t.cur.Some?
    ensures s.cur.value.path in s.entries && |s.cur.value.buf| < size
    ensures s.out == s.out[..s.entries[t.cur.value].start] + Disk(c, Layout(size, t.contents[t.cur.value], true).done)
  {
    var f := t.cur.value;
    assert f in NodesOf(s.entries);
    AppendFacts(size, Empty, t.contents[f]);
    assert Placed(c, size, s.out, s.entries[f], t.contents[f], true);
    TailIs(s.out, s.entries[f].start, Disk(c, Layout(size, t.contents[f], true).done));
  }

  lemma {:induction false} WriteOne(c: Codec, size: nat, s: State, f: Path, ch: Chunks, data: Bytes, base: Bytes)
    requires |ch.cur| < size && f in s.entries && s.cur == Some(Cur(f, ch.cur))
    requires s.out == base + Disk(c, ch.done) && s.entries[f].sizes == SizeWords(c, ch.done)
    ensures
      var r, end := WriteStep(c, size, s, f, data), Append(size, ch, data);
      && r.out == base + Disk(c, end.done)
      && r.entries == s.entries[f := s.entries[f].(sizes := SizeWords(c, end.done), size := s.entries[f].size + |data|)]
      && r.cur == Some(Cur(f, end.cur))
      && r.order == s.order
  {
    var e := s.entries[f];
    FeedLayout(c, size, s, ch, data, base);
    var end := Append(size, ch, data);
    var e1 := e.(sizes := SizeWords(c, end.done));
    MapTwice(s.entries, f, e1, e1.(size := e.size + |data|));
  }

  lemma {:induction false} MapTwice<K, V>(m: map<K, V>, k: K, a: V, b: V)
    ensures m[k := a][k := b] == m[k := b]
  {
  }

  lemma {:induction false} TailIs(out: Bytes, pos: nat, part: Bytes)
    requires At(out, pos, part) && pos + |part| == |out|
    ensures out == out[..pos] + part
  {
    SplitAt(out, pos);
  }

  lemma {:induction false} WritePlaces(c: Codec, size: nat, s: State, t: Tree, data: Bytes)
    requires size > 0 && Inv(c, size, s, t) && t.cur.Some?
    requires s.cur.value.path in s.entries && |s.cur.value.buf| < size
    ensures
      var f := t.cur.value;
      var r, all := WriteStep(c, size, s, f, data), t.contents[f] + data;
      && f in r.entries
      && s.out <= r.out
      && r.order == s.order && r.cur == Some(Cur(f, Layout(size, all, true).cur))
      && r.entries == s.entries[f := r.entries[f]]
      && r.entries[f].node == s.entries[f].node && r.entries[f].start == s.entries[f].start
      && Placed(c, size, r.out, r.entries[f], all, true)
      && |r.out| == End(c, size, r.entries[f], all, true)
  {
    var f := t.cur.value;
    assert Placed(c, size, s.out, s.entries[f], t.contents[f], true);
    LiveBuffer(c, size, s, t);
    WriteOne(c, size, s, f, Layout(size, t.contents[f], true), data, s.out[..s.entries[f].start]);
    FeedGrows(c, size, s, data);
    AppendTwice(size, Empty, t.contents[f], data);
    AtBehind(s.out[..s.entries[f].start], Disk(c, Layout(size, t.contents[f] + data, true).done));
  }

  lemma {:induction false} AtBehind(base: Bytes, part: Bytes)
    ensures At(base + part, |base|, part)
  {
  }

  lemma {:induction false} FeedGrows(c: Codec, size: nat, s: State, p: Bytes)
    requires s.cur.Some? && s.cur.value.path in s.entries && |s.cur.value.buf| < size
    ensures s.out <= Feed(c, size, s, p).out
    decreases |p|
  {
    if p != [] {
      var n := Room(size, s, p);
      FeedGrows(c, size, Fed(c, size, s, p[..n]), p[n..]);
    }
  }

  /** Any longer version of the live file, placed where it began, keeps the invariant. */
  lemma {:induction false} LiveGrown(c: Codec, size: nat, s: State, t: Tree, r: State, q: Tree, f: Path, all: Bytes)
    requires size > 0 && SameShape(s, t) && FilesPlaced(c, size, s, t) && Ordered(c, size, s, t)
    requires t.cur == Some(f) && f in s.entries && f in r.entries && f in t.contents
    requires t.order != [] && t.order[|t.order| - 1] == f
    requires forall i, j | 0 <= i < j < |t.order| :: t.order[i] != t.order[j]
    requires q == t.(contents := t.contents[f := all])
    requires s.out <= r.out && r.order == s.order && r.cur == Some(Cur(f, Layout(size, all, true).cur))
    requires r.entries == s.entries[f := r.entries[f]]
    requires r.entries[f].node == s.entries[f].node && r.entries[f].start == s.entries[f].start
    requires Placed(c, size, r.out, r.entries[f], all, true) && |r.out| == End(c, size, r.entries[f], all, true)
    ensures SameShape(r, q) && FilesPlaced(c, size, r, q) && TailBuffered(c, size, r, q) && Ordered(c, size, r, q)
  {
    SameNodes(s.entries, f, r.entries[f]);
    LiveTouches(s, t, r, q, f, all);
    OthersPlaced(c, size, s, t, r, q, f);
    OthersOrdered(c, size, s, t, r, q, f);
    LiveTail(c, size, r, q, f, all);
  }

  lemma {:induction false} LiveTouches(s: State, t: Tree, r: State, q: Tree, f: Path, all: Bytes)
    requires t.cur == Some(f) && f in s.entries && f in r.entries && f in t.contents
    requires q == t.(contents := t.contents[f := all])
    requires s.out <= r.out && r.entries == s.entries[f := r.entries[f]] && r.entries[f].start == s.entries[f].start
    ensures TouchesOnly(s, t, r, q, f)
  {
  }

  lemma {:induction false} LiveTail(c: Codec, size: nat, r: State, q: Tree, f: Path, all: Bytes)
    requires size > 0 && q.cur == Some(f) && f in q.contents && q.contents[f] == all && f in r.entries
    requires r.cur == Some(Cur(f, Layout(size, all, true).cur)) && |r.out| == End(c, size, r.entries[f], all, true)
    ensures TailBuffered(c, size, r, q)
  {
  }

  lemma {:induction false} WriteLive(c: Codec, size: nat, s: State, t: Tree, data: Bytes)
    requires size > 0 && Inv(c, size, s, t) && t.cur.Some?
    requires s.cur.value.path in s.entries && |s.cur.value.buf| < size
    ensures Inv(c, size, WriteStep(c, size, s, t.cur.value, data), TreeStep(t, Write(t.cur.value, data)))
  {
    var f, all := t.cur.value, t.contents[t.cur.value] + data;
    var r := WriteStep(c, size, s, f, data);
    WritePlaces(c, size, s, t, data);
    var q := GrownTree(t, f, data);
    LiveGrown(c, size, s, t, r, q, f, all);
    InvIs(c, size, r, q);
  }

  lemma {:induction false} GrownTree(t: Tree, f: Path, data: Bytes) returns (q: Tree)
    requires TreeOk(t) && t.cur == Some(f)
    ensures f in t.contents && q == t.(contents := t.contents[f := t.contents[f] + data])
    ensures q == TreeStep(t, Write(f, data)) && TreeOk(q)
  {
    TreeOkStep(t, Write(f, data));
    q := TreeStep(t, Write(f, data));
  }

  lemma {:induction false} InvIs(c: Codec, size: nat, r: State, q: Tree)
    requires size > 0 && SuperblockSize <= |r.out| && TreeOk(q)
    requires SameShape(r, q) && FilesPlaced(c, size, r, q) && TailBuffered(c, size, r, q) && Ordered(c, size, r, q)
    ensures Inv(c, size, r, q)
  {
  }

  lemma {:induction false} WriteInv(c: Codec, size: nat, s: State, t: Tree, path: Path, data: Bytes)
    requires size > 0 && Inv(c, size, s, t)
    ensures s.cur.Some? ==> s.cur.value.path in s.entries && |s.cur.value.buf| < size
    ensures Inv(c, size, WriteStep(c, size, s, path, data), TreeStep(t, Write(path, data)))
  {
    if t.cur.Some? {
      LiveBuffer(c, size, s, t);
      if t.cur.value == path {
        WriteLive(c, size, s, t, data);
      }
    }
  }

  // ---- Runs ----

  predicate Ready(size: nat, s: State)
  {
    s.cur.Some? ==> s.cur.value.path in s.entries && |s.cur.value.buf| < size
  }

  function Step(c: Codec, size: nat, s: State, op: Op): (r: State)
    requires Ready(size, s)
  {
    match op
    case Create(path, node) => CreateStep(c, s, path, node)
    case Write(path, data) => WriteStep(c, size, s, path, data)
  }

  lemma {:induction false} CreateAny(c: Codec, size: nat, s: State, t: Tree, path: Path, node: Node)
    requires size > 0 && Inv(c, size, s, t)
    ensures s.cur.Some? ==> s.cur.value.path in s.entries
    ensures Inv(c, size, CreateStep(c, s, path, node), TreeStep(t, Create(path, node)))
  {
    var f := FlushCur(c, s);
    FlushInv(c, size, s, t);
    CreateInv(c, size, f, t.(cur := None), path, node);
    FlushTwice(c, s, path, node);
    assert TreeStep(t.(cur := None), Create(path, node)) == TreeStep(t, Create(path, node));
  }

  lemma {:induction false} FlushTwice(c: Codec, s: State, path: Path, node: Node)
    requires s.cur.Some? ==> s.cur.value.path in s.entries
    ensures CreateStep(c, FlushCur(c, s), path, node) == CreateStep(c, s, path, node)
  {
  }

  lemma {:induction false} StepInv(c: Codec, size: nat, s: State, t: Tree, op: Op)
    requires size > 0 && Inv(c, size, s, t)
    ensures Ready(size, s)
    ensures Inv(c, size, Step(c, size, s, op), TreeStep(t, op))
  {
    WriteInv(c, size, s, t, [], []);
    match op {
      case Create(path, node) =>
        CreateAny(c, size, s, t, path, node);
      case Write(path, data) =>
        WriteInv(c, size, s, t, path, data);
    }
  }

  /** The state after a run; `None` never arises, as StepInv shows. */
  function Run(c: Codec, size: nat, ops: seq<Op>): (r: Option<State>)
    decreases |ops|
  {
    if ops == [] then Some(Start())
    else
      match Run(c, size, ops[..|ops| - 1])
      case None => None
      case Some(s) => if Ready(size, s) then Some(Step(c, size, s, ops[|ops| - 1])) else None
  }

  /**
   * Over any interleaving of accepted and refused calls, writes to the live writer and writes to
   * stale ones: every file's blocks lie in one region, regions follow each other without overlap,
   * and what they hold is exactly what was accepted.
   */
  lemma {:induction false} RunInv(c: Codec, size: nat, ops: seq<Op>)
    requires size > 0
    ensures Run(c, size, ops).Some?
    ensures Inv(c, size, Run(c, size, ops).value, TreeRun(ops))
    decreases |ops|
  {
    if ops != [] {
      RunInv(c, size, ops[..|ops| - 1]);
      StepInv(c, size, Run(c, size, ops[..|ops| - 1]).value, TreeRun(ops[..|ops| - 1]), ops[|ops| - 1]);
    } else {
      assert NodesOf(map[]) == map[];
    }
  }
}
