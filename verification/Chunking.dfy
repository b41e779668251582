/**
 * A byte stream cut into blocks of at most `cap` bytes while it is being written: the
 * blocks already closed, and the open one. The metadata writer and the file writer both
 * work this way (squashfs/metadata.go:90-108, squashfs/writer.go:364-389).
 */
module Chunking {
  import opened Bytes

  datatype Chunks = Chunks(done: seq<Bytes>, cur: Bytes)

  /** A location in the stream: block index and offset inside the uncompressed block. */
  datatype MetaRef = MetaRef(block: nat, off: nat)

  const Empty := Chunks([], [])

  predicate Wf(cap: nat, ch: Chunks)
  {
    && |ch.cur| < cap
    && forall i | 0 <= i < |ch.done| :: 0 < |ch.done[i]| <= cap
  }

  /** Every closed block is full: no block was closed early. */
  predicate Full(cap: nat, ch: Chunks)
  {
    && |ch.cur| < cap
    && forall i | 0 <= i < |ch.done| :: |ch.done[i]| == cap
  }

  function Content(ch: Chunks): Bytes
  {
    Flatten(ch.done) + ch.cur
  }

  function Append(cap: nat, ch: Chunks, p: Bytes): (r: Chunks)
    requires |ch.cur| < cap
    decreases |p|
  {
    if p == [] then ch
    else
      var n := if |p| > cap - |ch.cur| then cap - |ch.cur| else |p|;
      Append(cap, Push(cap, ch, p[..n]), p[n..])
  }

  /** One turn of the write loop: add bytes that fit, close the block once it is full. */
  function Push(cap: nat, ch: Chunks, p: Bytes): (r: Chunks)
    requires |ch.cur| + |p| <= cap
    requires cap > 0
    ensures |r.cur| < cap
  {
    var cur := ch.cur + p;
    if |cur| == cap then Chunks(ch.done + [cur], []) else Chunks(ch.done, cur)
  }

  function Seal(ch: Chunks): (r: Chunks)
  {
    if ch.cur == [] then ch else Chunks(ch.done + [ch.cur], [])
  }

  /** `b` comes from `a` by further writes and seals. */
  predicate Extends(a: Chunks, b: Chunks)
  {
    && |a.done| <= |b.done|
    && b.done[..|a.done|] == a.done
    && if |a.done| == |b.done| then a.cur <= b.cur else a.cur <= b.done[|a.done|]
  }

  function Here(ch: Chunks): MetaRef
  {
    MetaRef(|ch.done|, |ch.cur|)
  }

  /** Where a reference points in the flat stream. */
  function Pos(ch: Chunks, r: MetaRef): nat
    requires r.block <= |ch.done|
  {
    |Flatten(ch.done[..r.block])| + r.off
  }

  lemma {:induction false} ExtendsTrans(a: Chunks, b: Chunks, c: Chunks)
    requires Extends(a, b) && Extends(b, c)
    ensures Extends(a, c)
  {
    assert c.done[..|a.done|] == b.done[..|a.done|];
    if |a.done| < |b.done| {
      assert c.done[|a.done|] == b.done[|a.done|];
    }
  }

  lemma {:induction false} PushFacts(cap: nat, ch: Chunks, p: Bytes)
    requires 0 < cap && |ch.cur| + |p| <= cap
    ensures Content(Push(cap, ch, p)) == Content(ch) + p
    ensures Wf(cap, ch) ==> Wf(cap, Push(cap, ch, p))
    ensures Full(cap, ch) ==> Full(cap, Push(cap, ch, p))
    ensures Extends(ch, Push(cap, ch, p))
  {
    var cur := ch.cur + p;
    FlattenSnoc(ch.done, cur);
    Assoc(Flatten(ch.done), ch.cur, p);
    Nil(Flatten(ch.done) + cur);
    if |cur| == cap {
      SnocFacts(ch.done, cur);
    }
  }

  lemma {:induction false} SnocFacts(s: seq<Bytes>, x: Bytes)
    ensures (s + [x])[..|s|] == s && (s + [x])[|s|] == x
  {
  }

  /** Nothing is lost, reordered or duplicated however the payload falls on block borders. */
  lemma {:induction false} AppendFacts(cap: nat, ch: Chunks, p: Bytes)
    requires |ch.cur| < cap
    ensures Content(Append(cap, ch, p)) == Content(ch) + p
    ensures Wf(cap, ch) ==> Wf(cap, Append(cap, ch, p))
    ensures Full(cap, ch) ==> Full(cap, Append(cap, ch, p))
    ensures Extends(ch, Append(cap, ch, p))
    decreases |p|
  {
    if p != [] {
      var n := if |p| > cap - |ch.cur| then cap - |ch.cur| else |p|;
      var next := Push(cap, ch, p[..n]);
      PushFacts(cap, ch, p[..n]);
      AppendFacts(cap, next, p[n..]);
      ExtendsTrans(ch, next, Append(cap, next, p[n..]));
      SplitAt(p, n);
      Assoc(Content(ch), p[..n], p[n..]);
    }
  }

  /** How the payload is split over calls makes no difference. */
  lemma {:induction false} AppendTwice(cap: nat, ch: Chunks, a: Bytes, b: Bytes)
    requires |ch.cur| < cap
    ensures |Append(cap, ch, a).cur| < cap
    ensures Append(cap, Append(cap, ch, a), b) == Append(cap, ch, a + b)
    decreases |a|
  {
    if a == [] {
      assert a + b == b;
    } else {
      var room := cap - |ch.cur|;
      if |a| >= room {
        var next := Push(cap, ch, a[..room]);
        assert (a + b)[..room] == a[..room] && (a + b)[room..] == a[room..] + b;
        AppendTwice(cap, next, a[room..], b);
      } else {
        AppendSmall(cap, ch, a);
        if b == [] {
          assert a + b == a;
        } else {
          var n := if |b| > room - |a| then room - |a| else |b|;
          assert (a + b)[..|a| + n] == a + b[..n] && (a + b)[|a| + n..] == b[n..];
          assert ch.cur + (a + b[..n]) == ch.cur + a + b[..n];
        }
      }
    }
  }

  lemma {:induction false} AppendSmall(cap: nat, ch: Chunks, a: Bytes)
    requires |ch.cur| + |a| < cap
    ensures Append(cap, ch, a) == Chunks(ch.done, ch.cur + a)
  {
    if a == [] {
      assert ch.cur + a == ch.cur;
    } else {
      assert a[..|a|] == a && a[|a|..] == [];
    }
  }

  lemma {:induction false} FlattenFull(cap: nat, s: seq<Bytes>)
    requires forall i | 0 <= i < |s| :: |s[i]| == cap
    ensures |Flatten(s)| == cap * |s|
  {
    if s != [] {
      FlattenFull(cap, s[1..]);
      assert cap * |s| == cap + cap * (|s| - 1);
    }
  }

  lemma {:induction false} FullLength(cap: nat, ch: Chunks)
    requires Full(cap, ch)
    ensures |Content(ch)| == cap * |ch.done| + |ch.cur|
  {
    FlattenFull(cap, ch.done);
  }

  lemma {:induction false} SealFacts(cap: nat, ch: Chunks)
    requires Wf(cap, ch)
    ensures Content(Seal(ch)) == Content(ch)
    ensures Wf(cap, Seal(ch))
    ensures Extends(ch, Seal(ch))
    ensures Seal(ch).cur == []
  {
    FlattenSnoc(ch.done, ch.cur);
  }

  lemma {:induction false} ExtendsContent(a: Chunks, b: Chunks)
    requires Extends(a, b)
    ensures Content(a) <= Content(b)
    ensures Pos(b, Here(a)) == |Content(a)|
  {
    FlattenConcat(b.done[..|a.done|], b.done[|a.done|..]);
    assert b.done == b.done[..|a.done|] + b.done[|a.done|..];
    if |a.done| < |b.done| {
      assert b.done[|a.done|..][0] == b.done[|a.done|];
      var rest := Flatten(b.done[|a.done|..]);
      assert rest == b.done[|a.done|] + Flatten(b.done[|a.done|..][1..]);
      assert a.cur <= rest;
      assert Content(b) == Flatten(a.done) + (rest + b.cur);
    } else {
      assert b.done[|a.done|..] == [];
      assert Flatten(b.done) == Flatten(a.done) + [];
    }
  }

  /** A reference stays put in the flat stream however the stream grows. */
  lemma {:induction false} PosStable(a: Chunks, b: Chunks, r: MetaRef)
    requires Extends(a, b) && r.block <= |a.done|
    ensures Pos(b, r) == Pos(a, r)
  {
    assert b.done[..r.block] == b.done[..|a.done|][..r.block];
  }

  /** The stream holds `p` at `r`, and `r` lies inside a block that has bytes after it. */
  predicate Holds(ch: Chunks, r: MetaRef, p: Bytes)
  {
    && r.block <= |ch.done|
    && At(Content(ch), Pos(ch, r), p)
    && (p != [] ==> r.off < if r.block < |ch.done| then |ch.done[r.block]| else |ch.cur|)
  }

  /** A reference taken just before a write points at what was written. */
  lemma {:induction false} HoldsNew(cap: nat, ch: Chunks, p: Bytes)
    requires |ch.cur| < cap
    ensures Holds(Append(cap, ch, p), Here(ch), p)
  {
    var after := Append(cap, ch, p);
    AppendFacts(cap, ch, p);
    ExtendsContent(ch, after);
    if p != [] {
      var n := if |p| > cap - |ch.cur| then cap - |ch.cur| else |p|;
      var next := Push(cap, ch, p[..n]);
      AppendFacts(cap, next, p[n..]);
      InsideGrows(ch, next, after, p[..n]);
    }
  }

  lemma {:induction false} InsideGrows(ch: Chunks, next: Chunks, after: Chunks, p: Bytes)
    requires p != [] && Extends(next, after)
    requires next == Chunks(ch.done + [ch.cur + p], []) || next == Chunks(ch.done, ch.cur + p)
    ensures |ch.done| <= |after.done|
    ensures |ch.cur| < if |ch.done| < |after.done| then |after.done[|ch.done|]| else |after.cur|
  {
    if |next.done| > |ch.done| {
      assert after.done[..|next.done|][|ch.done|] == after.done[|ch.done|];
    }
  }

  /** It goes on pointing there through every later write and seal. */
  lemma {:induction false} HoldsStable(a: Chunks, b: Chunks, r: MetaRef, p: Bytes)
    requires Extends(a, b) && Holds(a, r, p)
    ensures Holds(b, r, p)
  {
    PosStable(a, b, r);
    ExtendsContent(a, b);
    AtPrefix(Content(a), Content(b), Pos(a, r), p);
    if r.block < |a.done| {
      assert b.done[..|a.done|][r.block] == b.done[r.block];
    }
  }

  lemma {:induction false} HoldsPrefix(ch: Chunks, r: MetaRef, p: Bytes, n: nat)
    requires Holds(ch, r, p) && n <= |p|
    ensures Holds(ch, r, p[..n])
  {
    AtSub(Content(ch), Pos(ch, r), p, 0, n);
    assert p[0..n] == p[..n];
  }

  /** In a sealed stream, that is the content from the reference's own block on. */
  lemma {:induction false} HoldsTail(ch: Chunks, r: MetaRef, p: Bytes)
    requires Holds(ch, r, p) && ch.cur == [] && p != []
    ensures r.block < |ch.done| && r.off < |ch.done[r.block]|
    ensures At(Flatten(ch.done[r.block..]), r.off, p)
  {
    var head, tail := Flatten(ch.done[..r.block]), Flatten(ch.done[r.block..]);
    FlattenConcat(ch.done[..r.block], ch.done[r.block..]);
    assert ch.done == ch.done[..r.block] + ch.done[r.block..];
    assert Content(ch) == head + tail;
    AtDrop(head, tail, r.off, p);
  }
}
