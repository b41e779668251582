/**
 * Metadata blocks (squashfs/metadata.go): the stream is cut into blocks of at most 8 KiB,
 * each compressed on its own, or kept raw when compression does not help, and written
 * behind a 16-bit header. The reader below follows the format: start at a block's byte
 * offset, skip into the uncompressed contents, continue into the next block.
 */
module Metadata {
  import opened Bytes
  import opened Chunking

  const BlockCap: nat := 8192
  const RawBit: nat := 0x8000

  datatype Packed = Packed(data: Bytes) | Incompressible

  /** The pluggable compressor together with the decoder the image's reader will use. */
  datatype Codec = Codec(compress: Bytes -> Packed, decompress: Bytes -> Bytes)

  /** What the writer relies on: output that decodes back, and is never empty. */
  ghost predicate Faithful(c: Codec)
  {
    forall x :: c.compress(x).Packed? ==>
      c.compress(x).data != [] && c.decompress(c.compress(x).data) == x
  }

  datatype Block = Block(data: Bytes, raw: bool)

  /** Compress, falling back to raw when refused or when nothing is saved. */
  function Shrink(c: Codec, plain: Bytes): (b: Block)
    ensures |b.data| <= |plain|
    ensures b.raw ==> b.data == plain
  {
    match c.compress(plain)
    case Packed(d) => if |d| >= |plain| then Block(plain, true) else Block(d, false)
    case Incompressible => Block(plain, true)
  }

  function Expand(c: Codec, b: Block): Bytes
  {
    if b.raw then b.data else c.decompress(b.data)
  }

  /** The packed form is used exactly when it is smaller. */
  lemma {:induction false} PacksWhenSmaller(c: Codec, plain: Bytes)
    ensures
      var b := Shrink(c, plain);
      if c.compress(plain).Packed? && |c.compress(plain).data| < |plain|
      then b.data == c.compress(plain).data && !b.raw
      else b.data == plain && b.raw
  {
  }

  lemma {:induction false} ShrinkExpands(c: Codec, plain: Bytes)
    requires Faithful(c)
    ensures Expand(c, Shrink(c, plain)) == plain
    ensures plain != [] ==> Shrink(c, plain).data != []
  {
  }

  function EmitBlock(b: Block): (r: Bytes)
  {
    LE(|b.data| + (if b.raw then RawBit else 0), 2) + b.data
  }

  /** The on-disk form of a list of closed blocks. */
  function Emit(c: Codec, plains: seq<Bytes>): (r: Bytes)
  {
    if plains == [] then [] else EmitBlock(Shrink(c, plains[0])) + Emit(c, plains[1..])
  }

  /** Byte offset of block `k` from the start of the table. */
  function BlockOffset(c: Codec, plains: seq<Bytes>, k: nat): (r: nat)
    requires k <= |plains|
  {
    |Emit(c, plains[..k])|
  }

  lemma {:induction false} EmitConcat(c: Codec, a: seq<Bytes>, b: seq<Bytes>)
    ensures Emit(c, a + b) == Emit(c, a) + Emit(c, b)
  {
    if a == [] {
      Nil(b);
      Nil(Emit(c, b));
    } else {
      EmitConcat(c, a[1..], b);
      TailOfConcat(a, b);
      Assoc(EmitBlock(Shrink(c, a[0])), Emit(c, a[1..]), Emit(c, b));
    }
  }

  /** The offset of a block is settled once the blocks before it are closed. */
  lemma {:induction false} OffsetStable(c: Codec, a: Chunks, b: Chunks, k: nat)
    requires Extends(a, b) && k <= |a.done|
    ensures BlockOffset(c, b.done, k) == BlockOffset(c, a.done, k)
  {
    assert b.done[..k] == b.done[..|a.done|][..k];
  }

  lemma {:induction false} OffsetBound(c: Codec, plains: seq<Bytes>, k: nat)
    requires k <= |plains|
    ensures BlockOffset(c, plains, k) <= |Emit(c, plains)|
  {
    EmitConcat(c, plains[..k], plains[k..]);
    assert plains == plains[..k] + plains[k..];
  }

  // ---- The format's reader ----

  datatype Loaded = Loaded(plain: Bytes, next: nat)

  function ReadBlock(c: Codec, img: Bytes, pos: nat): (r: Option<Loaded>)
    ensures r.Some? ==> pos < r.value.next <= |img|
  {
    if pos + 2 > |img| then None
    else
      var h := UnLE(img[pos..pos + 2]);
      var size := h % RawBit;
      if size > BlockCap || pos + 2 + size > |img| then None
      else
        Some(Loaded(Expand(c, Block(img[pos + 2..pos + 2 + size], h >= RawBit)), pos + 2 + size))
  }

  /** `n` bytes starting `off` bytes into the uncompressed block stored at `pos`. */
  function ReadMeta(c: Codec, img: Bytes, pos: nat, off: nat, n: nat): (r: Option<Bytes>)
    ensures r.Some? ==> |r.value| == n
    decreases |img| - pos
  {
    if n == 0 then Some([])
    else
      match ReadBlock(c, img, pos)
      case None => None
      case Some(l) =>
        if off > |l.plain| then None
        else if off + n <= |l.plain| then Some(l.plain[off..off + n])
        else
          match ReadMeta(c, img, l.next, 0, n - (|l.plain| - off))
          case None => None
          case Some(rest) => Some(l.plain[off..] + rest)
  }

  lemma {:induction false} ReadBlockBack(c: Codec, img: Bytes, pos: nat, plain: Bytes)
    requires Faithful(c) && |plain| <= BlockCap
    requires At(img, pos, EmitBlock(Shrink(c, plain)))
    ensures ReadBlock(c, img, pos) == Some(Loaded(plain, pos + |EmitBlock(Shrink(c, plain))|))
  {
    var b := Shrink(c, plain);
    var h := |b.data| + (if b.raw then RawBit else 0);
    U16RoundTrip(h);
    AtConcat(img, pos, LE(h, 2), b.data);
    ShrinkExpands(c, plain);
  }

  lemma {:induction false} SliceAcross(a: Bytes, b: Bytes, off: nat, n: nat)
    requires off <= |a| < off + n <= |a| + |b|
    ensures (a + b)[off..off + n] == a[off..] + b[0..n - (|a| - off)]
  {
  }

  lemma {:induction false} SliceWithin(a: Bytes, b: Bytes, off: nat, n: nat)
    requires off + n <= |a|
    ensures (a + b)[off..off + n] == a[off..off + n]
  {
  }

  /** Reading at a block's offset returns the stream from that block on, across block borders. */
  lemma {:induction false} ReadBlocksBack(c: Codec, img: Bytes, pos: nat, plains: seq<Bytes>, off: nat, n: nat)
    requires Faithful(c)
    requires forall i | 0 <= i < |plains| :: 0 < |plains[i]| <= BlockCap
    requires At(img, pos, Emit(c, plains))
    requires off + n <= |Flatten(plains)|
    requires plains != [] ==> off <= |plains[0]|
    ensures ReadMeta(c, img, pos, off, n) == Some(Flatten(plains)[off..off + n])
    decreases |plains|
  {
    if n > 0 {
      var first := EmitBlock(Shrink(c, plains[0]));
      AtConcat(img, pos, first, Emit(c, plains[1..]));
      ReadBlockBack(c, img, pos, plains[0]);
      var rest := Flatten(plains[1..]);
      if off + n > |plains[0]| {
        var m := n - (|plains[0]| - off);
        ReadBlocksBack(c, img, pos + |first|, plains[1..], 0, m);
        SliceAcross(plains[0], rest, off, n);
      } else {
        SliceWithin(plains[0], rest, off, n);
      }
    }
  }

  /**
   * Whatever the finished stream holds at a reference, the reader gets back by starting from the
   * byte offset of the reference's block.
   */
  lemma {:induction false} HoldsReads(c: Codec, ch: Chunks, r: MetaRef, p: Bytes, img: Bytes, base: nat)
    requires Faithful(c)
    requires Wf(BlockCap, ch) && ch.cur == []
    requires Holds(ch, r, p)
    requires At(img, base, Emit(c, ch.done))
    ensures ReadMeta(c, img, base + BlockOffset(c, ch.done, r.block), r.off, |p|) == Some(p)
  {
    if p != [] {
      var k := r.block;
      HoldsTail(ch, r, p);
      EmitConcat(c, ch.done[..k], ch.done[k..]);
      SplitAt(ch.done, k);
      AtConcat(img, base, Emit(c, ch.done[..k]), Emit(c, ch.done[k..]));
      ReadBlocksBack(c, img, base + BlockOffset(c, ch.done, k), ch.done[k..], r.off, |p|);
    }
  }

  /** metaRef.encode: byte offset in the top 48 bits, in-block offset in the low 16. */
  function EncodeRef(blockByte: nat, off: nat): (r: nat)
  {
    blockByte * 0x1_0000 + off
  }

  lemma {:induction false} EncodeRefSplits(blockByte: nat, off: nat)
    requires off < 0x1_0000
    ensures EncodeRef(blockByte, off) / 0x1_0000 == blockByte
    ensures EncodeRef(blockByte, off) % 0x1_0000 == off
  {
  }

  // ---- Whole runs ----

  /** What can happen to a stream: a write, or an early seal. */
  datatype MetaOp = Put(p: Bytes) | SealNow

  function Play(ch: Chunks, ops: seq<MetaOp>): (r: Chunks)
    requires |ch.cur| < BlockCap
    ensures |r.cur| < BlockCap
    decreases |ops|
  {
    if ops == [] then ch
    else
      match ops[0]
      case SealNow => Play(Seal(ch), ops[1..])
      case Put(p) =>
        AppendTwice(BlockCap, ch, p, []);
        Play(Append(BlockCap, ch, p), ops[1..])
  }

  lemma {:induction false} PlayFacts(ch: Chunks, ops: seq<MetaOp>)
    requires Wf(BlockCap, ch)
    ensures Wf(BlockCap, Play(ch, ops)) && Extends(ch, Play(ch, ops))
    decreases |ops|
  {
    if ops == [] {
      TakeAll(ch.done);
    } else {
      match ops[0]
      case SealNow =>
        SealFacts(BlockCap, ch);
        PlayFacts(Seal(ch), ops[1..]);
        ExtendsTrans(ch, Seal(ch), Play(ch, ops));
      case Put(p) =>
        AppendFacts(BlockCap, ch, p);
        AppendTwice(BlockCap, ch, p, []);
        PlayFacts(Append(BlockCap, ch, p), ops[1..]);
        ExtendsTrans(ch, Append(BlockCap, ch, p), Play(ch, ops));
    }
  }

  /**
   * A reference taken before a write stays good whatever is written or sealed before and after:
   * once the stream is emitted anywhere in a file, the reader gets back exactly the bytes written.
   */
  lemma {:induction false} RefSurvives(c: Codec, before: seq<MetaOp>, p: Bytes, after: seq<MetaOp>, img: Bytes,
                                       base: nat)
    requires Faithful(c)
    requires At(img, base, Emit(c, Seal(Play(Play(Empty, before), [Put(p)] + after)).done))
    ensures
      var taken := Here(Play(Empty, before));
      var done := Seal(Play(Play(Empty, before), [Put(p)] + after)).done;
      && taken.off < BlockCap && taken.block <= |done|
      && ReadMeta(c, img, base + BlockOffset(c, done, taken.block), taken.off, |p|) == Some(p)
  {
    var start := Play(Empty, before);
    PlayFacts(Empty, before);
    var next := Append(BlockCap, start, p);
    HoldsNew(BlockCap, start, p);
    AppendFacts(BlockCap, start, p);
    AppendTwice(BlockCap, start, p, []);
    assert ([Put(p)] + after)[1..] == after;
    var last := Play(next, after);
    PlayFacts(next, after);
    SealFacts(BlockCap, last);
    ExtendsTrans(next, last, Seal(last));
    HoldsStable(next, Seal(last), Here(start), p);
    HoldsReads(c, Seal(last), Here(start), p, img, base);
  }

  /** No emitted block is empty or larger than 8 KiB, packed or not. */
  lemma {:induction false} BlocksSmall(c: Codec, ops: seq<MetaOp>, i: nat)
    requires Faithful(c) && i < |Seal(Play(Empty, ops)).done|
    ensures 0 < |Shrink(c, Seal(Play(Empty, ops)).done[i]).data| <= |Seal(Play(Empty, ops)).done[i]| <= BlockCap
  {
    PlayFacts(Empty, ops);
    SealFacts(BlockCap, Play(Empty, ops));
    ShrinkExpands(c, Seal(Play(Empty, ops)).done[i]);
  }

  // ---- The writer object ----

  class MetaWriter {
    const comp: Codec
    var cur: Bytes
    var blocks: seq<Block>
    /** The uncompressed contents of `blocks`; the object itself keeps only the packed form. */
    ghost var plains: seq<Bytes>

    ghost predicate Valid()
      reads this
    {
      && Wf(BlockCap, Stream())
      && |blocks| == |plains|
      && forall i | 0 <= i < |blocks| :: blocks[i] == Shrink(comp, plains[i])
    }

    ghost function Stream(): Chunks
      reads this
    {
      Chunks(plains, cur)
    }

    constructor (c: Codec)
      ensures Valid() && Stream() == Empty && comp == c
    {
      comp := c;
      cur := [];
      blocks := [];
      plains := [];
    }

    function Ref(): (r: MetaRef)
      requires Valid()
      reads this
      ensures r == Here(Stream()) && r.off < BlockCap
    {
      MetaRef(|blocks|, |cur|)
    }

    method Write(p: Bytes)
      requires Valid()
      modifies this
      ensures Valid()
      ensures Stream() == Append(BlockCap, old(Stream()), p)
    {
      var rest := p;
      while |rest| > 0
        invariant Valid()
        invariant Append(BlockCap, Stream(), rest) == Append(BlockCap, old(Stream()), p)
        decreases |rest|
      {
        var free := BlockCap - |cur|;
        var n := |rest|;
        if n > free {
          n := free;
        }
        PushFacts(BlockCap, Stream(), rest[..n]);
        cur := cur + rest[..n];
        rest := rest[n..];
        if |cur| == BlockCap {
          SealCurrent();
        }
      }
    }

    method SealCurrent()
      requires |cur| <= BlockCap
      requires |blocks| == |plains|
      requires forall i | 0 <= i < |plains| :: 0 < |plains[i]| <= BlockCap
      requires forall i | 0 <= i < |blocks| :: blocks[i] == Shrink(comp, plains[i])
      modifies this
      ensures Valid()
      ensures Stream() == Seal(old(Stream()))
    {
      if |cur| == 0 {
        return;
      }
      var block;
      match comp.compress(cur) {
        case Incompressible =>
          block := Block(cur, true);
        case Packed(out) =>
          if |out| >= |cur| {
            block := Block(cur, true);
          } else {
            block := Block(out, false);
          }
      }
      blocks := blocks + [block];
      plains := plains + [cur];
      cur := [];
    }

    method Flush()
      requires Valid()
      modifies this
      ensures Valid()
      ensures Stream() == Seal(old(Stream()))
    {
      SealCurrent();
    }

    method BlockByteOffset(blockIdx: nat) returns (off: nat)
      requires Valid()
      requires blockIdx <= |blocks|
      ensures off == BlockOffset(comp, plains, blockIdx)
    {
      off := 0;
      for i := 0 to blockIdx
        invariant off == BlockOffset(comp, plains, i)
      {
        off := off + 2 + |blocks[i].data|;
        EmitConcat(comp, plains[..i], [plains[i]]);
        assert plains[..i + 1] == plains[..i] + [plains[i]];
        assert Emit(comp, [plains[i]]) == EmitBlock(Shrink(comp, plains[i])) + Emit(comp, []);
      }
    }

    /** The size check of the source never fires: no block is larger than its 8 KiB of content. */
    method EmitTo(w: Bytes) returns (out: Bytes, total: nat)
      requires Valid()
      ensures out == w + Emit(comp, plains)
      ensures total == |Emit(comp, plains)|
    {
      out, total := w, 0;
      for i := 0 to |blocks|
        invariant out == w + Emit(comp, plains[..i])
        invariant total == |Emit(comp, plains[..i])|
      {
        var b := blocks[i];
        assert |b.data| <= BlockCap;
        var h := |b.data|;
        if b.raw {
          h := h + RawBit;
        }
        out := out + LE(h, 2) + b.data;
        total := total + 2 + |b.data|;
        EmitConcat(comp, plains[..i], [plains[i]]);
        assert plains[..i + 1] == plains[..i] + [plains[i]];
        assert Emit(comp, [plains[i]]) == EmitBlock(b) + Emit(comp, []);
      }
      assert plains[..|plains|] == plains;
    }
  }
}
