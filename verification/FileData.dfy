/**
 * File contents on disk: each block compressed on its own or kept raw, its size word carrying
 * bit 24 when raw (squashfs/writer.go:391-421), and the reader that puts the file together.
 */
module FileData {
  import opened Bytes
  import opened Chunking
  import opened Metadata

  const RawDataBit: nat := 0x100_0000

  function SizeWord(b: Block): nat
  {
    if b.raw then |b.data| + RawDataBit else |b.data|
  }

  /** Bytes on disk for a list of blocks. */
  function Disk(c: Codec, plains: seq<Bytes>): (r: Bytes)
  {
    if plains == [] then [] else Shrink(c, plains[0]).data + Disk(c, plains[1..])
  }

  function SizeWords(c: Codec, plains: seq<Bytes>): (r: seq<nat>)
    ensures |r| == |plains|
  {
    if plains == [] then [] else [SizeWord(Shrink(c, plains[0]))] + SizeWords(c, plains[1..])
  }

  /** Blocks as a file has them: full ones, then possibly one shorter one. */
  predicate Blocky(size: nat, plains: seq<Bytes>)
  {
    && (forall i | 0 <= i < |plains| :: 0 < |plains[i]| <= size)
    && (forall i | 0 <= i < |plains| - 1 :: |plains[i]| == size)
  }

  // ---- The format's reader ----

  function ReadDataBlock(c: Codec, img: Bytes, pos: nat, word: nat): (r: Option<Bytes>)
  {
    var n := word % RawDataBit;
    if pos + n > |img| then None else Some(Expand(c, Block(img[pos..pos + n], word >= RawDataBit)))
  }

  /** Blocks one behind the other, each as long as the bytes still missing imply. */
  function ReadBlocks(c: Codec, img: Bytes, pos: nat, sizes: seq<nat>, left: nat, blockSize: nat): (r: Option<Bytes>)
    decreases |sizes|
  {
    if sizes == [] then Some([])
    else
      match ReadDataBlock(c, img, pos, sizes[0])
      case None => None
      case Some(plain) =>
        if |plain| != Min(left, blockSize) then None
        else
          match ReadBlocks(c, img, pos + sizes[0] % RawDataBit, sizes[1..], left - |plain|, blockSize)
          case None => None
          case Some(rest) => Some(plain + rest)
  }

  function Min(a: nat, b: nat): nat
  {
    if a < b then a else b
  }

  function ReadFile(c: Codec, img: Bytes, start: nat, sizes: seq<nat>, fileSize: nat,
                    blockSize: nat): (r: Option<Bytes>)
  {
    match ReadBlocks(c, img, start, sizes, fileSize, blockSize)
    case None => None
    case Some(data) => if |data| == fileSize then Some(data) else None
  }

  // ---- Facts ----

  lemma {:induction false} DiskSnoc(c: Codec, plains: seq<Bytes>, x: Bytes)
    ensures Disk(c, plains + [x]) == Disk(c, plains) + Shrink(c, x).data
    ensures SizeWords(c, plains + [x]) == SizeWords(c, plains) + [SizeWord(Shrink(c, x))]
    decreases |plains|
  {
    if plains == [] {
      DiskOne(c, x);
    } else {
      DiskSnoc(c, plains[1..], x);
      TailOfConcat(plains, [x]);
      Assoc(Shrink(c, plains[0]).data, Disk(c, plains[1..]), Shrink(c, x).data);
      Assoc([SizeWord(Shrink(c, plains[0]))], SizeWords(c, plains[1..]), [SizeWord(Shrink(c, x))]);
    }
  }

  lemma {:induction false} DiskOne(c: Codec, x: Bytes)
    ensures [] + [x] == [x]
    ensures Disk(c, [x]) == [] + Shrink(c, x).data
    ensures SizeWords(c, [x]) == [] + [SizeWord(Shrink(c, x))]
  {
    assert [x][1..] == [];
    Nil(Shrink(c, x).data);
  }

  lemma {:induction false} WordOfBlock(c: Codec, plain: Bytes)
    requires |plain| <= 1048576
    ensures SizeWord(Shrink(c, plain)) % RawDataBit == |Shrink(c, plain).data|
    ensures SizeWord(Shrink(c, plain)) >= RawDataBit <==> Shrink(c, plain).raw
    ensures SizeWord(Shrink(c, plain)) < 0x1_0000_0000
  {
  }

  lemma {:induction false} ReadDataBlockBack(c: Codec, img: Bytes, pos: nat, plain: Bytes)
    requires Faithful(c) && |plain| <= 1048576
    requires At(img, pos, Shrink(c, plain).data)
    ensures ReadDataBlock(c, img, pos, SizeWord(Shrink(c, plain))) == Some(plain)
  {
    WordOfBlock(c, plain);
    ShrinkExpands(c, plain);
  }

  lemma {:induction false} HeadBlock(c: Codec, img: Bytes, pos: nat, plains: seq<Bytes>)
    requires Faithful(c) && plains != [] && |plains[0]| <= 1048576 && At(img, pos, Disk(c, plains))
    ensures
      var words, n := SizeWords(c, plains), |Shrink(c, plains[0]).data|;
      && ReadDataBlock(c, img, pos, words[0]) == Some(plains[0]) && words[0] % RawDataBit == n
      && words[1..] == SizeWords(c, plains[1..]) && At(img, pos + n, Disk(c, plains[1..]))
  {
    AtConcat(img, pos, Shrink(c, plains[0]).data, Disk(c, plains[1..]));
    ReadDataBlockBack(c, img, pos, plains[0]);
    WordOfBlock(c, plains[0]);
    HeadWord(c, plains);
  }

  lemma {:induction false} ReadBlocksBack(c: Codec, img: Bytes, pos: nat, plains: seq<Bytes>, blockSize: nat)
    requires Faithful(c) && 0 < blockSize <= 1048576
    requires Blocky(blockSize, plains) && At(img, pos, Disk(c, plains))
    ensures ReadBlocks(c, img, pos, SizeWords(c, plains), |Flatten(plains)|, blockSize) == Some(Flatten(plains))
    decreases |plains|
  {
    if plains != [] {
      var x, rest := plains[0], plains[1..];
      var next := pos + |Shrink(c, x).data|;
      HeadBlock(c, img, pos, plains);
      BlockLength(blockSize, plains);
      ReadBlocksBack(c, img, next, rest, blockSize);
      BlocksStep(c, img, pos, SizeWords(c, plains), next, |Flatten(plains)|, blockSize, x, Flatten(rest));
    }
  }

  lemma {:induction false} BlocksStep(c: Codec, img: Bytes, pos: nat, sizes: seq<nat>, next: nat, left: nat,
                                      blockSize: nat, x: Bytes, rest: Bytes)
    requires sizes != [] && ReadDataBlock(c, img, pos, sizes[0]) == Some(x) && |x| == Min(left, blockSize)
    requires next == pos + sizes[0] % RawDataBit && |rest| == left - |x|
    requires ReadBlocks(c, img, next, sizes[1..], |rest|, blockSize) == Some(rest)
    ensures ReadBlocks(c, img, pos, sizes, left, blockSize) == Some(x + rest)
  {
  }

  lemma {:induction false} HeadWord(c: Codec, plains: seq<Bytes>)
    requires plains != []
    ensures SizeWords(c, plains)[0] == SizeWord(Shrink(c, plains[0]))
    ensures SizeWords(c, plains)[1..] == SizeWords(c, plains[1..])
  {
  }

  lemma {:induction false} BlockLength(size: nat, plains: seq<Bytes>)
    requires Blocky(size, plains) && plains != []
    ensures |plains[0]| == Min(|Flatten(plains)|, size) && |Flatten(plains)| - |plains[0]| == |Flatten(plains[1..])|
    ensures Blocky(size, plains[1..])
  {
    if |plains| == 1 {
      assert plains[1..] == [];
    }
  }

  /** The blocks of a file, wherever they lie, read back as the file. */
  lemma {:induction false} ReadFileBack(c: Codec, img: Bytes, start: nat, plains: seq<Bytes>, blockSize: nat)
    requires Faithful(c) && 0 < blockSize <= 1048576
    requires Blocky(blockSize, plains)
    requires At(img, start, Disk(c, plains))
    ensures ReadFile(c, img, start, SizeWords(c, plains), |Flatten(plains)|, blockSize) == Some(Flatten(plains))
  {
    ReadBlocksBack(c, img, start, plains, blockSize);
  }

  lemma {:induction false} BlockCount(size: nat, plains: seq<Bytes>)
    requires size > 0 && Blocky(size, plains)
    ensures |plains| == (|Flatten(plains)| + size - 1) / size
  {
    if plains == [] {
      assert (size - 1) / size == 0;
    } else {
      var n := |plains| - 1;
      SplitAt(plains, n);
      assert plains[n..] == [plains[n]];
      FlattenSnoc(plains[..n], plains[n]);
      FlattenFull(size, plains[..n]);
      CeilIs(size, n, |plains[n]|);
    }
  }

  lemma {:induction false} CeilIs(size: nat, n: nat, last: nat)
    requires 0 < last <= size
    ensures (size * n + last + size - 1) / size == n + 1
  {
    var x := size * n + last + size - 1;
    assert x == size * (n + 1) + (last - 1);
    DivUnique(x, size, n + 1, last - 1);
  }

  lemma {:induction false} DivUnique(x: nat, d: nat, q: nat, r: nat)
    requires d > 0 && x == d * q + r && r < d
    ensures x / d == q
  {
    var q', r' := x / d, x % d;
    assert x == d * q' + r';
    MulStep(d, q', q);
    MulStep(d, q, q');
  }

  lemma {:induction false} MulStep(d: nat, a: nat, b: nat)
    ensures a < b ==> d * b >= d * a + d
  {
    if a < b {
      assert d * b == d * (a + 1) + d * (b - a - 1);
    }
  }

  lemma {:induction false} SizesFit(c: Codec, plains: seq<Bytes>)
    requires forall i | 0 <= i < |plains| :: |plains[i]| <= 1048576
    ensures forall i | 0 <= i < |plains| :: SizeWords(c, plains)[i] < 0x1_0000_0000
    decreases |plains|
  {
    if plains != [] {
      SizesFit(c, plains[1..]);
      WordOfBlock(c, plains[0]);
    }
  }
}
