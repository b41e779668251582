/** The 96-byte superblock (squashfs/superblock.go). */
module Superblock {
  import opened Bytes
  import opened Records

  const SuperblockSize: nat := 96
  const Magic: nat := 0x73717368
  const VersionMajor: nat := 4
  const VersionMinor: nat := 0
  const Absent: nat := 0xFFFF_FFFF_FFFF_FFFF
  const FlagNoFragments: nat := 0x10
  const FlagNoXattrs: nat := 0x200
  const MinBlockSize: nat := 4096
  const MaxBlockSize: nat := 1048576

  datatype Super = Super(
    inodeCount: nat, modTime: nat, blockSize: nat, fragCount: nat,
    compressor: nat, blockLog: nat, flags: nat, idCount: nat,
    rootInodeRef: nat, bytesUsed: nat, idTableStart: nat, xattrTableStart: nat,
    inodeTableStart: nat, directoryTableStart: nat, fragmentTableStart: nat, exportTableStart: nat)

  function Long(sb: Super): seq<nat>
  {
    [Magic, sb.inodeCount, sb.modTime, sb.blockSize, sb.fragCount]
  }

  function Short(sb: Super): seq<nat>
  {
    [sb.compressor, sb.blockLog, sb.flags, sb.idCount, VersionMajor, VersionMinor]
  }

  function Wide(sb: Super): seq<nat>
  {
    [sb.rootInodeRef, sb.bytesUsed, sb.idTableStart, sb.xattrTableStart,
     sb.inodeTableStart, sb.directoryTableStart, sb.fragmentTableStart, sb.exportTableStart]
  }

  function Encode(sb: Super): (r: Bytes)
    ensures |r| == SuperblockSize
  {
    WordsLength(Long(sb), 4);
    WordsLength(Short(sb), 2);
    WordsLength(Wide(sb), 8);
    Words(Long(sb), 4) + Words(Short(sb), 2) + Words(Wide(sb), 8)
  }

  predicate Fits(sb: Super)
  {
    && (forall i | 0 <= i < 5 :: Long(sb)[i] < 0x1_0000_0000)
    && (forall i | 0 <= i < 6 :: Short(sb)[i] < 0x1_0000)
    && (forall i | 0 <= i < 8 :: Wide(sb)[i] < 0x1_0000_0000_0000_0000)
  }

  /** The reader: magic and version must match. */
  function Decode(img: Bytes): (r: Option<Super>)
  {
    if |img| < SuperblockSize || Field(img, 0, 4) != Magic
       || Field(img, 28, 2) != VersionMajor || Field(img, 30, 2) != VersionMinor
    then None
    else Some(Super(
      Field(img, 4, 4), Field(img, 8, 4), Field(img, 12, 4), Field(img, 16, 4),
      Field(img, 20, 2), Field(img, 22, 2), Field(img, 24, 2), Field(img, 26, 2),
      Field(img, 32, 8), Field(img, 40, 8), Field(img, 48, 8), Field(img, 56, 8),
      Field(img, 64, 8), Field(img, 72, 8), Field(img, 80, 8), Field(img, 88, 8)))
  }

  lemma {:induction false} Parts(img: Bytes, sb: Super)
    requires At(img, 0, Encode(sb))
    ensures At(img, 0, Words(Long(sb), 4))
    ensures At(img, 20, Words(Short(sb), 2))
    ensures At(img, 32, Words(Wide(sb), 8))
  {
    var a, b, c := Words(Long(sb), 4), Words(Short(sb), 2), Words(Wide(sb), 8);
    WordsLength(Long(sb), 4);
    WordsLength(Short(sb), 2);
    AtConcat(img, 0, a + b, c);
    AtConcat(img, 0, a, b);
  }

  lemma {:induction false} LongBack(img: Bytes, sb: Super)
    requires At(img, 0, Words(Long(sb), 4)) && Fits(sb)
    ensures |img| >= 20
    ensures Field(img, 0, 4) == Magic && Field(img, 4, 4) == sb.inodeCount && Field(img, 8, 4) == sb.modTime
    ensures Field(img, 12, 4) == sb.blockSize && Field(img, 16, 4) == sb.fragCount
  {
    var ws := Long(sb);
    Word4Back(img, 0, ws, 0);
    Word4Back(img, 0, ws, 1);
    Word4Back(img, 0, ws, 2);
    Word4Back(img, 0, ws, 3);
    Word4Back(img, 0, ws, 4);
  }

  lemma {:induction false} ShortBack(img: Bytes, sb: Super)
    requires At(img, 20, Words(Short(sb), 2)) && Fits(sb)
    ensures |img| >= 32
    ensures Field(img, 20, 2) == sb.compressor && Field(img, 22, 2) == sb.blockLog && Field(img, 24, 2) == sb.flags
    ensures Field(img, 26, 2) == sb.idCount && Field(img, 28, 2) == VersionMajor && Field(img, 30, 2) == VersionMinor
  {
    var ws := Short(sb);
    Word2Back(img, 20, ws, 0);
    Word2Back(img, 20, ws, 1);
    Word2Back(img, 20, ws, 2);
    Word2Back(img, 20, ws, 3);
    Word2Back(img, 20, ws, 4);
    Word2Back(img, 20, ws, 5);
  }

  lemma {:induction false} WideBack(img: Bytes, sb: Super)
    requires At(img, 32, Words(Wide(sb), 8)) && Fits(sb)
    ensures |img| >= 96
    ensures Field(img, 32, 8) == sb.rootInodeRef && Field(img, 40, 8) == sb.bytesUsed
    ensures Field(img, 48, 8) == sb.idTableStart && Field(img, 56, 8) == sb.xattrTableStart
    ensures Field(img, 64, 8) == sb.inodeTableStart && Field(img, 72, 8) == sb.directoryTableStart
    ensures Field(img, 80, 8) == sb.fragmentTableStart && Field(img, 88, 8) == sb.exportTableStart
  {
    var ws := Wide(sb);
    Word8Back(img, 32, ws, 0);
    Word8Back(img, 32, ws, 1);
    Word8Back(img, 32, ws, 2);
    Word8Back(img, 32, ws, 3);
    Word8Back(img, 32, ws, 4);
    Word8Back(img, 32, ws, 5);
    Word8Back(img, 32, ws, 6);
    Word8Back(img, 32, ws, 7);
  }

  lemma {:induction false} DecodeBack(img: Bytes, sb: Super)
    requires At(img, 0, Encode(sb)) && Fits(sb)
    ensures Decode(img) == Some(sb)
  {
    Parts(img, sb);
    LongBack(img, sb);
    ShortBack(img, sb);
    WideBack(img, sb);
  }

  /** encode: the fields go into a 96-byte buffer one after another. */
  method EncodeInto(sb: Super) returns (r: Bytes)
    ensures r == Encode(sb)
  {
    var buf := new byte[SuperblockSize](_ => 0);
    PutLong(buf, sb);
    ghost var a := Words(Long(sb), 4);
    PutShort(buf, sb, a);
    ghost var b := Words(Short(sb), 2);
    PutWide(buf, sb, a + b);
    r := buf[..];
    assert buf[..] == buf[..96];
  }

  method PutLong(buf: array<byte>, sb: Super)
    requires buf.Length == SuperblockSize
    modifies buf
    ensures buf[..20] == Words(Long(sb), 4)
  {
    ghost var ws := Long(sb);
    PutNext(buf, 0, Magic, 4, [], ws, 0);
    PutNext(buf, 4, sb.inodeCount, 4, [], ws, 1);
    PutNext(buf, 8, sb.modTime, 4, [], ws, 2);
    PutNext(buf, 12, sb.blockSize, 4, [], ws, 3);
    PutNext(buf, 16, sb.fragCount, 4, [], ws, 4);
    TakeAll(ws);
    assert [] + Words(ws, 4) == Words(ws, 4);
  }

  method PutShort(buf: array<byte>, sb: Super, ghost head: Bytes)
    requires buf.Length == SuperblockSize && buf[..20] == head
    modifies buf
    ensures buf[..32] == head + Words(Short(sb), 2)
  {
    ghost var ws := Short(sb);
    assert head + Words(ws[..0], 2) == head;
    PutNext(buf, 20, sb.compressor, 2, head, ws, 0);
    PutNext(buf, 22, sb.blockLog, 2, head, ws, 1);
    PutNext(buf, 24, sb.flags, 2, head, ws, 2);
    PutNext(buf, 26, sb.idCount, 2, head, ws, 3);
    PutNext(buf, 28, VersionMajor, 2, head, ws, 4);
    PutNext(buf, 30, VersionMinor, 2, head, ws, 5);
    TakeAll(ws);
  }

  method PutWide(buf: array<byte>, sb: Super, ghost head: Bytes)
    requires buf.Length == SuperblockSize && buf[..32] == head
    modifies buf
    ensures buf[..96] == head + Words(Wide(sb), 8)
  {
    ghost var ws := Wide(sb);
    assert head + Words(ws[..0], 8) == head;
    PutNext(buf, 32, sb.rootInodeRef, 8, head, ws, 0);
    PutNext(buf, 40, sb.bytesUsed, 8, head, ws, 1);
    PutNext(buf, 48, sb.idTableStart, 8, head, ws, 2);
    PutNext(buf, 56, sb.xattrTableStart, 8, head, ws, 3);
    PutNext(buf, 64, sb.inodeTableStart, 8, head, ws, 4);
    PutNext(buf, 72, sb.directoryTableStart, 8, head, ws, 5);
    PutNext(buf, 80, sb.fragmentTableStart, 8, head, ws, 6);
    PutNext(buf, 88, sb.exportTableStart, 8, head, ws, 7);
    TakeAll(ws);
  }

  function Pow2(n: nat): (r: nat)
    ensures r > 0
  {
    if n == 0 then 1 else 2 * Pow2(n - 1)
  }

  predicate ValidBlockSize(n: nat)
  {
    MinBlockSize <= n <= MaxBlockSize && exists k: nat | k <= 20 :: n == Pow2(k)
  }

  /** blockLogFor: the number of trailing zero bits. */
  function BlockLogFor(n: nat): (r: nat)
    requires n > 0
  {
    if n % 2 == 1 then 0 else 1 + BlockLogFor(n / 2)
  }

  lemma {:induction false} LogOfPow2(k: nat)
    ensures BlockLogFor(Pow2(k)) == k
  {
    if k > 0 {
      LogOfPow2(k - 1);
    }
  }

  /** The two size fields of the superblock agree, as the format demands. */
  lemma {:induction false} BlockLogAgrees(n: nat)
    requires ValidBlockSize(n)
    ensures Pow2(BlockLogFor(n)) == n && 12 <= BlockLogFor(n) <= 20
  {
    var k :| 0 <= k <= 20 && n == Pow2(k);
    LogOfPow2(k);
    assert Pow2(11) == 2048;
    if k < 12 {
      Pow2Mono(k, 11);
    }
  }

  lemma {:induction false} Pow2Mono(a: nat, b: nat)
    requires a <= b
    ensures Pow2(a) <= Pow2(b)
  {
    if a < b {
      Pow2Mono(a, b - 1);
    }
  }
}
