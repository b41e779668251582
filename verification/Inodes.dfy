/**
 * Inode records (squashfs/inode.go): a 16-byte common header, then a body that depends on the
 * type. `Parse` is the format's reader; it learns how long a record is while reading it.
 */
module Inodes {
  import opened Bytes
  import opened Records

  const TypeDir: nat := 1
  const TypeFile: nat := 2
  const TypeSymlink: nat := 3
  const TypeBlock: nat := 4
  const TypeChar: nat := 5
  const TypeFifo: nat := 6
  const TypeSocket: nat := 7
  const NoFragment: nat := 0xFFFF_FFFF

  datatype Inode = Inode(perm: nat, uidIdx: nat, gidIdx: nat, mtime: nat, number: nat, body: Body)

  datatype Body =
    | DirB(start: nat, nlinks: nat, size: nat, off: nat, parent: nat)
    | FileB(start: nat, fileSize: nat, sizes: seq<nat>)
    | SymlinkB(nlinks: nat, target: Bytes)
    | DeviceB(block: bool, nlinks: nat, dev: nat)
    | IpcB(socket: bool, nlinks: nat)

  function TypeOf(b: Body): (t: nat)
  {
    match b
    case DirB(_, _, _, _, _) => TypeDir
    case FileB(_, _, _) => TypeFile
    case SymlinkB(_, _) => TypeSymlink
    case DeviceB(block, _, _) => if block then TypeBlock else TypeChar
    case IpcB(socket, _) => if socket then TypeSocket else TypeFifo
  }

  // ---- Encoding ----

  function HeadShort(i: Inode): seq<nat>
  {
    [TypeOf(i.body), i.perm, i.uidIdx, i.gidIdx]
  }

  function HeadLong(i: Inode): seq<nat>
  {
    [i.mtime, i.number]
  }

  function EncodeHead(i: Inode): (r: Bytes)
    ensures |r| == 16
  {
    WordsLength(HeadShort(i), 2);
    WordsLength(HeadLong(i), 4);
    Words(HeadShort(i), 2) + Words(HeadLong(i), 4)
  }

  function EncodeBody(b: Body): Bytes
  {
    match b
    case DirB(start, nlinks, size, off, parent) =>
      Words([start, nlinks], 4) + Words([size, off], 2) + Words([parent], 4)
    case FileB(start, fileSize, sizes) => Words([start, NoFragment, 0, fileSize], 4) + Words(sizes, 4)
    case SymlinkB(nlinks, target) => Words([nlinks, |target|], 4) + target
    case DeviceB(_, nlinks, dev) => Words([nlinks, dev], 4)
    case IpcB(_, nlinks) => Words([nlinks], 4)
  }

  function Encode(i: Inode): (r: Bytes)
  {
    EncodeHead(i) + EncodeBody(i.body)
  }

  // ---- What each encoder accepts ----

  /** The 32-bit sum wraps before the 16-bit check, as in the source. */
  function DirBody(start: nat, nlinks: nat, listing: nat, off: nat, parent: nat): (r: Option<Body>)
  {
    var size := (listing + 3) % 0x1_0000_0000;
    if start > 0xFFFF_FFFF || size > 0xFFFF then None else Some(DirB(start, nlinks, size, off, parent))
  }

  function FileBody(start: nat, fileSize: nat, sizes: seq<nat>, blockSize: nat): (r: Option<Body>)
    requires blockSize > 0
  {
    if start > 0xFFFF_FFFF || fileSize > 0xFFFF_FFFF || |sizes| != Ceil(fileSize, blockSize) then None
    else Some(FileB(start, fileSize, sizes))
  }

  function SymlinkBody(nlinks: nat, target: Bytes): (r: Option<Body>)
  {
    if |target| > 0xFFFF then None else Some(SymlinkB(nlinks, target))
  }

  function DeviceBody(block: bool, nlinks: nat, major: nat, minor: nat): (r: Option<Body>)
  {
    if major > 0xFFF || minor > 0xFF then None else Some(DeviceB(block, nlinks, major * 256 + minor))
  }

  predicate U16(n: nat) { n < 0x1_0000 }
  predicate U32(n: nat) { n < 0x1_0000_0000 }

  predicate BodyFits(b: Body, blockSize: nat)
    requires blockSize > 0
  {
    match b
    case DirB(start, nlinks, size, off, parent) => U32(start) && U32(nlinks) && U16(size) && U16(off) && U32(parent)
    case FileB(start, fileSize, sizes) =>
      && U32(start) && U32(fileSize) && |sizes| == Ceil(fileSize, blockSize)
      && forall k | 0 <= k < |sizes| :: U32(sizes[k])
    case SymlinkB(nlinks, target) => U32(nlinks) && U32(|target|)
    case DeviceB(_, nlinks, dev) => U32(nlinks) && U32(dev)
    case IpcB(_, nlinks) => U32(nlinks)
  }

  predicate Fits(i: Inode, blockSize: nat)
    requires blockSize > 0
  {
    U16(i.perm) && U16(i.uidIdx) && U16(i.gidIdx) && U32(i.mtime) && U32(i.number) && BodyFits(i.body, blockSize)
  }

  // ---- The format's reader ----

  /** `get(n)` yields the first n bytes of the record. */
  type Getter = nat -> Option<Bytes>

  function GetN(get: Getter, n: nat): (r: Option<Bytes>)
    ensures r.Some? ==> |r.value| == n
  {
    match get(n)
    case Some(b) => if |b| == n then Some(b) else None
    case None => None
  }

  function ReadWords4(b: Bytes, pos: nat, n: nat): (r: seq<nat>)
    requires pos + 4 * n <= |b|
  {
    if n == 0 then [] else ReadWords4(b, pos, n - 1) + [Field(b, pos + 4 * (n - 1), 4)]
  }

  function ParseDir(get: Getter): (r: Option<Body>)
  {
    match GetN(get, 32)
    case None => None
    case Some(b) => Some(DirB(Field(b, 16, 4), Field(b, 20, 4), Field(b, 24, 2), Field(b, 26, 2), Field(b, 28, 4)))
  }

  function ParseFile(get: Getter, blockSize: nat): (r: Option<Body>)
    requires blockSize > 0
  {
    match GetN(get, 32)
    case None => None
    case Some(b) =>
      var n := Ceil(Field(b, 28, 4), blockSize);
      if Field(b, 20, 4) != NoFragment then None
      else
        match GetN(get, 32 + 4 * n)
        case None => None
        case Some(all) => Some(FileB(Field(b, 16, 4), Field(b, 28, 4), ReadWords4(all, 32, n)))
  }

  function ParseSymlink(get: Getter): (r: Option<Body>)
  {
    match GetN(get, 24)
    case None => None
    case Some(b) =>
      match GetN(get, 24 + Field(b, 20, 4))
      case None => None
      case Some(all) => Some(SymlinkB(Field(b, 16, 4), all[24..]))
  }

  function ParseDevice(get: Getter, block: bool): (r: Option<Body>)
  {
    match GetN(get, 24)
    case None => None
    case Some(b) => Some(DeviceB(block, Field(b, 16, 4), Field(b, 20, 4)))
  }

  function ParseIpc(get: Getter, socket: bool): (r: Option<Body>)
  {
    match GetN(get, 20)
    case None => None
    case Some(b) => Some(IpcB(socket, Field(b, 16, 4)))
  }

  function ParseBody(get: Getter, typ: nat, blockSize: nat): (r: Option<Body>)
    requires blockSize > 0
  {
    if typ == TypeDir then ParseDir(get)
    else if typ == TypeFile then ParseFile(get, blockSize)
    else if typ == TypeSymlink then ParseSymlink(get)
    else if typ == TypeBlock then ParseDevice(get, true)
    else if typ == TypeChar then ParseDevice(get, false)
    else if typ == TypeFifo then ParseIpc(get, false)
    else if typ == TypeSocket then ParseIpc(get, true)
    else None
  }

  function Parse(get: Getter, blockSize: nat): (r: Option<Inode>)
    requires blockSize > 0
  {
    match GetN(get, 16)
    case None => None
    case Some(h) =>
      match ParseBody(get, Field(h, 0, 2), blockSize)
      case None => None
      case Some(body) =>
        Some(Inode(Field(h, 2, 2), Field(h, 4, 2), Field(h, 6, 2), Field(h, 8, 4), Field(h, 12, 4), body))
  }

  /** `get` delivers every prefix of the record. */
  ghost predicate Serves(get: Getter, rec: Bytes)
  {
    forall n: nat | n <= |rec| :: get(n) == Some(rec[..n])
  }

  // ---- Round trip ----

  lemma {:induction false} HeadBack(b: Bytes, i: Inode)
    requires At(b, 0, EncodeHead(i))
    requires U16(i.perm) && U16(i.uidIdx) && U16(i.gidIdx) && U32(i.mtime) && U32(i.number)
    ensures |b| >= 16
    ensures Field(b, 0, 2) == TypeOf(i.body) && Field(b, 2, 2) == i.perm
    ensures Field(b, 4, 2) == i.uidIdx && Field(b, 6, 2) == i.gidIdx
    ensures Field(b, 8, 4) == i.mtime && Field(b, 12, 4) == i.number
  {
    WordsLength(HeadShort(i), 2);
    WordsLength(HeadLong(i), 4);
    AtConcat(b, 0, Words(HeadShort(i), 2), Words(HeadLong(i), 4));
    ShortBack(b, HeadShort(i));
    Word4Back(b, 8, HeadLong(i), 0);
    Word4Back(b, 8, HeadLong(i), 1);
  }

  lemma {:induction false} ShortBack(b: Bytes, ws: seq<nat>)
    requires |ws| == 4 && At(b, 0, Words(ws, 2))
    requires U16(ws[0]) && U16(ws[1]) && U16(ws[2]) && U16(ws[3])
    ensures |b| >= 8
    ensures Field(b, 0, 2) == ws[0] && Field(b, 2, 2) == ws[1] && Field(b, 4, 2) == ws[2] && Field(b, 6, 2) == ws[3]
  {
    Word2Back(b, 0, ws, 0);
    Word2Back(b, 0, ws, 1);
    Word2Back(b, 0, ws, 2);
    Word2Back(b, 0, ws, 3);
  }

  lemma {:induction false} PairBack(b: Bytes, pos: nat, x: nat, y: nat)
    requires At(b, pos, Words([x, y], 4)) && U32(x) && U32(y)
    ensures pos + 8 <= |b|
    ensures Field(b, pos, 4) == x && Field(b, pos + 4, 4) == y
  {
    Word4Back(b, pos, [x, y], 0);
    Word4Back(b, pos, [x, y], 1);
  }

  lemma {:induction false} ParseDirBack(get: Getter, head: Bytes, body: Body, blockSize: nat)
    requires blockSize > 0 && body.DirB? && BodyFits(body, blockSize)
    requires |head| == 16 && Serves(get, head + EncodeBody(body))
    ensures ParseDir(get) == Some(body)
  {
    var rec := head + EncodeBody(body);
    var a, s, p := Words([body.start, body.nlinks], 4), Words([body.size, body.off], 2), Words([body.parent], 4);
    WordsLength([body.start, body.nlinks], 4);
    WordsLength([body.size, body.off], 2);
    WordsLength([body.parent], 4);
    assert rec[..32] == rec;
    assert At(rec, 16, a + s + p);
    AtConcat(rec, 16, a + s, p);
    AtConcat(rec, 16, a, s);
    PairBack(rec, 16, body.start, body.nlinks);
    Word2Back(rec, 24, [body.size, body.off], 0);
    Word2Back(rec, 24, [body.size, body.off], 1);
    Word4Back(rec, 28, [body.parent], 0);
  }

  lemma {:induction false} ReadWords4Back(b: Bytes, pos: nat, ws: seq<nat>, n: nat)
    requires At(b, pos, Words(ws, 4)) && n <= |ws|
    requires forall k | 0 <= k < |ws| :: U32(ws[k])
    ensures pos + 4 * n <= |b|
    ensures ReadWords4(b, pos, n) == ws[..n]
  {
    WordsLength(ws, 4);
    if n > 0 {
      ReadWords4Back(b, pos, ws, n - 1);
      Word4Back(b, pos, ws, n - 1);
      TakeNext(ws, n - 1);
    }
  }

  lemma {:induction false} FileHeadBack(b: Bytes, start: nat, fileSize: nat)
    requires At(b, 16, Words([start, NoFragment, 0, fileSize], 4)) && U32(start) && U32(fileSize)
    ensures |b| >= 32
    ensures Field(b, 16, 4) == start && Field(b, 20, 4) == NoFragment && Field(b, 28, 4) == fileSize
  {
    var ws := [start, NoFragment, 0, fileSize];
    Word4Back(b, 16, ws, 0);
    Word4Back(b, 16, ws, 1);
    Word4Back(b, 16, ws, 3);
  }

  lemma {:induction false} FileParts(head: Bytes, fixed: Bytes, sizes: Bytes)
    requires |head| == 16 && |fixed| == 16
    ensures
      var rec := head + (fixed + sizes);
      && |rec| == 32 + |sizes| && rec[..|rec|] == rec
      && At(rec[..32], 16, fixed) && At(rec, 32, sizes)
  {
  }

  lemma {:induction false} ParseFileBack(get: Getter, head: Bytes, body: Body, blockSize: nat)
    requires blockSize > 0 && body.FileB? && BodyFits(body, blockSize)
    requires |head| == 16 && Serves(get, head + EncodeBody(body))
    ensures ParseFile(get, blockSize) == Some(body)
  {
    var rec := head + EncodeBody(body);
    var fixed, sizes := Words([body.start, NoFragment, 0, body.fileSize], 4), Words(body.sizes, 4);
    WordsLength([body.start, NoFragment, 0, body.fileSize], 4);
    WordsLength(body.sizes, 4);
    FileParts(head, fixed, sizes);
    FileHeadBack(rec[..32], body.start, body.fileSize);
    ReadWords4Back(rec, 32, body.sizes, |body.sizes|);
    TakeAll(body.sizes);
  }

  lemma {:induction false} SymlinkParts(head: Bytes, fixed: Bytes, target: Bytes)
    requires |head| == 16 && |fixed| == 8
    ensures
      var rec := head + (fixed + target);
      && |rec| == 24 + |target| && rec[..|rec|] == rec
      && At(rec[..24], 16, fixed) && rec[24..] == target
  {
  }

  lemma {:induction false} ParseSymlinkBack(get: Getter, head: Bytes, body: Body, blockSize: nat)
    requires blockSize > 0 && body.SymlinkB? && BodyFits(body, blockSize)
    requires |head| == 16 && Serves(get, head + EncodeBody(body))
    ensures ParseSymlink(get) == Some(body)
  {
    var rec := head + EncodeBody(body);
    var fixed := Words([body.nlinks, |body.target|], 4);
    WordsLength([body.nlinks, |body.target|], 4);
    SymlinkParts(head, fixed, body.target);
    PairBack(rec[..24], 16, body.nlinks, |body.target|);
  }

  lemma {:induction false} ParseDeviceBack(get: Getter, head: Bytes, body: Body, blockSize: nat)
    requires blockSize > 0 && body.DeviceB? && BodyFits(body, blockSize)
    requires |head| == 16 && Serves(get, head + EncodeBody(body))
    ensures ParseDevice(get, body.block) == Some(body)
  {
    var rec := head + EncodeBody(body);
    WordsLength([body.nlinks, body.dev], 4);
    TakeAll(rec);
    assert At(rec, 16, Words([body.nlinks, body.dev], 4));
    PairBack(rec, 16, body.nlinks, body.dev);
  }

  lemma {:induction false} ParseIpcBack(get: Getter, head: Bytes, body: Body, blockSize: nat)
    requires blockSize > 0 && body.IpcB? && BodyFits(body, blockSize)
    requires |head| == 16 && Serves(get, head + EncodeBody(body))
    ensures ParseIpc(get, body.socket) == Some(body)
  {
    var rec := head + EncodeBody(body);
    WordsLength([body.nlinks], 4);
    TakeAll(rec);
    assert At(rec, 16, Words([body.nlinks], 4));
    Word4Back(rec, 16, [body.nlinks], 0);
  }

  lemma {:induction false} ParseBodyBack(get: Getter, head: Bytes, body: Body, blockSize: nat)
    requires blockSize > 0 && BodyFits(body, blockSize)
    requires |head| == 16 && Serves(get, head + EncodeBody(body))
    ensures ParseBody(get, TypeOf(body), blockSize) == Some(body)
  {
    match body {
      case DirB(_, _, _, _, _) => ParseDirBack(get, head, body, blockSize);
      case FileB(_, _, _) => ParseFileBack(get, head, body, blockSize);
      case SymlinkB(_, _) => ParseSymlinkBack(get, head, body, blockSize);
      case DeviceB(_, _, _) => ParseDeviceBack(get, head, body, blockSize);
      case IpcB(_, _) => ParseIpcBack(get, head, body, blockSize);
    }
  }

  lemma {:induction false} HeadServed(get: Getter, head: Bytes, rest: Bytes)
    requires |head| == 16 && Serves(get, head + rest)
    ensures GetN(get, 16) == Some(head) && At(head, 0, head)
  {
    assert (head + rest)[..16] == head;
    assert head[0..16] == head;
  }

  /** Every record whose fields fit is read back field by field, whatever its kind. */
  lemma {:induction false} ParseBack(get: Getter, i: Inode, blockSize: nat)
    requires blockSize > 0 && Fits(i, blockSize) && Serves(get, Encode(i))
    ensures Parse(get, blockSize) == Some(i)
  {
    var head := EncodeHead(i);
    HeadServed(get, head, EncodeBody(i.body));
    HeadBack(head, i);
    ParseBodyBack(get, head, i.body, blockSize);
  }
}
