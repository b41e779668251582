/** The encodeBasic* functions (squashfs/inode.go:98-243): fields put into a buffer in place, after the width checks. */
module InodeEncoders {
  import opened Bytes
  import opened Records
  import opened Inodes

  /** What writeCommonHeader needs. */
  datatype Common = Common(perm: nat, uidIdx: nat, gidIdx: nat, mtime: nat, number: nat)

  function Record(h: Common, body: Body): Inode
  {
    Inode(h.perm, h.uidIdx, h.gidIdx, h.mtime, h.number, body)
  }

  /** The finished record, or nothing where the body was refused. */
  function WithHead(h: Common, body: Option<Body>): Option<Bytes>
  {
    match body
    case None => None
    case Some(b) => Some(Encode(Record(h, b)))
  }

  method WriteCommonHeader(buf: array<byte>, typ: nat, h: Common, ghost body: Body)
    requires buf.Length >= 16 && typ == TypeOf(body)
    modifies buf
    ensures buf[..16] == EncodeHead(Record(h, body)) && forall k | 16 <= k < buf.Length :: buf[k] == old(buf[k])
  {
    ghost var i := Record(h, body);
    ghost var ws, ls := HeadShort(i), HeadLong(i);
    PutNext(buf, 0, typ, 2, [], ws, 0);
    PutNext(buf, 2, h.perm, 2, [], ws, 1);
    PutNext(buf, 4, h.uidIdx, 2, [], ws, 2);
    PutNext(buf, 6, h.gidIdx, 2, [], ws, 3);
    TakeAll(ws);
    ghost var short := Words(ws, 2);
    Nil(short);
    PutPair(buf, 8, h.mtime, h.number, short);
  }

  /** Two 32-bit words behind what is already in place. */
  method PutPair(buf: array<byte>, off: nat, a: nat, b: nat, ghost head: Bytes)
    requires off + 8 <= buf.Length && buf[..off] == head
    modifies buf
    ensures buf[..off + 8] == head + Words([a, b], 4) && forall k | off + 8 <= k < buf.Length :: buf[k] == old(buf[k])
  {
    ghost var ws := [a, b];
    Nil(head);
    assert Words(ws[..0], 4) == [];
    PutNext(buf, off, a, 4, head, ws, 0);
    PutNext(buf, off + 4, b, 4, head, ws, 1);
    TakeAll(ws);
  }

  method EncodeBasicDir(h: Common, start: nat, nlinks: nat, listing: nat, off: nat, parent: nat)
                        returns (r: Option<Bytes>)
    ensures r == WithHead(h, DirBody(start, nlinks, listing, off, parent))
  {
    if start > 0xFFFF_FFFF {
      return None;
    }
    var listingSize := (listing + 3) % 0x1_0000_0000;
    if listingSize > 0xFFFF {
      return None;
    }
    ghost var body := DirB(start, nlinks, listingSize, off, parent);
    var buf := new byte[32](_ => 0);
    WriteCommonHeader(buf, TypeDir, h, body);
    ghost var head := EncodeHead(Record(h, body));
    PutPair(buf, 16, start, nlinks, head);
    ghost var a := Words([start, nlinks], 4);
    PutSizeAndOffset(buf, 24, listingSize, off, head + a);
    ghost var b := Words([listingSize, off], 2);
    PutOne(buf, 28, parent, head + a + b);
    Assoc(head + a, b, Words([parent], 4));
    Assoc(head, a, b + Words([parent], 4));
    Assoc(a, b, Words([parent], 4));
    assert buf[..] == buf[..32];
    return Some(buf[..]);
  }

  method PutSizeAndOffset(buf: array<byte>, off: nat, a: nat, b: nat, ghost head: Bytes)
    requires off + 4 <= buf.Length && buf[..off] == head
    modifies buf
    ensures buf[..off + 4] == head + Words([a, b], 2)
  {
    ghost var ws := [a, b];
    Nil(head);
    assert Words(ws[..0], 2) == [];
    PutNext(buf, off, a, 2, head, ws, 0);
    PutNext(buf, off + 2, b, 2, head, ws, 1);
    TakeAll(ws);
  }

  method PutOne(buf: array<byte>, off: nat, a: nat, ghost head: Bytes)
    requires off + 4 <= buf.Length && buf[..off] == head
    modifies buf
    ensures buf[..off + 4] == head + Words([a], 4)
  {
    ghost var ws := [a];
    Nil(head);
    assert Words(ws[..0], 4) == [];
    PutNext(buf, off, a, 4, head, ws, 0);
    TakeAll(ws);
  }

  method EncodeBasicFile(h: Common, start: nat, fileSize: nat, sizes: seq<nat>, blockSize: nat)
                         returns (r: Option<Bytes>)
    requires blockSize > 0
    ensures r == WithHead(h, FileBody(start, fileSize, sizes, blockSize))
  {
    if start > 0xFFFF_FFFF {
      return None;
    }
    if fileSize > 0xFFFF_FFFF {
      return None;
    }
    if |sizes| != Ceil(fileSize, blockSize) {
      return None;
    }
    var bytes := FileRecord(h, start, fileSize, sizes);
    return Some(bytes);
  }

  method FileRecord(h: Common, start: nat, fileSize: nat, sizes: seq<nat>) returns (r: Bytes)
    ensures r == Encode(Record(h, FileB(start, fileSize, sizes)))
  {
    ghost var body := FileB(start, fileSize, sizes);
    var buf := new byte[32 + 4 * |sizes|](_ => 0);
    WriteCommonHeader(buf, TypeFile, h, body);
    ghost var head := EncodeHead(Record(h, body));
    PutFixed(buf, start, fileSize, head);
    ghost var fixed := Words([start, NoFragment, 0, fileSize], 4);
    PutSizes(buf, sizes, head + fixed);
    Assoc(head, fixed, Words(sizes, 4));
    assert buf[..] == buf[..32 + 4 * |sizes|];
    r := buf[..];
  }

  method PutFixed(buf: array<byte>, start: nat, fileSize: nat, ghost head: Bytes)
    requires buf.Length >= 32 && buf[..16] == head
    modifies buf
    ensures buf[..32] == head + Words([start, NoFragment, 0, fileSize], 4)
  {
    ghost var ws := [start, NoFragment, 0, fileSize];
    Nil(head);
    assert Words(ws[..0], 4) == [];
    PutNext(buf, 16, start, 4, head, ws, 0);
    PutNext(buf, 20, NoFragment, 4, head, ws, 1);
    PutNext(buf, 24, 0, 4, head, ws, 2);
    PutNext(buf, 28, fileSize, 4, head, ws, 3);
    TakeAll(ws);
  }

  method PutSizes(buf: array<byte>, sizes: seq<nat>, ghost head: Bytes)
    requires buf.Length == 32 + 4 * |sizes| && buf[..32] == head
    modifies buf
    ensures buf[..32 + 4 * |sizes|] == head + Words(sizes, 4)
  {
    Nil(head);
    assert Words(sizes[..0], 4) == [];
    for i := 0 to |sizes|
      invariant buf[..32 + 4 * i] == head + Words(sizes[..i], 4)
    {
      PutNext(buf, 32 + 4 * i, sizes[i], 4, head, sizes, i);
    }
    TakeAll(sizes);
  }

  method EncodeBasicSymlink(h: Common, nlinks: nat, target: Bytes) returns (r: Option<Bytes>)
    ensures r == WithHead(h, SymlinkBody(nlinks, target))
  {
    if |target| > 0xFFFF {
      return None;
    }
    ghost var body := SymlinkB(nlinks, target);
    var buf := new byte[24 + |target|](_ => 0);
    WriteCommonHeader(buf, TypeSymlink, h, body);
    ghost var head := EncodeHead(Record(h, body));
    PutPair(buf, 16, nlinks, |target|, head);
    PutBytes(buf, 24, target);
    Assoc(head, Words([nlinks, |target|], 4), target);
    assert buf[..] == buf[..24 + |target|];
    return Some(buf[..]);
  }

  /** encodeDevice: 12 bits of major, 8 of minor, anything larger refused. */
  function EncodeDevice(major: nat, minor: nat): (r: Option<nat>)
    ensures r.Some? <==> major <= 0xFFF && minor <= 0xFF
    ensures r.Some? ==> r.value / 256 == major && r.value % 256 == minor && r.value < 0x10_0000
  {
    if major > 0xFFF || minor > 0xFF then None else Some(major * 256 + minor)
  }

  method EncodeBasicDevice(h: Common, nlinks: nat, major: nat, minor: nat, block: bool) returns (r: Option<Bytes>)
    ensures r == WithHead(h, DeviceBody(block, nlinks, major, minor))
  {
    var dev := EncodeDevice(major, minor);
    if dev.None? {
      return None;
    }
    ghost var body := DeviceB(block, nlinks, dev.value);
    var buf := new byte[24](_ => 0);
    WriteCommonHeader(buf, if block then TypeBlock else TypeChar, h, body);
    PutPair(buf, 16, nlinks, dev.value, EncodeHead(Record(h, body)));
    assert buf[..] == buf[..24];
    return Some(buf[..]);
  }

  method EncodeBasicIPC(h: Common, nlinks: nat, socket: bool) returns (r: Bytes)
    ensures Some(r) == WithHead(h, Some(IpcB(socket, nlinks)))
  {
    ghost var body := IpcB(socket, nlinks);
    var buf := new byte[20](_ => 0);
    WriteCommonHeader(buf, if socket then TypeSocket else TypeFifo, h, body);
    PutOne(buf, 16, nlinks, EncodeHead(Record(h, body)));
    assert buf[..] == buf[..20];
    return buf[..];
  }

  /**
   * A directory record is made and tells the true length of its listing exactly when that, plus
   * three, fits the 16-bit field. The 32-bit count in front of the check wraps, so a record may also
   * be made for a listing of 4 GiB or more, and is then wrong.
   */
  lemma {:induction false} DirSizeExact(start: nat, nlinks: nat, length: nat, off: nat, parent: nat)
    requires start <= 0xFFFF_FFFF
    ensures
      var r := DirBody(start, nlinks, length % 0x1_0000_0000, off, parent);
      && (r.Some? && r.value.size == length + 3 <==> length + 3 <= 0xFFFF)
      && (r.Some? && r.value.size != length + 3 <==>
            length + 3 >= 0x1_0000_0000 && (length + 3) % 0x1_0000_0000 <= 0xFFFF)
  {
  }
}
