/**
 * A reader for squashfs 4.0 images, as section 3 of the kernel's squashfs description lays them
 * out: superblock, inode table, directory table, file blocks, uid/gid lookup. The repository has
 * no reader; this one says what an image means.
 */
module ImageReader {
  import opened Bytes
  import opened Metadata
  import opened Directory
  import opened IdTable
  import opened FileData
  import opened Superblock
  import Inodes

  datatype What =
    | RegularFile(data: Bytes)
    | Folder(nlink: nat, parent: nat, names: seq<Bytes>)
    | SymbolicLink(nlink: nat, target: Bytes)
    | Device(block: bool, nlink: nat, major: nat, minor: nat)
    | Ipc(socket: bool, nlink: nat)

  /** Everything a mounted image shows about one path. */
  datatype Stat = Stat(inode: nat, perm: nat, uid: nat, gid: nat, mtime: nat, what: What)

  /** Prefixes of the metadata stored from a given place on. */
  function From(c: Codec, img: Bytes, pos: nat, off: nat): Inodes.Getter
  {
    (n: nat) => ReadMeta(c, img, pos, off, n)
  }

  function ReadInode(c: Codec, img: Bytes, sb: Super, block: nat, off: nat): (r: Option<Inodes.Inode>)
    requires sb.blockSize > 0
  {
    Inodes.Parse(From(c, img, sb.inodeTableStart + block, off), sb.blockSize)
  }

  /** The stored size of a directory is its listing's length plus three. */
  function ReadDir(c: Codec, img: Bytes, sb: Super, body: Inodes.Body): (r: Option<seq<DirEnt>>)
  {
    if !body.DirB? || body.size < 3 then None
    else
      match ReadMeta(c, img, sb.directoryTableStart + body.start, body.off, body.size - 3)
      case None => None
      case Some(bs) => DecodeListing(bs)
  }

  function Names(es: seq<DirEnt>): (r: seq<Bytes>)
    ensures |r| == |es|
    ensures forall i | 0 <= i < |es| :: r[i] == es[i].name
  {
    if es == [] then [] else Names(es[..|es| - 1]) + [es[|es| - 1].name]
  }

  function ReadWhat(c: Codec, img: Bytes, sb: Super, body: Inodes.Body): (r: Option<What>)
  {
    match body
    case DirB(_, nlinks, _, _, parent) =>
      (match ReadDir(c, img, sb, body)
       case None => None
       case Some(es) => Some(Folder(nlinks, parent, Names(es))))
    case FileB(start, fileSize, sizes) =>
      (match ReadFile(c, img, start, sizes, fileSize, sb.blockSize)
       case None => None
       case Some(data) => Some(RegularFile(data)))
    case SymlinkB(nlinks, target) => Some(SymbolicLink(nlinks, target))
    case DeviceB(block, nlinks, dev) => Some(Device(block, nlinks, dev / 256, dev % 256))
    case IpcB(socket, nlinks) => Some(Ipc(socket, nlinks))
  }

  function StatInode(c: Codec, img: Bytes, sb: Super, i: Inodes.Inode): (r: Option<Stat>)
  {
    match (ReadId(c, img, sb.idTableStart, i.uidIdx), ReadId(c, img, sb.idTableStart, i.gidIdx),
        ReadWhat(c, img, sb, i.body))
    case (Some(uid), Some(gid), Some(what)) => Some(Stat(i.number, i.perm, uid, gid, i.mtime, what))
    case _ => None
  }

  function Find(es: seq<DirEnt>, name: Bytes): (r: Option<DirEnt>)
  {
    if es == [] then None else if es[0].name == name then Some(es[0]) else Find(es[1..], name)
  }

  /** Follows names down from an inode. A row must agree with the inode it leads to. */
  function Walk(c: Codec, img: Bytes, sb: Super, i: Inodes.Inode, names: seq<Bytes>): (r: Option<Stat>)
    requires sb.blockSize > 0
    decreases |names|
  {
    if names == [] then StatInode(c, img, sb, i)
    else
      match ReadDir(c, img, sb, i.body)
      case None => None
      case Some(es) =>
        match Find(es, names[0])
        case None => None
        case Some(e) =>
          match ReadInode(c, img, sb, e.block, e.off)
          case None => None
          case Some(next) =>
            if next.number != e.inode || Inodes.TypeOf(next.body) != e.typ then None
            else Walk(c, img, sb, next, names[1..])
  }

  /** What the image holds at a path, given as names from the root. */
  function Lookup(c: Codec, img: Bytes, names: seq<Bytes>): (r: Option<Stat>)
  {
    match Decode(img)
    case None => None
    case Some(sb) =>
      if sb.blockSize == 0 then None
      else
        match ReadInode(c, img, sb, sb.rootInodeRef / 0x1_0000, sb.rootInodeRef % 0x1_0000)
        case None => None
        case Some(root) => Walk(c, img, sb, root, names)
  }
}
