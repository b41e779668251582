/**
 * The passes of Close over the entries (squashfs/writer.go:583-713, 845-887). The fields Close
 * resolves on each entry are maps here, keyed by the entry's path; every pass is proved to leave
 * in them what the Closing module says.
 */
module ClosePasses {
  import opened Bytes
  import opened Paths
  import opened Sorting
  import opened Chunking
  import opened IdTable
  import opened WriterSpec
  import opened Closing
  import opened TreeProofs
  import opened TableProofs

  /** Consecutive numbers, as a uint32 counter gives them. */
  predicate Numbered(m: map<Path, nat>, s: seq<Path>, base: nat)
  {
    forall i | 0 <= i < |s| :: s[i] in m && m[s[i]] == (base + i) % 0x1_0000_0000
  }

  predicate SameOutside(a: map<Path, nat>, b: map<Path, nat>, s: seq<Path>)
  {
    && (forall q | q in a && q !in s :: q in b && b[q] == a[q])
    && (forall q | q in b && q !in s :: q in a)
  }

  /**
   * The entries of `s`, and no others, were given numbers from `base` on and the number of their
   * own directory as parent; `d` is the directory above the ones that start `s`.
   */
  predicate Assigned(num: map<Path, nat>, par: map<Path, nat>, num': map<Path, nat>, par': map<Path, nat>,
                     s: seq<Path>, base: nat, d: Path)
  {
    && Numbered(num', s, base)
    && SameOutside(num, num', s) && SameOutside(par, par', s)
    && (forall q {:trigger ParentSet(num', par', s, d, q)} | q in s :: ParentSet(num', par', s, d, q))
  }

  /** The entry's parent field is the number of its directory, which `s` or `d` accounts for. */
  predicate ParentSet(num: map<Path, nat>, par: map<Path, nat>, s: seq<Path>, d: Path, q: Path)
  {
    (Dir(q) == d || Dir(q) in s) && q in par && Dir(q) in num && par[q] == num[Dir(q)]
  }

  lemma {:induction false} NumberedJoin(m: map<Path, nat>, m': map<Path, nat>, a: seq<Path>, b: seq<Path>, base: nat,
                                        next: nat)
    requires Numbered(m, a, base) && Numbered(m', b, next) && next == base + |a| && SameOutside(m, m', b)
    requires forall q | q in a :: q !in b
    ensures Numbered(m', a + b, base)
  {
    forall i | 0 <= i < |a + b|
      ensures (a + b)[i] in m' && m'[(a + b)[i]] == (base + i) % 0x1_0000_0000
    {
      if i < |a| {
        assert a[i] in a;
      } else {
        assert (a + b)[i] == b[i - |a|];
        assert next + (i - |a|) == base + i;
      }
    }
  }

  lemma {:induction false} OutsideJoin(a: map<Path, nat>, b: map<Path, nat>, c: map<Path, nat>, s: seq<Path>,
                                       t: seq<Path>)
    requires SameOutside(a, b, s) && SameOutside(b, c, t)
    ensures SameOutside(a, c, s + t)
  {
  }

  /** Two stretches of the walk, the second either beside the first or below its single entry. */
  lemma {:induction false} AssignedJoin(n0: map<Path, nat>, p0: map<Path, nat>, n1: map<Path, nat>, p1: map<Path, nat>,
                                        n2: map<Path, nat>, p2: map<Path, nat>,
                                        s: seq<Path>, t: seq<Path>, base: nat, next: nat, d: Path, e: Path)
    requires Assigned(n0, p0, n1, p1, s, base, d) && Assigned(n1, p1, n2, p2, t, next, e) && next == base + |s|
    requires forall q | q in s :: q !in t
    requires d !in t && (e == d || e in s)
    ensures Assigned(n0, p0, n2, p2, s + t, base, d)
  {
    NumberedJoin(n1, n2, s, t, base, next);
    OutsideJoin(n0, n1, n2, s, t);
    OutsideJoin(p0, p1, p2, s, t);
    forall q | q in s + t
      ensures ParentSet(n2, p2, s + t, d, q)
    {
      if q in s {
        assert ParentSet(n1, p1, s, d, q);
        ParentKept(n1, p1, n2, p2, s, t, d, q);
      } else {
        assert ParentSet(n2, p2, t, e, q);
      }
    }
  }

  lemma {:induction false} ParentKept(n1: map<Path, nat>, p1: map<Path, nat>, n2: map<Path, nat>, p2: map<Path, nat>,
                                      s: seq<Path>, t: seq<Path>, d: Path, q: Path)
    requires q in s && ParentSet(n1, p1, s, d, q)
    requires SameOutside(n1, n2, t) && SameOutside(p1, p2, t)
    requires d !in t && forall r | r in s :: r !in t
    ensures q in p2 && Dir(q) in n2 && p2[q] == n2[Dir(q)]
  {
  }

  // ---- What the passes leave behind ----

  /** The walk meets every owner of an inode, the root first. */
  ghost predicate InOrder(env: Env)
  {
    && (forall q :: q in env.pre <==> q in InodeOwners(env.x))
    && env.pre != [] && env.pre[0] == Root
  }

  ghost predicate NumbersDone(env: Env, num: map<Path, nat>, par: map<Path, nat>)
  {
    forall p | p in InodeOwners(env.x) ::
      && p in num && num[p] == NumberOf(env, p)
      && p in par && par[p] == ParentNumber(env, p)
  }

  /** Link counts are settled except for files, whose counts the source never writes out. */
  ghost predicate LinksDone(x: Ctx, links: map<Path, nat>)
  {
    forall p | p in InodeOwners(x) && !x.entries[p].node.FileN? :: p in links && links[p] == LinksOf(x, p)
  }

  ghost predicate OwnersDone(x: Ctx, u: map<Path, nat>, g: map<Path, nat>, list: seq<u32>)
  {
    forall p | p in InodeOwners(x) :: Indexed(x, u, g, list, p)
  }

  class EntryTable {
    const x: Ctx
    var children: map<Path, seq<Path>>
    var inodeNumber: map<Path, nat>
    var parentInode: map<Path, nat>
    var nlinks: map<Path, nat>
    var uidIdx: map<Path, nat>
    var gidIdx: map<Path, nat>
    var inodeRef: map<Path, MetaRef>
    var dirLoc: map<Path, Loc>

    constructor (x: Ctx)
      ensures this.x == x && inodeRef == map[] && dirLoc == map[]
    {
      this.x := x;
      inodeRef, dirLoc := map[], map[];
      children, inodeNumber, parentInode, nlinks, uidIdx, gidIdx := map[], map[], map[], map[], map[], map[];
    }

    /** Every directory's children are attached and sorted. */
    ghost predicate TreeBuilt()
      reads this`children
    {
      forall d | d in x.entries && IsDir(x, d) :: d in children && children[d] == Kids(x, d)
    }

    // ---- buildTree ----

    /** One turn of the first loop of buildTree. */
    method AttachNext(i: nat) returns (found: bool)
      requires i < |x.order| && Attached(x, children, x.order[..i]) && ParentsUpTo(x, i)
      modifies this`children
      ensures found <==> IsDir(x, Dir(x.order[i]))
      ensures found ==> Attached(x, children, x.order[..i + 1]) && ParentsUpTo(x, i + 1)
    {
      var p := x.order[i];
      var parent := Dir(p);
      if parent !in x.entries || !x.entries[parent].node.DirN? {
        return false;
      }
      ParentFound(x, i);
      children := AttachOne(x, children, parent, p, i);
      return true;
    }

    method AttachChildren() returns (ok: bool)
      modifies this`children
      ensures ok <==> ParentsOk(x)
      ensures ok ==> Attached(x, children, x.order)
    {
      children := NoChildren(x);
      AttachNone(x);
      for i := 0 to |x.order|
        invariant Attached(x, children, x.order[..i]) && ParentsUpTo(x, i)
      {
        var found := AttachNext(i);
        if !found {
          ParentMissing(x, i);
          return false;
        }
      }
      TakeAll(x.order);
      return true;
    }

    method SortRec(d: Path, ghost b: Branch)
      requires GoodCtx(x) && IsBranch(x, b) && b.path == d && IsDir(x, d)
      requires children.Keys == x.entries.Keys && Unsorted(x, children, DirsUnder(x, d))
      modifies this`children
      ensures SortedBelow(x, old(children), children, DirsUnder(x, d))
      decreases b, 1
    {
      ghost var before := children;
      SortedHere(x, before, b, d);
      var ks := Sort(children[d], BaseOf);
      children := children[d := ks];
      ghost var mid := children;
      SortSubdirs(ks, b);
      SortedJoin(x, before, mid, children, {d}, DirsCovered(x, b.kids));
    }

    /** One turn of the loop of sortRec. */
    method SortKid(k: Path, ghost b: Branch, ghost i: nat, ghost before: map<Path, seq<Path>>)
      requires GoodCtx(x) && IsBranch(x, b) && IsDir(x, b.path) && i < |b.kids| && k == b.kids[i].path && k in x.entries
      requires Unsorted(x, before, DirsCovered(x, b.kids)) && SortedBelow(x, before, children,
                 DirsCovered(x, b.kids[..i]))
      modifies this`children
      ensures SortedBelow(x, before, children, DirsCovered(x, b.kids[..i + 1]))
      decreases b, 0, 0
    {
      KidsPlaced(x, b);
      DirsSnoc(x, b.kids, i, b.path);
      if x.entries[k].node.DirN? {
        ghost var done, mid := DirsCovered(x, b.kids[..i]), children;
        StillUnsorted(x, before, children, done, b.kids, i);
        SortRec(k, b.kids[i]);
        SortedJoin(x, before, mid, children, done, DirsUnder(x, k));
      }
    }

    /** The loop of sortRec: recurse into the children that are directories. */
    method SortSubdirs(ks: seq<Path>, ghost b: Branch)
      requires GoodCtx(x) && IsBranch(x, b) && IsDir(x, b.path) && ks == Kids(x, b.path)
      requires children.Keys == x.entries.Keys && Unsorted(x, children, DirsCovered(x, b.kids))
      modifies this`children
      ensures SortedBelow(x, old(children), children, DirsCovered(x, b.kids))
      decreases b, 0, 1
    {
      ghost var before := children;
      KidsThere(x, b, ks);
      NoneCovered(x, b.kids);
      var i := 0;
      while i < |ks|
        invariant 0 <= i <= |ks|
        invariant SortedBelow(x, before, children, DirsCovered(x, b.kids[..i]))
      {
        SortKid(ks[i], b, i, before);
        i := i + 1;
      }
      TakeAll(b.kids);
    }

    method BuildTree() returns (ok: bool)
      requires BaseCtx(x)
      modifies this`children
      ensures ok <==> ParentsOk(x)
      ensures ok ==> TreeBuilt()
    {
      ok := AttachChildren();
      if ok {
        RootShort(x);
        GrowIsBranch(x, Root);
        SortRec(Root, Grow(x, Root));
        assert forall d | d in x.entries && IsDir(x, d) :: d in children;
        forall d | d in x.entries && IsDir(x, d)
          ensures children[d] == Kids(x, d)
        {
          AllUnderRoot(x, d);
        }
      }
    }

    // ---- assignInodeNumbers ----

    method Walk(p: Path, parent: nat, next: nat, ghost b: Branch) returns (last: nat)
      requires GoodCtx(x) && IsBranch(x, b) && b.path == p && TreeBuilt()
      requires p == Root ==> parent == next % 0x1_0000_0000
      requires p != Root ==> Dir(p) in inodeNumber && parent == inodeNumber[Dir(p)]
      modifies this`inodeNumber, this`parentInode
      ensures last == next + |Preorder(x, b)|
      ensures Assigned(old(inodeNumber), old(parentInode), inodeNumber, parentInode, Preorder(x, b), next, Dir(p))
      decreases b, 1
    {
      if x.entries[p].node.HardlinkN? {
        return next;
      }
      ghost var n0, p0 := inodeNumber, parentInode;
      inodeNumber := inodeNumber[p := next % 0x1_0000_0000];
      parentInode := parentInode[p := parent];
      FirstAssigned(x, n0, p0, p, next, parent);
      ghost var n1, p1 := inodeNumber, parentInode;
      last := next + 1;
      if x.entries[p].node.DirN? {
        last := WalkKids(p, children[p], next + 1, b);
      }
      BelowApart(x, b);
      if x.entries[p].node.DirN? {
        AssignedJoin(n0, p0, n1, p1, inodeNumber, parentInode, [p], PreorderAll(x, b.kids), next, next + 1, Dir(p), p);
      } else {
        Nil([p]);
      }
    }

    /** One turn of the loop over a directory's children. */
    method WalkKid(d: Path, k: Path, next: nat, ghost b: Branch, ghost i: nat,
                   ghost n0: map<Path, nat>, ghost p0: map<Path, nat>, ghost base: nat) returns (last: nat)
      requires GoodCtx(x) && IsBranch(x, b) && b.path == d && IsDir(x, d) && TreeBuilt()
      requires i < |b.kids| && i < |Kids(x, d)| && k == Kids(x, d)[i] && d in inodeNumber
      requires next == base + |PreorderAll(x, b.kids[..i])|
      requires Assigned(n0, p0, inodeNumber, parentInode, PreorderAll(x, b.kids[..i]), base, d)
      modifies this`inodeNumber, this`parentInode
      ensures d in inodeNumber
      ensures last == base + |PreorderAll(x, b.kids[..i + 1])|
      ensures Assigned(n0, p0, inodeNumber, parentInode, PreorderAll(x, b.kids[..i + 1]), base, d)
      decreases b, 0, 0
    {
      ghost var s, t, n1, p1 := PreorderAll(x, b.kids[..i]), Preorder(x, b.kids[i]), inodeNumber, parentInode;
      KidApart(x, b, i);
      KidNotRoot(x, b, i);
      last := Walk(k, inodeNumber[d], next, b.kids[i]);
      AssignedJoin(n0, p0, n1, p1, inodeNumber, parentInode, s, t, base, next, d, d);
    }

    /** The loop of the walk over a directory's children. */
    method WalkKids(d: Path, ks: seq<Path>, next: nat, ghost b: Branch) returns (last: nat)
      requires GoodCtx(x) && IsBranch(x, b) && b.path == d && IsDir(x, b.path) && ks == Kids(x, b.path) && TreeBuilt()
      requires b.path in inodeNumber
      modifies this`inodeNumber, this`parentInode
      ensures last == next + |PreorderAll(x, b.kids)|
      ensures Assigned(old(inodeNumber), old(parentInode), inodeNumber, parentInode, PreorderAll(x, b.kids), next,
                b.path)
      decreases b, 0, 1
    {
      ghost var n0, p0 := inodeNumber, parentInode;
      NoneAssigned(x, b.kids, n0, p0, next, d);
      last := next;
      var i := 0;
      while i < |ks|
        invariant 0 <= i <= |ks| && d in inodeNumber
        invariant last == next + |PreorderAll(x, b.kids[..i])|
        invariant Assigned(n0, p0, inodeNumber, parentInode, PreorderAll(x, b.kids[..i]), next, d)
      {
        last := WalkKid(d, ks[i], last, b, i, n0, p0, next);
        i := i + 1;
      }
      TakeAll(b.kids);
    }

    method AssignInodeNumbers(ghost env: Env, ghost root: Branch)
      requires GoodCtx(x) && TreeBuilt() && env.x == x && IsBranch(x, root) && root.path == Root
      requires env.pre == Preorder(x, root) && InOrder(env)
      modifies this`inodeNumber, this`parentInode
      ensures NumbersDone(env, inodeNumber, parentInode)
    {
      ghost var n0, p0 := inodeNumber, parentInode;
      var one: nat := 1;
      OneFits(one);
      DirOfRoot();
      var _ := Walk(Root, one, one, root);
      AllNumbered(env, n0, p0, inodeNumber, parentInode);
    }

    // ---- computeLinkCounts ----

    /**
     * The first loop ranges over a Go map, so its order is arbitrary: it is `order` here, any
     * arrangement of the entries. A file visited after one of its links loses that link's count.
     */
    method InitLinks(order: seq<Path>)
      requires BaseCtx(x) && forall p :: p in order <==> p in x.entries
      modifies this`nlinks
      ensures forall p | Counted(x, p) :: p in nlinks && nlinks[p] == 1
    {
      for i := 0 to |order|
        invariant forall p | p in order[..i] && Counted(x, p) :: p in nlinks && nlinks[p] == 1
      {
        var p := order[i];
        TakeNext(order, i);
        match x.entries[p].node {
          case DirN(_) =>
          case HardlinkN(t) =>
            var n := if t in nlinks then nlinks[t] else 0;
            nlinks := nlinks[t := n + 1];
          case _ =>
            nlinks := nlinks[p := 1];
        }
      }
      TakeAll(order);
    }

    method CountDir(d: Path, ghost b: Branch)
      requires GoodCtx(x) && IsBranch(x, b) && b.path == d && IsDir(x, d) && TreeBuilt()
      modifies this`nlinks
      ensures LinksBelow(x, old(nlinks), nlinks, DirsUnder(x, d))
      decreases b, 1, 0
    {
      ghost var before := nlinks;
      var ks := children[d];
      var subdirs := CountSubdirs(ks, b);
      ghost var mid := nlinks;
      var n := (2 + subdirs) % 0x1_0000_0000;
      LinksAre(x, d, ks, subdirs);
      nlinks := nlinks[d := n];
      DirsSplit(x, b);
      LinksSet(x, before, mid, DirsCovered(x, b.kids), DirsUnder(x, d), d, n);
    }

    /** One turn of the loop that counts a directory's subdirectories. */
    method CountKid(k: Path, subdirs: nat, ghost b: Branch, ghost i: nat, ghost before: map<Path, nat>)
                    returns (n: nat)
      requires GoodCtx(x) && IsBranch(x, b) && IsDir(x, b.path) && TreeBuilt()
      requires i < |b.kids| && i < |Kids(x, b.path)| && k == Kids(x, b.path)[i]
      requires LinksBelow(x, before, nlinks, DirsCovered(x, b.kids[..i]))
      modifies this`nlinks
      ensures n == subdirs + if IsDir(x, k) then 1 else 0
      ensures LinksBelow(x, before, nlinks, DirsCovered(x, b.kids[..i + 1]))
      decreases b, 0, 0
    {
      DirsKid(x, b, i);
      n := subdirs;
      if x.entries[k].node.DirN? {
        n := n + 1;
        ghost var mid := nlinks;
        CountDir(k, b.kids[i]);
        LinksJoin(x, before, mid, nlinks, DirsCovered(x, b.kids[..i]), DirsUnder(x, k));
      }
    }

    method CountSubdirs(ks: seq<Path>, ghost b: Branch) returns (subdirs: nat)
      requires GoodCtx(x) && IsBranch(x, b) && IsDir(x, b.path) && ks == Kids(x, b.path) && TreeBuilt()
      modifies this`nlinks
      ensures subdirs == CountDirs(x, ks)
      ensures LinksBelow(x, old(nlinks), nlinks, DirsCovered(x, b.kids))
      decreases b, 0, 1
    {
      ghost var before := nlinks;
      NoneCovered(x, b.kids);
      subdirs := 0;
      var i := 0;
      while i < |ks|
        invariant 0 <= i <= |ks|
        invariant subdirs == CountDirs(x, ks[..i])
        invariant LinksBelow(x, before, nlinks, DirsCovered(x, b.kids[..i]))
      {
        CountNext(x, ks, i);
        subdirs := CountKid(ks[i], subdirs, b, i, before);
        i := i + 1;
      }
      TakeAll(ks);
      TakeAll(b.kids);
    }

    /** Whatever the order of the first loop, every count that is ever written out comes out the same. */
    method ComputeLinkCounts(order: seq<Path>, ghost root: Branch)
      requires GoodCtx(x) && TreeBuilt() && IsBranch(x, root) && root.path == Root
      requires forall p :: p in order <==> p in x.entries
      modifies this`nlinks
      ensures LinksDone(x, nlinks)
    {
      InitLinks(order);
      CountDir(Root, root);
      forall p | p in InodeOwners(x) && !x.entries[p].node.FileN?
        ensures p in nlinks && nlinks[p] == LinksOf(x, p)
      {
        if IsDir(x, p) {
          AllUnderRoot(x, p);
        } else {
          assert Counted(x, p);
        }
      }
    }

    // ---- internIDs ----

    /** Both IDs of one entry. */
    method InternEntry(ids: IdTable, p: Path) returns (ok: bool)
      requires ids.Valid() && p in InodeOwners(x)
      modifies this`uidIdx, this`gidIdx, ids
      ensures ids.Valid()
      ensures var both := InternAll(old(ids.list), [AttrsOf(x.entries[p].node).uid, AttrsOf(x.entries[p].node).gid]);
              && (ok <==> both.Some?)
              && (ok ==> ids.list == both.value)
      ensures ok ==> old(ids.list) <= ids.list && Indexed(x, uidIdx, gidIdx, ids.list, p)
      ensures forall q | q in old(uidIdx) && q != p :: q in uidIdx && uidIdx[q] == old(uidIdx)[q]
      ensures forall q | q in old(gidIdx) && q != p :: q in gidIdx && gidIdx[q] == old(gidIdx)[q]
    {
      var a := AttrsOf(x.entries[p].node);
      var u, g;
      ok, u, g := InternPair(ids, a.uid, a.gid, [a.uid, a.gid]);
      if ok {
        uidIdx := uidIdx[p := u];
        gidIdx := gidIdx[p := g];
      }
    }

    method InternIDs(ids: IdTable) returns (ok: bool)
      requires BaseCtx(x) && x.entries[Root].node == DirN(RootAttrs(x.cfg)) && ids.Valid() && ids.list == []
      modifies this`uidIdx, this`gidIdx, ids
      ensures ids.Valid()
      ensures ok <==> IdList(x).Some?
      ensures ok ==> ids.list == IdList(x).value && OwnersDone(x, uidIdx, gidIdx, ids.list)
    {
      for i := 0 to |x.order|
        invariant ids.Valid()
        invariant InternAll([], IdsMet(x, x.order[..i])) == Some(ids.list)
        invariant forall p | p in x.order[..i] && p in InodeOwners(x) :: Indexed(x, uidIdx, gidIdx, ids.list, p)
      {
        var p := x.order[i];
        MetNext(x, i, ids.list);
        TakeNext(x.order, i);
        if !x.entries[p].node.HardlinkN? {
          ghost var u, g, list := uidIdx, gidIdx, ids.list;
          var good := InternEntry(ids, p);
          if !good {
            MetFails(x, i + 1);
            return false;
          }
          StillIndexed(x, u, g, list, uidIdx, gidIdx, ids.list, x.order[..i], p);
        }
      }
      TakeAll(x.order);
      InternAllConcat([], IdsMet(x, x.order), [0, 0]);
      ghost var u, g, list := uidIdx, gidIdx, ids.list;
      ok := InternEntry(ids, Root);
      if ok {
        StillIndexed(x, u, g, list, uidIdx, gidIdx, ids.list, x.order, Root);
      }
    }

    // ---- totalInodeCount, imageMtime ----

    /** Both range over the Go map; `order` is whatever order that gives. */
    method TotalInodeCount(order: seq<Path>) returns (n: nat)
      requires forall p :: p in order <==> p in x.entries
      requires forall i, j | 0 <= i < j < |order| :: order[i] != order[j]
      ensures n == |InodeOwners(x)| % 0x1_0000_0000
    {
      n := 0;
      for i := 0 to |order|
        invariant n == CountOwners(x, order[..i]) % 0x1_0000_0000
      {
        assert order[..i + 1][..i] == order[..i];
        if !x.entries[order[i]].node.HardlinkN? {
          WrapNext(CountOwners(x, order[..i]));
          n := (n + 1) % 0x1_0000_0000;
        }
      }
      TakeAll(order);
      OwnersCounted(x, order);
    }

    method ImageTime(order: seq<Path>) returns (t: nat)
      requires BaseCtx(x) && x.entries[Root].node == DirN(RootAttrs(x.cfg))
      requires forall p :: p in order <==> p in x.entries
      ensures t == ImageMtime(x)
    {
      if x.cfg.mtime.Some? {
        return Clamp32(x.cfg.mtime.value);
      }
      var max := 0;
      for i := 0 to |order|
        invariant max == MaxMtime(x, order[..i])
      {
        assert order[..i + 1][..i] == order[..i];
        var node := x.entries[order[i]].node;
        if !node.HardlinkN? && node.attrs.mtime.Some? {
          var s := node.attrs.mtime.value;
          if s > max {
            max := s;
          }
        }
      }
      TakeAll(order);
      SameMaximum(x, order);
      t := Clamp32(max);
    }
  }

  // ---- Owner indices ----

  method InternPair(ids: IdTable, uid: u32, gid: u32, ghost pair: seq<u32>) returns (ok: bool, u: nat, g: nat)
    requires ids.Valid() && |pair| == 2 && pair[0] == uid && pair[1] == gid
    modifies ids
    ensures ids.Valid()
    ensures ok <==> InternAll(old(ids.list), pair).Some?
    ensures ok ==> ids.list == InternAll(old(ids.list), pair).value && old(ids.list) <= ids.list
    ensures ok ==> uid in ids.list && u == IndexOf(ids.list, uid)
    ensures ok ==> gid in ids.list && g == IndexOf(ids.list, gid)
  {
    ok, u, g := false, 0, 0;
    InternTwo(ids.list, pair);
    var first := ids.Intern(uid);
    if first.None? {
      return;
    }
    ghost var mid := ids.list;
    var second := ids.Intern(gid);
    if second.None? {
      return;
    }
    IndexStable(mid, ids.list, uid);
    return true, first.value, second.value;
  }


  predicate Indexed(x: Ctx, u: map<Path, nat>, g: map<Path, nat>, list: seq<u32>, p: Path)
    requires p in InodeOwners(x)
  {
    var a := AttrsOf(x.entries[p].node);
    && p in u && a.uid in list && u[p] == IndexOf(list, a.uid)
    && p in g && a.gid in list && g[p] == IndexOf(list, a.gid)
  }

  lemma {:induction false} InternTwo(list: seq<u32>, pair: seq<u32>)
    requires |pair| == 2
    ensures InternAll(list, pair) ==
              match Interned(list, pair[0]) case None => None case Some(next) => Interned(next, pair[1])
  {
    if Interned(list, pair[0]).Some? {
      InternOne(Interned(list, pair[0]).value, pair[1..]);
    }
  }

  lemma {:induction false} InternOne(list: seq<u32>, one: seq<u32>)
    requires |one| == 1
    ensures InternAll(list, one) == Interned(list, one[0])
  {
    assert one[1..] == [];
  }

  lemma {:induction false} StillIndexed(x: Ctx, u: map<Path, nat>, g: map<Path, nat>, list: seq<u32>,
                                        u': map<Path, nat>, g': map<Path, nat>, list': seq<u32>, done: seq<Path>,
                                            p: Path)
    requires list <= list' && Distinct(list') && p in InodeOwners(x) && Indexed(x, u', g', list', p)
    requires forall q | q in done && q in InodeOwners(x) :: Indexed(x, u, g, list, q)
    requires forall q | q in u && q != p :: q in u' && u'[q] == u[q]
    requires forall q | q in g && q != p :: q in g' && g'[q] == g[q]
    ensures forall q | (q in done || q == p) && q in InodeOwners(x) :: Indexed(x, u', g', list', q)
  {
    forall q | q in done && q in InodeOwners(x) && q != p
      ensures Indexed(x, u', g', list', q)
    {
      IndexStable(list, list', AttrsOf(x.entries[q].node).uid);
      IndexStable(list, list', AttrsOf(x.entries[q].node).gid);
    }
  }

  lemma {:induction false} MetNext(x: Ctx, i: nat, list: seq<u32>)
    requires i < |x.order| && x.order[i] in x.entries
    requires InternAll([], IdsMet(x, x.order[..i])) == Some(list)
    ensures
      var node := x.entries[x.order[i]].node;
      InternAll([], IdsMet(x, x.order[..i + 1])) ==
        if node.HardlinkN? then Some(list) else InternAll(list, [AttrsOf(node).uid, AttrsOf(node).gid])
  {
    assert x.order[..i + 1][..i] == x.order[..i];
    var node := x.entries[x.order[i]].node;
    if !node.HardlinkN? {
      InternAllConcat([], IdsMet(x, x.order[..i]), [AttrsOf(node).uid, AttrsOf(node).gid]);
    }
  }

  /** Once the index space is used up, no later entry changes that. */
  lemma {:induction false} MetFails(x: Ctx, i: nat)
    requires i <= |x.order| && InternAll([], IdsMet(x, x.order[..i])).None?
    ensures IdList(x).None?
    decreases |x.order| - i
  {
    if i == |x.order| {
      TakeAll(x.order);
      InternAllConcat([], IdsMet(x, x.order), [0, 0]);
    } else {
      var p := x.order[i];
      assert x.order[..i + 1][..i] == x.order[..i];
      if p in x.entries && !x.entries[p].node.HardlinkN? {
        InternAllConcat([], IdsMet(x, x.order[..i]), [AttrsOf(x.entries[p].node).uid, AttrsOf(x.entries[p].node).gid]);
      }
      MetFails(x, i + 1);
    }
  }

  lemma {:induction false} OneFits(one: nat)
    requires one == 1
    ensures one % 0x1_0000_0000 == one
  {
  }

  lemma {:induction false} WrapNext(n: nat)
    ensures (n % 0x1_0000_0000 + 1) % 0x1_0000_0000 == (n + 1) % 0x1_0000_0000
  {
  }

  function CountOwners(x: Ctx, order: seq<Path>): (n: nat)
  {
    if order == [] then 0
    else CountOwners(x, order[..|order| - 1]) + if order[|order| - 1] in InodeOwners(x) then 1 else 0
  }

  lemma {:induction false} OwnersMet(x: Ctx, order: seq<Path>)
    requires forall i, j | 0 <= i < j < |order| :: order[i] != order[j]
    ensures CountOwners(x, order) == |set p | p in order && p in InodeOwners(x)|
    decreases |order|
  {
    if order != [] {
      var n := |order| - 1;
      OwnersMet(x, order[..n]);
      TakeNext(order, n);
      TakeAll(order);
      var before, after := set p | p in order[..n] && p in InodeOwners(x), set p | p in order && p in InodeOwners(x);
      if order[n] in InodeOwners(x) {
        assert after == before + {order[n]};
      } else {
        assert after == before;
      }
    }
  }

  lemma {:induction false} OwnersCounted(x: Ctx, order: seq<Path>)
    requires forall p :: p in order <==> p in x.entries
    requires forall i, j | 0 <= i < j < |order| :: order[i] != order[j]
    ensures CountOwners(x, order) == |InodeOwners(x)|
  {
    OwnersMet(x, order);
    assert InodeOwners(x) == set p | p in order && p in InodeOwners(x);
  }

  // ---- The largest time ----

  predicate Timed(x: Ctx, p: Path)
  {
    p in x.entries && !x.entries[p].node.HardlinkN? && AttrsOf(x.entries[p].node).mtime.Some?
  }

  /** The fold is the maximum of zero and the times met, so only the set of entries matters. */
  lemma {:induction false} MaximumIs(x: Ctx, order: seq<Path>)
    ensures forall p | p in order && Timed(x, p) :: AttrsOf(x.entries[p].node).mtime.value <= MaxMtime(x, order)
    ensures MaxMtime(x, order) == 0
            || exists p :: p in order && Timed(x, p) && AttrsOf(x.entries[p].node).mtime.value == MaxMtime(x, order)
    decreases |order|
  {
    if order != [] {
      var n := |order| - 1;
      MaximumIs(x, order[..n]);
      TakeNext(order, n);
      TakeAll(order);
      assert order[n] in order;
    }
  }

  lemma {:induction false} SameMaximum(x: Ctx, order: seq<Path>)
    requires BaseCtx(x) && x.cfg.mtime.None? && x.entries[Root].node == DirN(RootAttrs(x.cfg))
    requires forall p :: p in order <==> p in x.entries
    ensures MaxMtime(x, order) == MaxMtime(x, x.order)
  {
    MaximumIs(x, order);
    MaximumIs(x, x.order);
  }

  /** Exactly the directories in `ds` have had their link count set. */
  predicate LinksBelow(x: Ctx, a: map<Path, nat>, b: map<Path, nat>, ds: set<Path>)
  {
    && (forall q | q in ds :: q in b && b[q] == LinksOf(x, q))
    && (forall q | q in a && q !in ds :: q in b && b[q] == a[q])
  }

  lemma {:induction false} LinksJoin(x: Ctx, a: map<Path, nat>, b: map<Path, nat>, c: map<Path, nat>, ds: set<Path>,
                                     es: set<Path>)
    requires LinksBelow(x, a, b, ds) && LinksBelow(x, b, c, es)
    ensures LinksBelow(x, a, c, ds + es)
  {
  }

  lemma {:induction false} LinksAre(x: Ctx, d: Path, ks: seq<Path>, subdirs: nat)
    requires IsDir(x, d) && ks == Kids(x, d) && subdirs == CountDirs(x, ks)
    ensures (2 + subdirs) % 0x1_0000_0000 == LinksOf(x, d)
  {
  }

  lemma {:induction false} LinksSet(x: Ctx, before: map<Path, nat>, mid: map<Path, nat>, ds: set<Path>,
                                    all: set<Path>, d: Path, n: nat)
    requires LinksBelow(x, before, mid, ds) && all == ds + {d} && n == LinksOf(x, d)
    ensures LinksBelow(x, before, mid[d := n], all)
  {
  }

  lemma {:induction false} CountNext(x: Ctx, ks: seq<Path>, i: nat)
    requires i < |ks|
    ensures CountDirs(x, ks[..i + 1]) == CountDirs(x, ks[..i]) + if IsDir(x, ks[i]) then 1 else 0
  {
    assert ks[..i + 1][..i] == ks[..i];
  }

  /** Neither a directory nor a file nor a hard link: the link count is emitted and is 1. */
  predicate Counted(x: Ctx, p: Path)
  {
    p in x.entries && !x.entries[p].node.DirN? && !x.entries[p].node.FileN? && !x.entries[p].node.HardlinkN?
  }

  lemma {:induction false} NumberIs(env: Env, num: map<Path, nat>, q: Path)
    requires Numbered(num, env.pre, 1) && q in env.pre
    ensures q in num && num[q] == NumberOf(env, q)
  {
    assert env.pre[Position(env.pre, q)] == q;
  }

  lemma {:induction false} RootIsOne(env: Env, num: map<Path, nat>)
    requires Numbered(num, env.pre, 1) && env.pre != [] && env.pre[0] == Root
    ensures Root in num && num[Root] == 1
  {
  }

  lemma {:induction false} FinalNumbers(env: Env, num: map<Path, nat>, par: map<Path, nat>, p: Path)
    requires GoodCtx(env.x) && p in env.pre && InOrder(env) && Numbered(num, env.pre, 1)
    requires ParentSet(num, par, env.pre, Root, p)
    ensures p in num && num[p] == NumberOf(env, p)
    ensures p in par && par[p] == ParentNumber(env, p)
  {
    NumberIs(env, num, p);
    if p == Root {
      assert Dir(Root) == Root;
      RootIsOne(env, num);
    } else {
      DirOwned(env.x, p);
      NumberIs(env, num, Dir(p));
    }
  }

  lemma {:induction false} AllNumbered(env: Env, n0: map<Path, nat>, p0: map<Path, nat>, num: map<Path, nat>,
                                       par: map<Path, nat>)
    requires GoodCtx(env.x) && InOrder(env) && Assigned(n0, p0, num, par, env.pre, 1, Root)
    ensures NumbersDone(env, num, par)
  {
    forall p | p in InodeOwners(env.x)
      ensures p in num && num[p] == NumberOf(env, p)
      ensures p in par && par[p] == ParentNumber(env, p)
    {
      assert ParentSet(num, par, env.pre, Root, p);
      FinalNumbers(env, num, par, p);
    }
  }

  lemma {:induction false} DirOwned(x: Ctx, p: Path)
    requires GoodCtx(x) && p in x.entries && p != Root
    ensures IsDir(x, Dir(p)) && Dir(p) in InodeOwners(x)
  {
    var i :| 0 <= i < |x.order| && x.order[i] == p;
    assert IsDir(x, Dir(x.order[i]));
  }

  lemma {:induction false} FirstAssigned(x: Ctx, n0: map<Path, nat>, p0: map<Path, nat>, p: Path, next: nat,
                                         parent: nat)
    requires p == Root ==> parent == next % 0x1_0000_0000
    requires p != Root ==> Dir(p) in n0 && parent == n0[Dir(p)]
    requires p != Root ==> Dir(p) != p
    ensures Assigned(n0, p0, n0[p := next % 0x1_0000_0000], p0[p := parent], [p], next, Dir(p))
  {
    assert Dir(Root) == Root;
  }

  /** What lies below a branch excludes the branch itself and its parent. */
  lemma {:induction false} BelowApart(x: Ctx, b: Branch)
    requires GoodCtx(x) && IsBranch(x, b) && !x.entries[b.path].node.HardlinkN?
    ensures b.path !in PreorderAll(x, b.kids)
    ensures b.path != Root ==> Dir(b.path) !in PreorderAll(x, b.kids) && Dir(b.path) != b.path
    ensures !IsDir(x, b.path) ==> PreorderAll(x, b.kids) == []
    ensures Dir(Root) == Root
  {
    if IsDir(x, b.path) {
      KidsPlaced(x, b);
      PreorderAllIs(x, b, b.kids);
      CoveredIsBelow(x, b);
      if b.path != Root {
        ValidPathParts(b.path);
        if Dir(b.path) in PreorderAll(x, b.kids) {
          UnderLonger(b.path, Dir(b.path));
        }
      }
    } else if b.path != Root {
      ValidPathParts(b.path);
    }
  }

  lemma {:induction false} PreorderAllSnoc(x: Ctx, bs: seq<Branch>, i: nat)
    requires i < |bs|
    ensures PreorderAll(x, bs[..i + 1]) == PreorderAll(x, bs[..i]) + Preorder(x, bs[i])
    decreases i
  {
    var s := bs[..i + 1];
    if i == 0 {
      assert s == [bs[0]] && s[1..] == [] && bs[..0] == [];
      Nil(Preorder(x, bs[0]));
    } else {
      PreorderAllSnoc(x, bs[1..], i - 1);
      assert s[1..] == bs[1..][..i] && bs[..i][1..] == bs[1..][..i - 1] && bs[1..][i - 1] == bs[i];
      Assoc(Preorder(x, bs[0]), PreorderAll(x, bs[1..][..i - 1]), Preorder(x, bs[i]));
    }
  }

  lemma {:induction false} KidApart(x: Ctx, b: Branch, i: nat)
    requires GoodCtx(x) && IsBranch(x, b) && IsDir(x, b.path) && i < |b.kids|
    ensures PreorderAll(x, b.kids[..i + 1]) == PreorderAll(x, b.kids[..i]) + Preorder(x, b.kids[i])
    ensures forall q | q in PreorderAll(x, b.kids[..i]) :: q !in Preorder(x, b.kids[i])
    ensures b.path !in Preorder(x, b.kids[i])
  {
    PreorderAllSnoc(x, b.kids, i);
    KidsPlaced(x, b);
    NotUnderKid(b.kids[i].path);
    forall q
      ensures !(q in PreorderAll(x, b.kids[..i]) && q in Preorder(x, b.kids[i]))
      ensures !(q == b.path && q in Preorder(x, b.kids[i]))
    {
      OneKidApart(x, b, i, q);
    }
  }

  lemma {:induction false} OneKidApart(x: Ctx, b: Branch, i: nat, q: Path)
    requires GoodCtx(x) && IsBranch(x, b) && IsDir(x, b.path) && i < |b.kids|
    ensures q in PreorderAll(x, b.kids[..i]) ==> q !in Preorder(x, b.kids[i])
    ensures q in Preorder(x, b.kids[i]) ==> Under(b.kids[i].path, q)
  {
    OnlyUnder(x, b.kids[i], q);
    if q in PreorderAll(x, b.kids[..i]) {
      EarlierKid(x, b, i, q);
    }
  }

  lemma {:induction false} EarlierKid(x: Ctx, b: Branch, i: nat, q: Path)
    requires GoodCtx(x) && IsBranch(x, b) && IsDir(x, b.path) && i < |b.kids| && q in PreorderAll(x, b.kids[..i])
    ensures !Under(b.kids[i].path, q)
  {
    var front := b.kids[..i];
    FrontBranches(x, b, i, front);
    EarlierCovered(x, front, q);
    KidsUnder(x, b, i, q);
  }

  lemma {:induction false} FrontBranches(x: Ctx, b: Branch, i: nat, front: seq<Branch>)
    requires IsBranch(x, b) && i <= |b.kids| && front == b.kids[..i]
    ensures forall j | 0 <= j < |front| :: IsBranch(x, front[j])
  {
  }

  lemma {:induction false} KidsUnder(x: Ctx, b: Branch, i: nat, q: Path)
    requires GoodCtx(x) && IsBranch(x, b) && IsDir(x, b.path) && i < |b.kids| && Covered(b.kids[..i], q)
    ensures !Under(b.kids[i].path, q)
  {
    KidsPlaced(x, b);
    EarlierApart(b.kids, b.path, i, q);
  }

  lemma {:induction false} OnlyUnder(x: Ctx, b: Branch, q: Path)
    requires GoodCtx(x) && IsBranch(x, b)
    ensures q in Preorder(x, b) ==> Under(b.path, q)
  {
    PreorderIs(x, b);
  }

  lemma {:induction false} EarlierCovered(x: Ctx, bs: seq<Branch>, q: Path)
    requires GoodCtx(x) && (forall i | 0 <= i < |bs| :: IsBranch(x, bs[i])) && q in PreorderAll(x, bs)
    ensures Covered(bs, q)
    decreases |bs|
  {
    OnlyUnder(x, bs[0], q);
    if q !in Preorder(x, bs[0]) {
      EarlierCovered(x, bs[1..], q);
      var j :| 0 <= j < |bs[1..]| && Under(bs[1..][j].path, q);
      assert Under(bs[j + 1].path, q);
    }
  }

  lemma {:induction false} NotUnderKid(k: Path)
    requires ValidPath(k)
    ensures !Under(k, Dir(k))
  {
    ValidPathParts(k);
    if Under(k, Dir(k)) {
      UnderLonger(k, Dir(k));
    }
  }

  lemma {:induction false} EarlierApart(bs: seq<Branch>, d: Path, i: nat, q: Path)
    requires i < |bs| && Covered(bs[..i], q)
    requires forall k | 0 <= k < |bs| :: ValidPath(bs[k].path) && Dir(bs[k].path) == d
    requires forall j, k | 0 <= j < k < |bs| :: bs[j].path != bs[k].path
    ensures !Under(bs[i].path, q)
  {
    var j :| 0 <= j < i && Under(bs[..i][j].path, q);
    if Under(bs[i].path, q) {
      SiblingsApart(bs[j].path, bs[i].path, q);
    }
  }

  lemma {:induction false} NoneAssigned(x: Ctx, bs: seq<Branch>, n0: map<Path, nat>, p0: map<Path, nat>, next: nat,
                                        d: Path)
    ensures PreorderAll(x, bs[..0]) == []
    ensures Assigned(n0, p0, n0, p0, PreorderAll(x, bs[..0]), next, d)
  {
  }

  lemma {:induction false} KidNotRoot(x: Ctx, b: Branch, i: nat)
    requires GoodCtx(x) && IsBranch(x, b) && IsDir(x, b.path) && i < |b.kids|
    ensures b.kids[i].path != Root && Dir(b.kids[i].path) == b.path && b.kids[i].path == Kids(x, b.path)[i]
  {
    KidsPlaced(x, b);
  }

  predicate Attached(x: Ctx, m: map<Path, seq<Path>>, order: seq<Path>)
  {
    m.Keys == x.entries.Keys && forall d | d in m :: m[d] == Within(order, d)
  }

  predicate ParentsUpTo(x: Ctx, n: nat)
    requires n <= |x.order|
  {
    forall k | 0 <= k < n :: IsDir(x, Dir(x.order[k]))
  }

  lemma {:induction false} ParentMissing(x: Ctx, i: nat)
    requires i < |x.order| && !IsDir(x, Dir(x.order[i]))
    ensures !ParentsOk(x)
  {
  }

  lemma {:induction false} ParentFound(x: Ctx, i: nat)
    requires i < |x.order| && IsDir(x, Dir(x.order[i])) && ParentsUpTo(x, i)
    ensures ParentsUpTo(x, i + 1)
  {
  }

  function NoChildren(x: Ctx): map<Path, seq<Path>>
  {
    map d | d in x.entries :: []
  }

  lemma {:induction false} AttachNone(x: Ctx)
    ensures Attached(x, NoChildren(x), x.order[..0])
  {
  }

  method AttachOne(x: Ctx, m: map<Path, seq<Path>>, parent: Path, p: Path, ghost i: nat)
                   returns (m': map<Path, seq<Path>>)
    requires i < |x.order| && p == x.order[i] && parent == Dir(p)
    requires Attached(x, m, x.order[..i]) && parent in x.entries
    ensures Attached(x, m', x.order[..i + 1])
  {
    WithinNext(x.order, i);
    m' := m[parent := m[parent] + [p]];
  }

  lemma {:induction false} KidsThere(x: Ctx, b: Branch, ks: seq<Path>)
    requires GoodCtx(x) && IsBranch(x, b) && IsDir(x, b.path) && ks == Kids(x, b.path)
    ensures |ks| == |b.kids|
    ensures forall i | 0 <= i < |ks| :: ks[i] == b.kids[i].path && ks[i] in x.entries
  {
    KidsPlaced(x, b);
  }

  lemma {:induction false} SortedOne(x: Ctx, before: map<Path, seq<Path>>, d: Path, ds: set<Path>, all: set<Path>)
    requires all == ds + {d} && d !in ds && d in x.entries
    requires before.Keys == x.entries.Keys && Unsorted(x, before, all)
    ensures Sort(before[d], BaseOf) == Kids(x, d)
    ensures SortedBelow(x, before, before[d := Kids(x, d)], {d})
    ensures Unsorted(x, before[d := Kids(x, d)], ds)
  {
    assert d in all;
  }

  lemma {:induction false} SortedHere(x: Ctx, before: map<Path, seq<Path>>, b: Branch, d: Path)
    requires GoodCtx(x) && IsBranch(x, b) && b.path == d && IsDir(x, d)
    requires before.Keys == x.entries.Keys && Unsorted(x, before, DirsUnder(x, d))
    ensures Sort(before[d], BaseOf) == Kids(x, d)
    ensures DirsUnder(x, d) == DirsCovered(x, b.kids) + {d}
    ensures SortedBelow(x, before, before[d := Kids(x, d)], {d})
    ensures Unsorted(x, before[d := Kids(x, d)], DirsCovered(x, b.kids))
  {
    DirsSplit(x, b);
    SortedOne(x, before, d, DirsCovered(x, b.kids), DirsUnder(x, d));
  }

  predicate Unsorted(x: Ctx, m: map<Path, seq<Path>>, ds: set<Path>)
  {
    forall q | q in ds :: q in m && m[q] == Within(x.order, q)
  }

  /** Exactly the directories in `ds` have had their children sorted. */
  predicate SortedBelow(x: Ctx, a: map<Path, seq<Path>>, b: map<Path, seq<Path>>, ds: set<Path>)
  {
    && a.Keys == b.Keys == x.entries.Keys
    && forall q | q in a :: b[q] == if q in ds then Kids(x, q) else a[q]
  }

  lemma {:induction false} SortedJoin(x: Ctx, a: map<Path, seq<Path>>, b: map<Path, seq<Path>>, c: map<Path,
                                      seq<Path>>, ds: set<Path>, es: set<Path>)
    requires SortedBelow(x, a, b, ds) && SortedBelow(x, b, c, es)
    ensures SortedBelow(x, a, c, ds + es)
  {
  }

  lemma {:induction false} StillUnsorted(x: Ctx, a: map<Path, seq<Path>>, b: map<Path, seq<Path>>, ds: set<Path>,
                                         bs: seq<Branch>, i: nat)
    requires SortedBelow(x, a, b, ds) && i < |bs|
    requires Unsorted(x, a, DirsCovered(x, bs)) && ds !! DirsUnder(x, bs[i].path)
    ensures Unsorted(x, b, DirsUnder(x, bs[i].path))
  {
  }

  lemma {:induction false} NoneCovered(x: Ctx, bs: seq<Branch>)
    ensures DirsCovered(x, bs[..0]) == {}
  {
  }

  lemma {:induction false} WithinNext(order: seq<Path>, i: nat)
    requires i < |order|
    ensures forall d :: Within(order[..i + 1], d) ==
              if Dir(order[i]) == d then Within(order[..i], d) + [order[i]] else Within(order[..i], d)
  {
    assert order[..i + 1][..i] == order[..i];
  }

  lemma {:induction false} CoveredSnoc(bs: seq<Branch>, i: nat, q: Path)
    requires i < |bs|
    ensures Covered(bs[..i + 1], q) <==> Covered(bs[..i], q) || Under(bs[i].path, q)
  {
    if Covered(bs[..i + 1], q) {
      var j :| 0 <= j < i + 1 && Under(bs[..i + 1][j].path, q);
      if j < i {
        assert bs[..i][j] == bs[j];
      }
    }
    if Covered(bs[..i], q) {
      var j :| 0 <= j < i && Under(bs[..i][j].path, q);
      assert bs[..i + 1][j] == bs[j];
    }
    assert bs[..i + 1][i] == bs[i];
  }

  lemma {:induction false} DirsKid(x: Ctx, b: Branch, i: nat)
    requires GoodCtx(x) && IsBranch(x, b) && IsDir(x, b.path) && i < |b.kids| && i < |Kids(x, b.path)|
    ensures IsBranch(x, b.kids[i]) && b.kids[i].path == Kids(x, b.path)[i] && b.kids[i].path in x.entries
    ensures DirsCovered(x, b.kids[..i + 1]) == DirsCovered(x, b.kids[..i]) + DirsUnder(x, b.kids[i].path)
    ensures !IsDir(x, b.kids[i].path) ==> DirsUnder(x, b.kids[i].path) == {}
  {
    KidsPlaced(x, b);
    DirsSnoc(x, b.kids, i, b.path);
  }

  lemma {:induction false} DirsSnoc(x: Ctx, bs: seq<Branch>, i: nat, d: Path)
    requires GoodCtx(x) && i < |bs|
    requires forall k | 0 <= k < |bs| :: bs[k].path in x.order && Dir(bs[k].path) == d
    requires forall j, k | 0 <= j < k < |bs| :: bs[j].path != bs[k].path
    ensures DirsCovered(x, bs[..i + 1]) == DirsCovered(x, bs[..i]) + DirsUnder(x, bs[i].path)
    ensures DirsCovered(x, bs[..i]) !! DirsUnder(x, bs[i].path)
    ensures !IsDir(x, bs[i].path) ==> DirsUnder(x, bs[i].path) == {}
    ensures d !in DirsUnder(x, bs[i].path)
  {
    forall q
      ensures Covered(bs[..i + 1], q) <==> Covered(bs[..i], q) || Under(bs[i].path, q)
    {
      CoveredSnoc(bs, i, q);
    }
    forall q | q in DirsCovered(x, bs[..i]) && q in DirsUnder(x, bs[i].path)
      ensures false
    {
      var j :| 0 <= j < i && Under(bs[..i][j].path, q);
      SiblingsApart(bs[j].path, bs[i].path, q);
    }
    ValidPathParts(bs[i].path);
    if Under(bs[i].path, d) {
      UnderLonger(bs[i].path, d);
    }
    if !IsDir(x, bs[i].path) {
      NothingUnderLeaf(x, bs[i].path);
    }
  }
}
