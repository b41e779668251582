/**
 * Source manifests: BuildManifest and AggregateManifestDigest (internal/compiler/manifest.go) on
 * the client, verifyManifestDigest (internal/worker/cas.go) on the worker. The two must agree
 * although each sorts for itself, with a sort that promises nothing about equal paths.
 */
module Manifest {
  import opened Bytes
  import opened Sorting
  import AssemblyClosure

  type Digest = Bytes

  datatype BlobRef = BlobRef(path: Bytes, digest: Digest, size: nat)

  datatype Manifest = Manifest(digest: Digest, blobs: seq<BlobRef>)

  // ---- The digest ----

  function LowerByte(b: byte): (r: byte)
  {
    if 65 <= b <= 90 then b + 32 else b
  }

  function Lower(s: Bytes): (r: Bytes)
    ensures |r| == |s|
  {
    seq(|s|, i requires 0 <= i < |s| => LowerByte(s[i]))
  }

  /** asciiLower: only touches the string when there is something to fold. */
  method AsciiLower(s: Bytes) returns (r: Bytes)
    ensures r == Lower(s)
    ensures |r| == |s| && forall i | 0 <= i < |s| :: r[i] == if 65 <= s[i] <= 90 then s[i] + 32 else s[i]
  {
    var hasUpper := false;
    var i := 0;
    while i < |s| && !hasUpper
      invariant 0 <= i <= |s|
      invariant !hasUpper ==> forall k | 0 <= k < i :: LowerByte(s[k]) == s[k]
    {
      hasUpper := 65 <= s[i] <= 90;
      i := i + 1;
    }
    if !hasUpper {
      return s;
    }
    var b := new byte[|s|](_ => 0);
    for j := 0 to |s|
      invariant forall k | 0 <= k < j :: b[k] == LowerByte(s[k])
    {
      var c := s[j];
      if 65 <= c <= 90 {
        c := c + 32;
      }
      b[j] := c;
    }
    r := b[..];
  }

  function EncodeRef(path: Bytes, digest: Digest): (r: Bytes)
  {
    BE(|path|, 8) + Lower(path) + digest
  }

  function EncodeRefs(blobs: seq<BlobRef>): (r: Bytes)
  {
    if blobs == [] then [] else EncodeRef(blobs[0].path, blobs[0].digest) + EncodeRefs(blobs[1..])
  }

  method AggregateManifestDigest(hash: Bytes -> Digest, blobs: seq<BlobRef>) returns (d: Digest)
    ensures d == hash(EncodeRefs(blobs))
  {
    var fed: Bytes := [];
    for i := 0 to |blobs|
      invariant fed + EncodeRefs(blobs[i..]) == EncodeRefs(blobs)
    {
      var folded := AsciiLower(blobs[i].path);
      ghost var rest := EncodeRefs(blobs[i + 1..]);
      ghost var word := BE(|folded|, 8);
      assert blobs[i..][1..] == blobs[i + 1..];
      Assoc(fed, word + folded + blobs[i].digest, rest);
      Assoc(fed, word + folded, blobs[i].digest);
      Assoc(fed, word, folded);
      fed := fed + BE(|folded|, 8);
      fed := fed + folded;
      fed := fed + blobs[i].digest;
    }
    Nil(fed);
    d := hash(fed);
  }

  // ---- The encoding is unambiguous ----

  predicate Encodable(blobs: seq<BlobRef>)
  {
    forall i | 0 <= i < |blobs| :: |blobs[i].digest| == 32 && |blobs[i].path| < 0x1_0000_0000_0000_0000
  }

  lemma {:induction false} RefParts(path: Bytes, digest: Digest, rest: Bytes)
    requires |digest| == 32 && |path| < 0x1_0000_0000_0000_0000
    ensures
      var n := |path|;
      var all := EncodeRef(path, digest) + rest;
      && |all| >= 40 + n && UnBE(all[..8]) == n
      && all[8..8 + n] == Lower(path) && all[8 + n..40 + n] == digest && all[40 + n..] == rest
  {
    Width8();
    BERoundTrip(|path|, 8);
    var all := EncodeRef(path, digest) + rest;
    assert all[..8] == BE(|path|, 8);
  }

  /** Two lists with the same encoding name the same folded paths and digests, in the same order. */
  lemma {:induction false} EncodingInjective(a: seq<BlobRef>, b: seq<BlobRef>)
    requires Encodable(a) && Encodable(b) && EncodeRefs(a) == EncodeRefs(b)
    ensures |a| == |b|
    ensures forall i | 0 <= i < |a| :: Lower(a[i].path) == Lower(b[i].path) && a[i].digest == b[i].digest
    decreases |a|
  {
    if a != [] {
      RefParts(a[0].path, a[0].digest, EncodeRefs(a[1..]));
    }
    if b != [] {
      RefParts(b[0].path, b[0].digest, EncodeRefs(b[1..]));
    }
    if a != [] && b != [] {
      EncodingInjective(a[1..], b[1..]);
      forall i | 0 <= i < |a|
        ensures Lower(a[i].path) == Lower(b[i].path) && a[i].digest == b[i].digest
      {
        if i > 0 {
          assert a[1..][i - 1] == a[i] && b[1..][i - 1] == b[i];
        }
      }
    }
  }

  // ---- Any two sorts agree ----

  const PathOf: BlobRef -> Bytes := (b: BlobRef) => b.path

  /** `s` is some result of sorting `blobs` by path: ties may come out in any order. */
  ghost predicate SortOf(blobs: seq<BlobRef>, s: seq<BlobRef>)
  {
    multiset(s) == multiset(blobs) && Sorted(s, PathOf)
  }

  method SortByPath(blobs: seq<BlobRef>) returns (s: seq<BlobRef>)
    ensures SortOf(blobs, s)
  {
    SortSorts(blobs, PathOf);
    s := Sort(blobs, PathOf);
  }

  /** One digest to a path. */
  predicate Functional(blobs: seq<BlobRef>)
  {
    forall i, j | 0 <= i < |blobs| && 0 <= j < |blobs| && blobs[i].path == blobs[j].path ::
        blobs[i].digest == blobs[j].digest
  }

  function Pairs(blobs: seq<BlobRef>): (r: seq<(Bytes, Digest)>)
    ensures |r| == |blobs|
    ensures forall i | 0 <= i < |blobs| :: r[i] == (blobs[i].path, blobs[i].digest)
  {
    if blobs == [] then [] else [(blobs[0].path, blobs[0].digest)] + Pairs(blobs[1..])
  }

  function EncodePairs(ps: seq<(Bytes, Digest)>): (r: Bytes)
  {
    if ps == [] then [] else EncodeRef(ps[0].0, ps[0].1) + EncodePairs(ps[1..])
  }

  lemma {:induction false} PairsEncode(blobs: seq<BlobRef>)
    ensures EncodeRefs(blobs) == EncodePairs(Pairs(blobs))
    decreases |blobs|
  {
    if blobs != [] {
      PairsEncode(blobs[1..]);
      assert Pairs(blobs)[1..] == Pairs(blobs[1..]);
    }
  }

  lemma {:induction false} RemoveAt<T>(s: seq<T>, k: nat)
    requires k < |s|
    ensures multiset(s) == multiset(s[..k] + s[k + 1..]) + multiset{s[k]}
  {
    assert s == s[..k] + [s[k]] + s[k + 1..];
  }

  lemma {:induction false} RemoveFirst<T>(s: seq<T>)
    requires s != []
    ensures multiset(s) == multiset(s[1..]) + multiset{s[0]}
  {
    RemoveAt(s, 0);
    assert s[..0] + s[1..] == s[1..];
  }

  lemma {:induction false} Cancel<T>(a: multiset<T>, b: multiset<T>, x: T)
    requires a + multiset{x} == b + multiset{x}
    ensures a == b
  {
    assert a == (a + multiset{x}) - multiset{x};
    assert b == (b + multiset{x}) - multiset{x};
  }

  lemma {:induction false} PairsRemove(b: seq<BlobRef>, k: nat)
    requires k < |b|
    ensures multiset(Pairs(b)) == multiset(Pairs(b[..k] + b[k + 1..])) + multiset{Pairs(b)[k]}
  {
    RemoveAt(Pairs(b), k);
    assert Pairs(b)[..k] + Pairs(b)[k + 1..] == Pairs(b[..k] + b[k + 1..]);
  }

  lemma {:induction false} PairsFirst(a: seq<BlobRef>)
    requires a != []
    ensures multiset(Pairs(a)) == multiset(Pairs(a[1..])) + multiset{Pairs(a)[0]}
  {
    PairsRemove(a, 0);
    assert a[..0] + a[1..] == a[1..];
  }

  /** Where the first element of one arrangement is in the other, and what is left of both. */
  lemma {:induction false} MatchFirst(a: seq<BlobRef>, b: seq<BlobRef>) returns (k: nat)
    requires multiset(a) == multiset(b) && a != []
    ensures k < |b| && b[k] == a[0] && multiset(a[1..]) == multiset(b[..k] + b[k + 1..])
  {
    InMultiset(a, b);
    assert a[0] in b;
    k :| 0 <= k < |b| && b[k] == a[0];
    RemoveFirst(a);
    RemoveAt(b, k);
    Cancel(multiset(a[1..]), multiset(b[..k] + b[k + 1..]), a[0]);
  }

  lemma {:induction false} PairsPermute(a: seq<BlobRef>, b: seq<BlobRef>)
    requires multiset(a) == multiset(b)
    ensures multiset(Pairs(a)) == multiset(Pairs(b))
    decreases |a|
  {
    if a == [] {
      assert |multiset(b)| == 0;
    } else {
      var k := MatchFirst(a, b);
      PairsPermute(a[1..], b[..k] + b[k + 1..]);
      PairsRemove(b, k);
      PairsFirst(a);
    }
  }

  predicate PairsSorted(ps: seq<(Bytes, Digest)>)
  {
    forall i, j | 0 <= i < j < |ps| :: Leq(ps[i].0, ps[j].0)
  }

  predicate PairsFunctional(ps: seq<(Bytes, Digest)>)
  {
    forall i, j | 0 <= i < |ps| && 0 <= j < |ps| && ps[i].0 == ps[j].0 :: ps[i].1 == ps[j].1
  }

  lemma {:induction false} FirstAgrees(a: seq<(Bytes, Digest)>, b: seq<(Bytes, Digest)>)
    requires multiset(a) == multiset(b) && PairsSorted(a) && PairsSorted(b) && PairsFunctional(a) && a != [] && b != []
    ensures a[0] == b[0]
  {
    InMultiset(a, b);
    assert a[0] in b && b[0] in a;
    var i :| 0 <= i < |b| && b[i] == a[0];
    var j :| 0 <= j < |a| && a[j] == b[0];
    LessIrreflexive(a[0].0);
    LessIrreflexive(b[0].0);
    LessTotal(a[0].0, b[0].0);
    assert Leq(a[0].0, a[j].0) && Leq(b[0].0, b[i].0);
  }

  lemma {:induction false} PairsAgree(a: seq<(Bytes, Digest)>, b: seq<(Bytes, Digest)>)
    requires multiset(a) == multiset(b) && PairsSorted(a) && PairsSorted(b) && PairsFunctional(a)
    ensures a == b
    decreases |a|
  {
    InMultiset(a, b);
    if a != [] {
      FirstAgrees(a, b);
      RemoveFirst(a);
      RemoveFirst(b);
      Cancel(multiset(a[1..]), multiset(b[1..]), a[0]);
      PairsAgree(a[1..], b[1..]);
      HeadTail(a);
      HeadTail(b);
    }
  }

  lemma {:induction false} FunctionalPermute(a: seq<BlobRef>, b: seq<BlobRef>)
    requires multiset(a) == multiset(b) && Functional(a)
    ensures Functional(b)
  {
    InMultiset(a, b);
    forall i, j | 0 <= i < |b| && 0 <= j < |b| && b[i].path == b[j].path
      ensures b[i].digest == b[j].digest
    {
      assert b[i] in a && b[j] in a;
    }
  }

  /** With one digest to a path, every sort of every arrangement feeds the hash the same bytes. */
  lemma {:induction false} SortsAgree(blobs: seq<BlobRef>, a: seq<BlobRef>, b: seq<BlobRef>)
    requires Functional(blobs) && SortOf(blobs, a) && SortOf(blobs, b)
    ensures EncodeRefs(a) == EncodeRefs(b)
  {
    FunctionalPermute(blobs, a);
    PairsPermute(a, b);
    forall i, j | 0 <= i < j < |a|
      ensures Leq(Pairs(a)[i].0, Pairs(a)[j].0)
    {
      assert Leq(PathOf(a[i]), PathOf(a[j]));
    }
    forall i, j | 0 <= i < j < |b|
      ensures Leq(Pairs(b)[i].0, Pairs(b)[j].0)
    {
      assert Leq(PathOf(b[i]), PathOf(b[j]));
    }
    PairsAgree(Pairs(a), Pairs(b));
    PairsEncode(a);
    PairsEncode(b);
  }

  // ---- Without it they need not ----

  lemma {:induction false} BetweenEqual(s: seq<BlobRef>, i: nat, k: nat, j: nat)
    requires Sorted(s, PathOf) && i <= k <= j < |s| && s[i].path == s[j].path
    ensures s[k].path == s[i].path
  {
    LessTotal(s[k].path, s[i].path);
    if i < k < j {
      assert Leq(PathOf(s[i]), PathOf(s[k])) && Leq(PathOf(s[k]), PathOf(s[j]));
    }
  }

  /** Two neighbours with the same path and different digests. */
  lemma {:induction false} Neighbours(s: seq<BlobRef>, i: nat, j: nat) returns (k: nat)
    requires Sorted(s, PathOf) && i < j < |s| && s[i].path == s[j].path && s[i].digest != s[j].digest
    ensures i <= k < j && s[k].path == s[k + 1].path && s[k].digest != s[k + 1].digest
    decreases j - i
  {
    BetweenEqual(s, i, i + 1, j);
    if s[i].digest != s[i + 1].digest {
      k := i;
    } else {
      k := Neighbours(s, i + 1, j);
    }
  }

  function Swapped(s: seq<BlobRef>, k: nat): (r: seq<BlobRef>)
    requires k + 1 < |s|
  {
    s[k := s[k + 1]][k + 1 := s[k]]
  }

  lemma {:induction false} SwappedParts(s: seq<BlobRef>, k: nat, a: seq<BlobRef>, b: seq<BlobRef>, c: seq<BlobRef>,
                                        d: seq<BlobRef>)
    requires k + 1 < |s| && a == s[..k] && b == [s[k]] && c == [s[k + 1]] && d == s[k + 2..]
    ensures s == a + b + c + d && Swapped(s, k) == a + c + b + d
  {
  }

  lemma {:induction false} SwappedMultiset(s: seq<BlobRef>, k: nat)
    requires k + 1 < |s|
    ensures multiset(Swapped(s, k)) == multiset(s)
  {
    var a, b, c, d := s[..k], [s[k]], [s[k + 1]], s[k + 2..];
    SwappedParts(s, k, a, b, c, d);
  }

  lemma {:induction false} SwappedPaths(s: seq<BlobRef>, k: nat, i: nat)
    requires k + 1 < |s| && s[k].path == s[k + 1].path && i < |s|
    ensures PathOf(Swapped(s, k)[i]) == PathOf(s[i])
  {
  }

  lemma {:induction false} SwappedSorts(blobs: seq<BlobRef>, s: seq<BlobRef>, k: nat)
    requires SortOf(blobs, s) && k + 1 < |s| && s[k].path == s[k + 1].path
    ensures SortOf(blobs, Swapped(s, k))
  {
    SwappedMultiset(s, k);
    forall i, j | 0 <= i < j < |s|
      ensures Leq(PathOf(Swapped(s, k)[i]), PathOf(Swapped(s, k)[j]))
    {
      SwappedPaths(s, k, i);
      SwappedPaths(s, k, j);
    }
  }

  ghost predicate SortsMatter(blobs: seq<BlobRef>)
  {
    exists a, b :: SortOf(blobs, a) && SortOf(blobs, b) && EncodeRefs(a) != EncodeRefs(b)
  }

  /** The digest of a list is settled by the list exactly when no path comes with two digests. */
  lemma {:induction false} DigestSettledIff(blobs: seq<BlobRef>)
    requires Encodable(blobs)
    ensures SortsMatter(blobs) <==> !Functional(blobs)
  {
    if Functional(blobs) {
      forall a, b | SortOf(blobs, a) && SortOf(blobs, b)
        ensures EncodeRefs(a) == EncodeRefs(b)
      {
        SortsAgree(blobs, a, b);
      }
    } else {
      TwoSorts(blobs);
    }
  }

  lemma {:induction false} TwoSorts(blobs: seq<BlobRef>)
    requires Encodable(blobs) && !Functional(blobs)
    ensures SortsMatter(blobs)
  {
    var s := Sort(blobs, PathOf);
    SortSorts(blobs, PathOf);
    var i, j := Clash(blobs, s);
    var k := Neighbours(s, i, j);
    SwappedSorts(blobs, s, k);
    EncodableKept(blobs, s);
    EncodableKept(blobs, Swapped(s, k));
    if EncodeRefs(s) == EncodeRefs(Swapped(s, k)) {
      EncodingInjective(s, Swapped(s, k));
    }
  }

  lemma {:induction false} EncodableKept(blobs: seq<BlobRef>, s: seq<BlobRef>)
    requires Encodable(blobs) && multiset(s) == multiset(blobs)
    ensures Encodable(s)
  {
    InMultiset(blobs, s);
    forall m | 0 <= m < |s|
      ensures |s[m].digest| == 32 && |s[m].path| < 0x1_0000_0000_0000_0000
    {
      assert s[m] in blobs;
    }
  }

  /** Two places in the sorted list with one path and different digests. */
  lemma {:induction false} Clash(blobs: seq<BlobRef>, s: seq<BlobRef>) returns (i: nat, j: nat)
    requires !Functional(blobs) && multiset(s) == multiset(blobs)
    ensures i < j < |s| && s[i].path == s[j].path && s[i].digest != s[j].digest
  {
    InMultiset(blobs, s);
    var p, q :| 0 <= p < |blobs| && 0 <= q < |blobs| && blobs[p].path == blobs[q].path
        && blobs[p].digest != blobs[q].digest;
    assert blobs[p] in s && blobs[q] in s;
    i :| 0 <= i < |s| && s[i] == blobs[p];
    j :| 0 <= j < |s| && s[j] == blobs[q];
    if j < i {
      i, j := j, i;
    }
  }

  // ---- The worker's check ----

  /** What a client sends with a compile request. */
  datatype Descriptor = Descriptor(manifestDigest: Digest, blobs: seq<BlobRef>)

  /** `sorted` is the order the worker's own sort happened to produce. */
  method VerifyManifestDigest(hash: Bytes -> Digest, d: Descriptor)
                              returns (r: Option<Digest>, ghost sorted: seq<BlobRef>)
    ensures SortOf(d.blobs, sorted)
    ensures r.Some? <==>
              |d.manifestDigest| == 32 && (forall i | 0 <= i < |d.blobs| :: |d.blobs[i].digest| == 32)
              && hash(EncodeRefs(sorted)) == d.manifestDigest
    ensures r.Some? ==> r.value == d.manifestDigest
  {
    SortSorts(d.blobs, PathOf);
    sorted := Sort(d.blobs, PathOf);
    if |d.manifestDigest| != 32 {
      return None, sorted;
    }
    for i := 0 to |d.blobs|
      invariant forall k | 0 <= k < i :: |d.blobs[k].digest| == 32
    {
      if |d.blobs[i].digest| != 32 {
        return None, sorted;
      }
    }
    var blobs := SortByPath(d.blobs);
    sorted := blobs;
    var recomputed := AggregateManifestDigest(hash, blobs);
    if recomputed != d.manifestDigest {
      return None, sorted;
    }
    r := Some(recomputed);
  }

  // ---- The client's manifest ----

  /** First occurrences, in order. */
  function Dedup(s: seq<Bytes>): (r: seq<Bytes>)
  {
    if s == [] then []
    else
      var r := Dedup(s[..|s| - 1]);
      if s[|s| - 1] in r then r else r + [s[|s| - 1]]
  }

  lemma {:induction false} DedupIs(s: seq<Bytes>)
    ensures forall p :: p in Dedup(s) <==> p in s
    ensures forall i, j | 0 <= i < j < |Dedup(s)| :: Dedup(s)[i] != Dedup(s)[j]
    decreases |s|
  {
    if s != [] {
      var n := |s| - 1;
      DedupIs(s[..n]);
      TakeNext(s, n);
      TakeAll(s);
    }
  }

  /** The two loops over inputs and dependencies share `seen` and `paths`. */
  method CollectPaths(inputs: seq<Bytes>, deps: seq<Bytes>) returns (paths: seq<Bytes>)
    ensures paths == Dedup(inputs + deps)
  {
    var seen: set<Bytes> := {};
    paths := [];
    for i := 0 to |inputs|
      invariant paths == Dedup(inputs[..i]) && forall p :: p in seen <==> p in paths
    {
      assert inputs[..i + 1][..i] == inputs[..i];
      if inputs[i] !in seen {
        seen := seen + {inputs[i]};
        paths := paths + [inputs[i]];
      }
    }
    assert inputs[..|inputs|] == inputs + deps[..0];
    for i := 0 to |deps|
      invariant paths == Dedup(inputs + deps[..i]) && forall p :: p in seen <==> p in paths
    {
      assert (inputs + deps[..i + 1])[..|inputs| + i] == inputs + deps[..i];
      if deps[i] !in seen {
        seen := seen + {deps[i]};
        paths := paths + [deps[i]];
      }
    }
    TakeAll(deps);
  }

  /** How the client sees its files: a path as given, opened, and named in the manifest. */
  datatype Client = Client(hash: Bytes -> Digest, full: Bytes -> Bytes, normalize: Bytes -> Option<Bytes>,
                           files: map<Bytes, Bytes>)

  predicate Readable(c: Client, p: Bytes)
  {
    c.full(p) in c.files && c.normalize(c.full(p)).Some?
  }

  function RefOf(c: Client, p: Bytes): (b: BlobRef)
    requires Readable(c, p)
  {
    var content := c.files[c.full(p)];
    BlobRef(c.normalize(c.full(p)).value, c.hash(content), |content|)
  }

  function Refs(c: Client, paths: seq<Bytes>): (r: seq<BlobRef>)
    requires forall i | 0 <= i < |paths| :: Readable(c, paths[i])
    ensures |r| == |paths|
  {
    seq(|paths|, i requires 0 <= i < |paths| => RefOf(c, paths[i]))
  }

  /** `b` names the file behind path `p`: its name in the manifest, its hash, its size. */
  predicate Names(c: Client, p: Bytes, b: BlobRef)
  {
    && c.full(p) in c.files && c.normalize(c.full(p)) == Some(b.path)
    && b.digest == c.hash(c.files[c.full(p)]) && b.size == |c.files[c.full(p)]|
  }

  /** The blobs name the files behind the paths, each distinct path once and nothing else, sorted by name. */
  ghost predicate Catalogue(c: Client, paths: seq<Bytes>, blobs: seq<BlobRef>)
  {
    && |blobs| == |set p | p in paths|
    && (forall p | p in paths :: exists b :: b in blobs && Names(c, p, b))
    && (forall b | b in blobs :: exists p :: p in paths && Names(c, p, b))
    && (forall i, j | 0 <= i < j < |blobs| :: Leq(blobs[i].path, blobs[j].path))
  }

  lemma {:induction false} SortedCatalogue(c: Client, all: seq<Bytes>, blobs: seq<BlobRef>)
    requires forall i | 0 <= i < |Dedup(all)| :: Readable(c, Dedup(all)[i])
    requires SortOf(Refs(c, Dedup(all)), blobs)
    ensures Catalogue(c, all, blobs)
  {
    var paths := Dedup(all);
    var refs := Refs(c, paths);
    DedupIs(all);
    DistinctSize(paths);
    assert (set p | p in all) == (set p | p in paths);
    InMultiset(refs, blobs);
    forall p | p in all
      ensures exists b :: b in blobs && Names(c, p, b)
    {
      var i :| 0 <= i < |paths| && paths[i] == p;
      assert refs[i] in blobs && Names(c, p, refs[i]);
    }
    forall b | b in blobs
      ensures exists p :: p in all && Names(c, p, b)
    {
      var i :| 0 <= i < |refs| && refs[i] == b;
      assert paths[i] in all && Names(c, paths[i], b);
    }
    forall i, j | 0 <= i < j < |blobs|
      ensures Leq(blobs[i].path, blobs[j].path)
    {
      assert Leq(PathOf(blobs[i]), PathOf(blobs[j]));
    }
  }

  /** The directives of the client's files, found along the client's own paths. */
  function SourceTree(c: Client, directives: map<Bytes, AssemblyClosure.Includes>): AssemblyClosure.Tree
  {
    AssemblyClosure.Tree(directives, c.full)
  }

  /**
   * `found` is the preprocessor's answer, if it gave one; `deps` is what the assembler inputs add
   * to it. Every file that assembling an input needs is in the manifest.
   */
  method BuildManifest(c: Client, inputs: seq<Bytes>, found: Option<seq<Bytes>>, directives: map<Bytes,
                       AssemblyClosure.Includes>,
                       asm: Bytes -> bool) returns (r: Option<Manifest>, ghost deps: seq<Bytes>)
    ensures r.Some? <==> inputs != [] && found.Some? && forall p | p in inputs + deps :: Readable(c, p)
    ensures r.Some? ==>
              && (forall i | 0 <= i < |Dedup(inputs + deps)| :: Readable(c, Dedup(inputs + deps)[i]))
              && SortOf(Refs(c, Dedup(inputs + deps)), r.value.blobs)
              && r.value.digest == c.hash(EncodeRefs(r.value.blobs))
              && Catalogue(c, inputs + deps, r.value.blobs)
    ensures inputs != [] && found.Some? ==>
              var t := SourceTree(c, directives);
              var seeds := AssemblyClosure.Resolved(t, found.value) + AssemblyClosure.Roots(t, inputs, asm);
              && AssemblyClosure.Scans(t, inputs, asm, found.value, deps)
              && AssemblyClosure.Gathered(t, seeds, inputs, asm, found.value, deps)
  {
    deps := [];
    if inputs == [] || found.None? {
      return None, deps;
    }
    var all := AssemblyClosure.CollectDeps(SourceTree(c, directives), inputs, found.value, asm);
    deps := all;
    r := MakeManifest(c, inputs, all);
  }

  /** Dedupe, hash, name, sort. */
  method MakeManifest(c: Client, inputs: seq<Bytes>, deps: seq<Bytes>) returns (r: Option<Manifest>)
    ensures r.Some? <==> forall p | p in inputs + deps :: Readable(c, p)
    ensures r.Some? ==>
              && (forall i | 0 <= i < |Dedup(inputs + deps)| :: Readable(c, Dedup(inputs + deps)[i]))
              && SortOf(Refs(c, Dedup(inputs + deps)), r.value.blobs)
              && r.value.digest == c.hash(EncodeRefs(r.value.blobs))
              && Catalogue(c, inputs + deps, r.value.blobs)
  {
    var paths := CollectPaths(inputs, deps);
    DedupIs(inputs + deps);
    var blobs: seq<BlobRef> := [];
    for i := 0 to |paths|
      invariant forall k | 0 <= k < i :: Readable(c, paths[k])
      invariant |blobs| == i && forall k | 0 <= k < i :: blobs[k] == RefOf(c, paths[k])
    {
      var full := c.full(paths[i]);
      assert paths[i] in inputs + deps;
      if full !in c.files {
        return None;
      }
      var normalized := c.normalize(full);
      if normalized.None? {
        return None;
      }
      blobs := blobs + [BlobRef(normalized.value, c.hash(c.files[full]), |c.files[full]|)];
    }
    assert blobs == Refs(c, paths);
    var sorted := SortByPath(blobs);
    var digest := AggregateManifestDigest(c.hash, sorted);
    SortedCatalogue(c, inputs + deps, sorted);
    r := Some(Manifest(digest, sorted));
  }

  /** Normalization never gives two different files one name. */
  ghost predicate NamesFiles(c: Client, paths: seq<Bytes>)
  {
    forall i, j | 0 <= i < |paths| && 0 <= j < |paths| && Readable(c, paths[i]) && Readable(c, paths[j]) ::
      c.normalize(c.full(paths[i])) == c.normalize(c.full(paths[j])) ==>
          c.files[c.full(paths[i])] == c.files[c.full(paths[j])]
  }

  lemma {:induction false} RefsFunctional(c: Client, paths: seq<Bytes>)
    requires forall i | 0 <= i < |paths| :: Readable(c, paths[i])
    requires NamesFiles(c, paths)
    ensures Functional(Refs(c, paths))
  {
  }

  /** Client and worker agree: whatever order the blobs travel in, the recomputed digest is the manifest's. */
  lemma {:induction false} ManifestVerifies(c: Client, paths: seq<Bytes>, m: Manifest, sent: seq<BlobRef>,
                                            sorted: seq<BlobRef>)
    requires forall i | 0 <= i < |paths| :: Readable(c, paths[i])
    requires NamesFiles(c, paths)
    requires SortOf(Refs(c, paths), m.blobs) && m.digest == c.hash(EncodeRefs(m.blobs))
    requires multiset(sent) == multiset(m.blobs) && SortOf(sent, sorted)
    ensures c.hash(EncodeRefs(sorted)) == m.digest
  {
    RefsFunctional(c, paths);
    SortsAgree(Refs(c, paths), m.blobs, sorted);
  }
}
