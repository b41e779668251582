/**
 * Staging on the worker (internal/worker/staging.go): blobs named by relative paths are written
 * under the source directory, after their paths have been checked. The directory is a map from
 * cleaned paths, as lists of names, to contents.
 */
module Staging {
  import opened Bytes
  import opened Paths
  import opened CasTransfer
  import opened Manifest

  const NUL: byte := 0
  const BACKSLASH: byte := 92

  type Dir = map<seq<Bytes>, Bytes>

  // ---- filepath.Clean on a relative path ----

  function Step(stack: seq<Bytes>, part: Bytes): (r: seq<Bytes>)
  {
    if part == [] || part == [DOT] then stack
    else if part == [DOT, DOT] && stack != [] && stack[|stack| - 1] != [DOT, DOT] then stack[..|stack| - 1]
    else stack + [part]
  }

  function CleanParts(parts: seq<Bytes>): (r: seq<Bytes>)
  {
    if parts == [] then [] else Step(CleanParts(parts[..|parts| - 1]), parts[|parts| - 1])
  }

  function Clean(p: Bytes): (r: seq<Bytes>)
  {
    CleanParts(Split(p))
  }

  predicate IsAbs(p: Bytes)
  {
    p != [] && p[0] == SLASH
  }

  datatype PathError = EmptyPath | HasNul | HasBackslash | Escapes | Absolute

  /** validateBlobPath. */
  function ValidateBlobPath(p: Bytes): (e: Option<PathError>)
  {
    if p == [] then Some(EmptyPath)
    else if NUL in p then Some(HasNul)
    else if BACKSLASH in p then Some(HasBackslash)
    else if !IsAbs(p) && Clean(p) != [] && Clean(p)[0] == [DOT, DOT] then Some(Escapes)
    else if IsAbs(p) then Some(Absolute)
    else None
  }

  /** Climbing is all at the front. */
  predicate ClimbsFirst(s: seq<Bytes>)
  {
    && (forall k | 0 <= k < |s| :: s[k] != [] && s[k] != [DOT] && SLASH !in s[k])
    && (forall i, k | 0 <= i < k < |s| && s[k] == [DOT, DOT] :: s[i] == [DOT, DOT])
  }

  lemma {:induction false} CleanClimbsFirst(parts: seq<Bytes>)
    requires forall k | 0 <= k < |parts| :: SLASH !in parts[k]
    ensures ClimbsFirst(CleanParts(parts))
    decreases |parts|
  {
    if parts != [] {
      CleanClimbsFirst(parts[..|parts| - 1]);
    }
  }

  /** An accepted path stays below the source directory: none of its steps climbs or is empty. */
  lemma {:induction false} StaysInside(p: Bytes)
    requires ValidateBlobPath(p).None?
    ensures forall k | 0 <= k < |Clean(p)| ::
              Clean(p)[k] != [] && Clean(p)[k] != [DOT] && Clean(p)[k] != [DOT, DOT] && SLASH !in Clean(p)[k]
  {
    SplitParts(p);
    CleanClimbsFirst(Split(p));
  }

  /** And every relative path that does, and has no NUL or backslash, is accepted. */
  lemma {:induction false} AcceptedIff(p: Bytes)
    ensures ValidateBlobPath(p).None? <==>
              p != [] && !IsAbs(p) && NUL !in p && BACKSLASH !in p && [DOT, DOT] !in Clean(p)
  {
    if ValidateBlobPath(p).None? {
      StaysInside(p);
    }
  }

  // ---- What cleaning computes ----

  const Up: Bytes := [DOT, DOT]

  lemma {:induction false} CleanSnoc(parts: seq<Bytes>, part: Bytes)
    ensures CleanParts(parts + [part]) == Step(CleanParts(parts), part)
  {
    var all := parts + [part];
    assert all[..|all| - 1] == parts;
  }

  /** What follows depends on what came before only through its cleaning. */
  lemma {:induction false} CleanFrom(a: seq<Bytes>, b: seq<Bytes>, post: seq<Bytes>)
    requires CleanParts(a) == CleanParts(b)
    ensures CleanParts(a + post) == CleanParts(b + post)
    decreases |post|
  {
    if post == [] {
      Nil(a);
      Nil(b);
    } else {
      var n := |post| - 1;
      CleanFrom(a, b, post[..n]);
      CleanSnoc(a + post[..n], post[n]);
      CleanSnoc(b + post[..n], post[n]);
      SnocOf(a, post);
      SnocOf(b, post);
    }
  }

  lemma {:induction false} SnocOf(a: seq<Bytes>, post: seq<Bytes>)
    requires post != []
    ensures a + post == (a + post[..|post| - 1]) + [post[|post| - 1]]
  {
  }

  /** A name and the ".." behind it cancel out, wherever they stand. */
  lemma {:induction false} UpCancels(pre: seq<Bytes>, name: Bytes, post: seq<Bytes>)
    requires ValidName(name)
    ensures CleanParts(pre + [name, Up] + post) == CleanParts(pre + post)
  {
    CleanSnoc(pre, name);
    CleanSnoc(pre + [name], Up);
    assert pre + [name] + [Up] == pre + [name, Up];
    var stack := CleanParts(pre);
    assert (stack + [name])[..|stack|] == stack;
    CleanFrom(pre + [name, Up], pre, post);
  }

  /** Empty parts and "." stand for nothing, wherever they are. */
  lemma {:induction false} DotVanishes(pre: seq<Bytes>, part: Bytes, post: seq<Bytes>)
    requires part == [] || part == [DOT]
    ensures CleanParts(pre + [part] + post) == CleanParts(pre + post)
  {
    CleanSnoc(pre, part);
    CleanFrom(pre + [part], pre, post);
  }

  /** What none of these rules can shorten is its own cleaning; a list of names is. */
  lemma {:induction false} CleanIsItself(parts: seq<Bytes>)
    requires ClimbsFirst(parts)
    ensures CleanParts(parts) == parts
    decreases |parts|
  {
    if parts != [] {
      var n := |parts| - 1;
      CleanIsItself(parts[..n]);
      assert parts == parts[..n] + [parts[n]];
    }
  }

  lemma {:induction false} NamesStay(names: seq<Bytes>)
    requires AllValid(names)
    ensures CleanParts(names) == names
  {
    CleanIsItself(names);
  }

  // ---- Which paths stay inside ----

  /** How far below the start the parts lead: names less "..". */
  function Depth(parts: seq<Bytes>): (n: int)
  {
    if parts == [] then 0
    else
      var part := parts[|parts| - 1];
      Depth(parts[..|parts| - 1]) + if part == [] || part == [DOT] then 0 else if part == Up then -1 else 1
  }

  /** At no point are there more ".." than names. */
  ghost predicate NeverAbove(parts: seq<Bytes>)
  {
    forall k | 0 <= k <= |parts| :: Depth(parts[..k]) >= 0
  }

  lemma {:induction false} NeverAboveSnoc(parts: seq<Bytes>, part: Bytes)
    ensures NeverAbove(parts + [part]) <==> NeverAbove(parts) && Depth(parts + [part]) >= 0
  {
    var all := parts + [part];
    assert forall k | 0 <= k <= |parts| :: all[..k] == parts[..k];
    TakeAll(all);
  }

  /** Then the cleaning has just that many names; otherwise it starts with "..". */
  lemma {:induction false} CleanHeight(parts: seq<Bytes>)
    requires forall k | 0 <= k < |parts| :: SLASH !in parts[k]
    ensures NeverAbove(parts) ==> AllValid(CleanParts(parts)) && |CleanParts(parts)| == Depth(parts)
    ensures !NeverAbove(parts) ==> CleanParts(parts) != [] && CleanParts(parts)[0] == Up
    decreases |parts|
  {
    if parts != [] {
      var n := |parts| - 1;
      var head, part := parts[..n], parts[n];
      assert parts == head + [part];
      CleanHeight(head);
      NeverAboveSnoc(head, part);
    }
  }

  /**
   * A blob path is accepted if and only if it is relative, not empty, free of NUL and backslash, and
   * no prefix of it climbs out of the source directory.
   */
  lemma {:induction false} AcceptedInside(p: Bytes)
    ensures ValidateBlobPath(p).None? <==>
              p != [] && p[0] != SLASH && NUL !in p && BACKSLASH !in p && NeverAbove(Split(p))
  {
    SplitParts(p);
    CleanHeight(Split(p));
  }

  // ---- materializeCASBlobs ----

  /** `a` is a directory on the way to `b`. */
  predicate Above(a: seq<Bytes>, b: seq<Bytes>)
  {
    a != b && a <= b
  }

  /** A file cannot be written where a directory is, nor below a file; the source directory itself is one. */
  predicate Blocked(dir: Dir, place: seq<Bytes>)
  {
    place == [] || exists k | k in dir :: Above(k, place) || Above(place, k)
  }

  /** The directory after staging a prefix of the blobs; None where staging fails. */
  function Stage(store: Store, t: Tenant, blobs: seq<BlobRef>): (r: Option<Dir>)
  {
    if blobs == [] then Some(map[])
    else
      var b := blobs[|blobs| - 1];
      match Stage(store, t, blobs[..|blobs| - 1])
      case None => None
      case Some(dir) =>
        if IsAbs(b.path) then Some(dir)
        else if ValidateBlobPath(b.path).Some? || (t, b.digest) !in store || Blocked(dir, Clean(b.path)) then None
        else Some(dir[Clean(b.path) := store[(t, b.digest)]])
  }

  lemma {:induction false} StageFails(store: Store, t: Tenant, blobs: seq<BlobRef>, i: nat)
    requires i <= |blobs| && Stage(store, t, blobs[..i]).None?
    ensures Stage(store, t, blobs).None?
    decreases |blobs| - i
  {
    if i == |blobs| {
      TakeAll(blobs);
    } else {
      assert blobs[..i + 1][..i] == blobs[..i];
      StageFails(store, t, blobs, i + 1);
    }
  }

  method MaterializeBlobs(store: Store, t: Tenant, blobs: seq<BlobRef>) returns (r: Option<Dir>)
    ensures r == Stage(store, t, blobs)
  {
    var dir: Dir := map[];
    for i := 0 to |blobs|
      invariant Stage(store, t, blobs[..i]) == Some(dir)
    {
      var b := blobs[i];
      assert blobs[..i + 1][..i] == blobs[..i];
      if IsAbs(b.path) {
        continue;
      }
      if ValidateBlobPath(b.path).Some? || (t, b.digest) !in store {
        StageFails(store, t, blobs, i + 1);
        return None;
      }
      if Blocked(dir, Clean(b.path)) {
        StageFails(store, t, blobs, i + 1);
        return None;
      }
      dir := dir[Clean(b.path) := store[(t, b.digest)]];
    }
    TakeAll(blobs);
    r := Some(dir);
  }

  predicate Staged(blobs: seq<BlobRef>, i: nat)
  {
    i < |blobs| && !IsAbs(blobs[i].path)
  }

  /** A relative blob that could be staged by itself. */
  predicate Fit(store: Store, t: Tenant, b: BlobRef)
  {
    ValidateBlobPath(b.path).None? && (t, b.digest) in store && Clean(b.path) != []
  }

  /** One relative blob's file is a directory on the way to another's. */
  predicate Obstructs(blobs: seq<BlobRef>, i: nat, j: nat)
  {
    Staged(blobs, i) && Staged(blobs, j) && Above(Clean(blobs[i].path), Clean(blobs[j].path))
  }

  ghost predicate Stageable(store: Store, t: Tenant, blobs: seq<BlobRef>)
  {
    && (forall i | 0 <= i < |blobs| && Staged(blobs, i) :: Fit(store, t, blobs[i]))
    && (forall i, j | 0 <= i < |blobs| && 0 <= j < |blobs| :: !Obstructs(blobs, i, j))
  }

  lemma {:induction false} StagedPrefix(blobs: seq<BlobRef>, n: nat)
    requires n <= |blobs|
    ensures forall i | 0 <= i < n :: blobs[..n][i] == blobs[i] && (Staged(blobs[..n], i) <==> Staged(blobs, i))
    ensures forall i, j | 0 <= i < n && 0 <= j < n :: Obstructs(blobs[..n], i, j) <==> Obstructs(blobs, i, j)
  {
  }

  /** The places taken are exactly those of the relative blobs. */
  lemma {:induction false} StageKeys(store: Store, t: Tenant, blobs: seq<BlobRef>, k: seq<Bytes>)
    requires Stage(store, t, blobs).Some?
    ensures k in Stage(store, t, blobs).value <==>
              exists i | 0 <= i < |blobs| :: Staged(blobs, i) && Clean(blobs[i].path) == k
    decreases |blobs|
  {
    if blobs != [] {
      var n := |blobs| - 1;
      StagedPrefix(blobs, n);
      StageKeys(store, t, blobs[..n], k);
      if i :| 0 <= i < n && Staged(blobs[..n], i) && Clean(blobs[..n][i].path) == k {
        assert Staged(blobs, i) && Clean(blobs[i].path) == k;
      }
      if i :| 0 <= i < |blobs| && Staged(blobs, i) && Clean(blobs[i].path) == k {
        assert i < n ==> Staged(blobs[..n], i) && Clean(blobs[..n][i].path) == k;
      }
    }
  }

  lemma {:induction false} BlockedIs(store: Store, t: Tenant, blobs: seq<BlobRef>, n: nat)
    requires n < |blobs| && Staged(blobs, n) && Stage(store, t, blobs[..n]).Some?
    ensures Blocked(Stage(store, t, blobs[..n]).value, Clean(blobs[n].path)) <==>
              Clean(blobs[n].path) == [] || exists i | 0 <= i < n :: Obstructs(blobs, i, n) || Obstructs(blobs, n, i)
  {
    var dir, place := Stage(store, t, blobs[..n]).value, Clean(blobs[n].path);
    StagedPrefix(blobs, n);
    if k :| k in dir && (Above(k, place) || Above(place, k)) {
      StageKeys(store, t, blobs[..n], k);
      var i :| 0 <= i < n && Staged(blobs[..n], i) && Clean(blobs[..n][i].path) == k;
      assert Obstructs(blobs, i, n) || Obstructs(blobs, n, i);
    }
    if i :| 0 <= i < n && (Obstructs(blobs, i, n) || Obstructs(blobs, n, i)) {
      var k := Clean(blobs[i].path);
      assert Staged(blobs[..n], i) && Clean(blobs[..n][i].path) == k;
      StageKeys(store, t, blobs[..n], k);
      assert Above(k, place) || Above(place, k);
    }
  }

  lemma {:induction false} StageableStep(store: Store, t: Tenant, blobs: seq<BlobRef>, n: nat)
    requires |blobs| == n + 1
    ensures Stageable(store, t, blobs) <==>
              && Stageable(store, t, blobs[..n])
              && (Staged(blobs, n) ==> Fit(store, t, blobs[n]))
              && (forall i | 0 <= i < n :: !Obstructs(blobs, i, n) && !Obstructs(blobs, n, i))
  {
    StagedPrefix(blobs, n);
    assert !Obstructs(blobs, n, n);
  }

  /**
   * Staging succeeds if and only if every relative blob has a fit path and is in the store, and no
   * blob's file is a directory on the way to another's.
   */
  lemma {:induction false} StageSucceedsIff(store: Store, t: Tenant, blobs: seq<BlobRef>)
    ensures Stage(store, t, blobs).Some? <==> Stageable(store, t, blobs)
    decreases |blobs|
  {
    if blobs != [] {
      var n := |blobs| - 1;
      StageSucceedsIff(store, t, blobs[..n]);
      StageableStep(store, t, blobs, n);
      if Staged(blobs, n) && Stage(store, t, blobs[..n]).Some? {
        BlockedIs(store, t, blobs, n);
      }
    }
  }

  /** Exactly the relative blobs are there, and the last one written to a place is what it holds. */
  lemma {:induction false} StageHolds(store: Store, t: Tenant, blobs: seq<BlobRef>, i: nat)
    requires Stage(store, t, blobs).Some? && i < |blobs| && Staged(blobs, i)
    requires forall j | i < j < |blobs| && Staged(blobs, j) :: Clean(blobs[j].path) != Clean(blobs[i].path)
    ensures
      var dir := Stage(store, t, blobs).value;
      (t, blobs[i].digest) in store && Clean(blobs[i].path) in dir
          && dir[Clean(blobs[i].path)] == store[(t, blobs[i].digest)]
    decreases |blobs|
  {
    var n := |blobs| - 1;
    if i < n {
      assert forall j | 0 <= j < n :: blobs[..n][j] == blobs[j] && (Staged(blobs[..n], j) <==> Staged(blobs, j));
      StageHolds(store, t, blobs[..n], i);
      assert Staged(blobs, n) ==> Clean(blobs[n].path) != Clean(blobs[i].path);
    }
  }
}
