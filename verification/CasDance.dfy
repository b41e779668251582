/**
 * Probe, upload, stage: the whole exchange between a client (internal/daemon/dispatch/dispatch.go)
 * and a worker. Only project-relative blobs take part in the transfer; absolute ones are files of
 * the toolchain image.
 */
module CasDance {
  import opened Bytes
  import opened Paths
  import opened CasTransfer
  import opened Manifest
  import opened Staging

  /** The client: whom it speaks for, and the pieces in which it reads the file behind a blob's path. */
  datatype Sender = Sender(tenant: Tenant, token: Bytes, read: Bytes -> seq<Bytes>)

  function HeaderOf(s: Sender, b: BlobRef): Header
  {
    Header(b.digest, s.tenant, s.token)
  }

  /** What the client sends for a blob. */
  function Offered(s: Sender, b: BlobRef): Group
  {
    Group(HeaderOf(s, b), Flatten(s.read(b.path)))
  }

  // ---- projectBlobs ----

  function Relatives(blobs: seq<BlobRef>): (r: seq<BlobRef>)
  {
    if blobs == [] then []
    else
      var n := |blobs| - 1;
      if IsAbs(blobs[n].path) then Relatives(blobs[..n]) else Relatives(blobs[..n]) + [blobs[n]]
  }

  lemma {:induction false} RelativesAre(blobs: seq<BlobRef>, b: BlobRef)
    ensures b in Relatives(blobs) <==> b in blobs && !IsAbs(b.path)
    decreases |blobs|
  {
    if blobs != [] {
      var n := |blobs| - 1;
      RelativesAre(blobs[..n], b);
      TakeNext(blobs, n);
      TakeAll(blobs);
    }
  }

  /** In order, each as often as it is named. */
  lemma {:induction false} RelativesKeep(blobs: seq<BlobRef>) returns (places: seq<nat>)
    ensures Picks(blobs, places, Relatives(blobs))
    ensures forall i: nat | i < |blobs| :: i in places <==> blobs[i].path == [] || blobs[i].path[0] != SLASH
    decreases |blobs|
  {
    if blobs == [] {
      places := [];
    } else {
      var n := |blobs| - 1;
      places := RelativesKeep(blobs[..n]);
      PicksMore(blobs, places, Relatives(blobs[..n]));
      assert forall i: nat | i < n :: blobs[..n][i] == blobs[i];
      if !IsAbs(blobs[n].path) {
        places := places + [n];
      }
    }
  }

  method ProjectBlobs(blobs: seq<BlobRef>) returns (out: seq<BlobRef>)
    ensures out == Relatives(blobs)
  {
    out := [];
    for i := 0 to |blobs|
      invariant out == Relatives(blobs[..i])
    {
      assert blobs[..i + 1][..i] == blobs[..i];
      if !IsAbs(blobs[i].path) {
        out := out + [blobs[i]];
      }
    }
    TakeAll(blobs);
  }

  // ---- The two streams ----

  /** One query for each blob. */
  function Queries(s: Sender, blobs: seq<BlobRef>): (qs: seq<Header>)
    ensures |qs| == |blobs|
  {
    seq(|blobs|, i requires 0 <= i < |blobs| => HeaderOf(s, blobs[i]))
  }

  function Digests(answers: seq<Header>): (r: set<Digest>)
  {
    set i | 0 <= i < |answers| :: answers[i].digest
  }

  function DataFrames(pieces: seq<Bytes>): (r: seq<Frame>)
  {
    if pieces == [] then [] else DataFrames(pieces[..|pieces| - 1]) + [Chunk(pieces[|pieces| - 1])]
  }

  /** streamUpload: a header, then the file piece by piece. */
  function BlobFrames(s: Sender, b: BlobRef): (r: seq<Frame>)
  {
    [Open(HeaderOf(s, b))] + DataFrames(s.read(b.path))
  }

  function SentFrames(s: Sender, blobs: seq<BlobRef>, missing: set<Digest>): (r: seq<Frame>)
  {
    if blobs == [] then []
    else
      var n := |blobs| - 1;
      var r := SentFrames(s, blobs[..n], missing);
      if blobs[n].digest in missing then r + BlobFrames(s, blobs[n]) else r
  }

  function SentGroups(s: Sender, blobs: seq<BlobRef>, missing: set<Digest>): (r: seq<Group>)
  {
    if blobs == [] then []
    else
      var n := |blobs| - 1;
      var r := SentGroups(s, blobs[..n], missing);
      if blobs[n].digest in missing then r + [Offered(s, blobs[n])] else r
  }

  // ---- casUpload ----

  datatype Exchanged = Exchanged(store: Store, ok: bool)

  function Exchange(tr: Trust, store: Store, s: Sender, blobs: seq<BlobRef>): (r: Exchanged)
  {
    var rel := Relatives(blobs);
    var qs := Queries(s, rel);
    var missing := Digests(Absent(store, qs));
    if rel == [] then Exchanged(store, true)
    else if QueryCut(tr, qs) < |qs| then Exchanged(store, false)
    else if missing == {} then Exchanged(store, true)
    else
      var up := Upload(tr, store, SentFrames(s, rel, missing), true);
      Exchanged(up.store, up.reply.Done? && up.reply.rejected == [])
  }

  method Collect(answers: seq<Header>) returns (missing: set<Digest>)
    ensures missing == Digests(answers)
  {
    missing := {};
    for i := 0 to |answers|
      invariant missing == Digests(answers[..i])
    {
      assert answers[..i + 1] == answers[..i] + [answers[i]];
      assert forall d :: d in Digests(answers[..i + 1]) <==> d in Digests(answers[..i]) || d == answers[i].digest by {
        DigestsSnoc(answers[..i], answers[i]);
      }
      missing := missing + {answers[i].digest};
    }
    TakeAll(answers);
  }

  lemma {:induction false} DigestsSnoc(answers: seq<Header>, h: Header)
    ensures Digests(answers + [h]) == Digests(answers) + {h.digest}
  {
    var all := answers + [h];
    forall d | d in Digests(answers) + {h.digest}
      ensures d in Digests(all)
    {
      if d in Digests(answers) {
        var i :| 0 <= i < |answers| && answers[i].digest == d;
        assert all[i].digest == d;
      } else {
        assert all[|answers|].digest == d;
      }
    }
  }

  method CasUpload(w: Worker, s: Sender, blobs: seq<BlobRef>) returns (ok: bool)
    modifies w
    ensures Exchanged(w.store, ok) == Exchange(w.trust, old(w.store), s, blobs)
  {
    var rel := ProjectBlobs(blobs);
    if |rel| == 0 {
      return true;
    }
    var answers, err := w.FindMissingBlobs(Queries(s, rel));
    QueryCutIs(w.trust, Queries(s, rel));
    if err.Some? {
      return false;
    }
    TakeAll(Queries(s, rel));
    var missing := Collect(answers);
    if missing == {} {
      return true;
    }
    var frames: seq<Frame> := [];
    for i := 0 to |rel|
      invariant frames == SentFrames(s, rel[..i], missing) && w.store == old(w.store)
    {
      assert rel[..i + 1][..i] == rel[..i];
      if rel[i].digest in missing {
        frames := frames + BlobFrames(s, rel[i]);
      }
    }
    TakeAll(rel);
    var reply := w.UploadBlobs(frames, true);
    return reply.Done? && |reply.rejected| == 0;
  }

  lemma {:induction false} QueryCutIs(tr: Trust, queries: seq<Header>)
    ensures
      var k := QueryCut(tr, queries);
      k < |queries| ==> QueryError(tr, queries[..k], queries[k]).Some?
    decreases |queries|
  {
    if queries != [] {
      var n := |queries| - 1;
      var k := QueryCut(tr, queries[..n]);
      QueryCutIs(tr, queries[..n]);
      if k < n {
        assert queries[..n][..k] == queries[..k];
      }
    }
  }

  // ---- What the frames mean ----

  lemma {:induction false} ChunkTaken(tr: Trust, fs: seq<Frame>, x: Bytes, a: seq<Group>, g: Group)
    requires Legal(tr, fs) && Groups(fs) == a + [g]
    ensures Legal(tr, fs + [Chunk(x)]) && Groups(fs + [Chunk(x)]) == a + [Group(g.header, g.data + x)]
  {
    SnocBack(fs, Chunk(x));
    SnocBack(a, g);
  }

  lemma {:induction false} DataSnoc(pieces: seq<Bytes>)
    requires pieces != []
    ensures
      var n := |pieces| - 1;
      DataFrames(pieces) == DataFrames(pieces[..n]) + [Chunk(pieces[n])]
          && Flatten(pieces) == Flatten(pieces[..n]) + pieces[n]
  {
    var n := |pieces| - 1;
    FlattenSnoc(pieces[..n], pieces[n]);
    assert pieces[..n] + [pieces[n]] == pieces;
  }

  lemma {:induction false} DataTaken(tr: Trust, fs: seq<Frame>, pieces: seq<Bytes>, a: seq<Group>, g: Group)
    requires Legal(tr, fs) && Groups(fs) == a + [g]
    ensures
      var r := fs + DataFrames(pieces);
      Legal(tr, r) && Groups(r) == a + [Group(g.header, g.data + Flatten(pieces))]
    decreases |pieces|
  {
    if pieces == [] {
      Nil(fs);
      Nil(g.data);
    } else {
      var n := |pieces| - 1;
      var mid := DataFrames(pieces[..n]);
      DataTaken(tr, fs, pieces[..n], a, g);
      DataSnoc(pieces);
      ChunkTaken(tr, fs + mid, pieces[n], a, Group(g.header, g.data + Flatten(pieces[..n])));
      Assoc(fs, mid, [Chunk(pieces[n])]);
      Assoc(g.data, Flatten(pieces[..n]), pieces[n]);
    }
  }

  /** The client may open a stream for its tenant. */
  predicate Authorized(tr: Trust, s: Sender)
  {
    s.tenant != [] && tr.accepts(s.token, s.tenant)
  }

  lemma {:induction false} BlobTaken(tr: Trust, fs: seq<Frame>, s: Sender, b: BlobRef)
    requires Legal(tr, fs) && Authorized(tr, s) && |b.digest| == 32 && Pinned(Groups(fs)) in {None, Some(s.tenant)}
    ensures Legal(tr, fs + BlobFrames(s, b)) && Groups(fs + BlobFrames(s, b)) == Groups(fs) + [Offered(s, b)]
  {
    var open := fs + [Open(HeaderOf(s, b))];
    SnocBack(fs, Open(HeaderOf(s, b)));
    DataTaken(tr, open, s.read(b.path), Groups(fs), Group(HeaderOf(s, b), []));
    Assoc(fs, [Open(HeaderOf(s, b))], DataFrames(s.read(b.path)));
    assert [] + Flatten(s.read(b.path)) == Flatten(s.read(b.path));
  }

  lemma {:induction false} FramesTaken(tr: Trust, s: Sender, blobs: seq<BlobRef>, missing: set<Digest>)
    requires Authorized(tr, s) && forall i | 0 <= i < |blobs| :: |blobs[i].digest| == 32
    ensures Legal(tr, SentFrames(s, blobs, missing))
    ensures Groups(SentFrames(s, blobs, missing)) == SentGroups(s, blobs, missing)
    ensures Pinned(SentGroups(s, blobs, missing)) in {None, Some(s.tenant)}
    decreases |blobs|
  {
    if blobs != [] {
      var n := |blobs| - 1;
      FramesTaken(tr, s, blobs[..n], missing);
      BlobTaken(tr, SentFrames(s, blobs[..n], missing), s, blobs[n]);
    }
  }

  lemma {:induction false} GroupsAre(s: Sender, blobs: seq<BlobRef>, missing: set<Digest>, g: Group)
    ensures g in SentGroups(s, blobs, missing) <==> exists b :: b in blobs && b.digest in missing && g == Offered(s, b)
    decreases |blobs|
  {
    if blobs != [] {
      var n := |blobs| - 1;
      GroupsAre(s, blobs[..n], missing, g);
      TakeNext(blobs, n);
      TakeAll(blobs);
      assert forall b :: b in blobs <==> b in blobs[..n] || b == blobs[n];
    }
  }

  lemma {:induction false} NoneRefused(tr: Trust, gs: seq<Group>)
    ensures Refused(tr, gs) == [] <==> forall g | g in gs :: Accepted(tr, g)
    decreases |gs|
  {
    if gs != [] {
      NoneRefused(tr, AllButLast(gs));
      assert gs == AllButLast(gs) + [Last(gs)];
      assert forall g :: g in gs <==> g in AllButLast(gs) || g == Last(gs);
    }
  }

  // ---- Who is asked for ----

  lemma {:induction false} MissingAre(store: Store, s: Sender, blobs: seq<BlobRef>, b: BlobRef)
    requires b in blobs
    ensures b.digest in Digests(Absent(store, Queries(s, blobs))) <==> (s.tenant, b.digest) !in store
  {
    var qs := Queries(s, blobs);
    var absent := Absent(store, qs);
    var i :| 0 <= i < |blobs| && blobs[i] == b;
    assert qs[i] == HeaderOf(s, b);
    AbsentIs(store, qs, HeaderOf(s, b));
    if HeaderOf(s, b) in absent {
      var j :| 0 <= j < |absent| && absent[j] == HeaderOf(s, b);
      assert absent[j].digest == b.digest;
    }
    if b.digest in Digests(absent) {
      var j :| 0 <= j < |absent| && absent[j].digest == b.digest;
      AbsentIs(store, qs, absent[j]);
      assert absent[j] in absent;
    }
  }

  lemma {:induction false} QueriesSnoc(s: Sender, blobs: seq<BlobRef>)
    requires blobs != []
    ensures
      var n := |blobs| - 1;
      Queries(s, blobs)[..n] == Queries(s, blobs[..n]) && Queries(s, blobs)[n] == HeaderOf(s, blobs[n])
  {
  }

  lemma {:induction false} SentFollowsAbsent(store: Store, s: Sender, blobs: seq<BlobRef>, missing: set<Digest>)
    requires forall b | b in blobs :: b.digest in missing <==> (s.tenant, b.digest) !in store
    ensures
      var gs, absent := SentGroups(s, blobs, missing), Absent(store, Queries(s, blobs));
      |gs| == |absent| && forall i | 0 <= i < |gs| :: gs[i].header == absent[i]
    decreases |blobs|
  {
    if blobs != [] {
      var n := |blobs| - 1;
      QueriesSnoc(s, blobs);
      SentFollowsAbsent(store, s, blobs[..n], missing);
      assert blobs[n] in blobs;
    }
  }

  /** The client opens exactly one blob for each answer of the probe, in the order of the answers. */
  lemma {:induction false} SendsWhatIsAbsent(tr: Trust, store: Store, s: Sender, rel: seq<BlobRef>)
    requires Authorized(tr, s) && FullDigests(rel)
    ensures
      var absent := Absent(store, Queries(s, rel));
      var gs := Groups(SentFrames(s, rel, Digests(absent)));
      |gs| == |absent| && forall i | 0 <= i < |gs| :: gs[i].header == absent[i]
  {
    var missing := Digests(Absent(store, Queries(s, rel)));
    FramesTaken(tr, s, rel, missing);
    forall b | b in rel
      ensures b.digest in missing <==> (s.tenant, b.digest) !in store
    {
      MissingAre(store, s, rel, b);
    }
    SentFollowsAbsent(store, s, rel, missing);
  }

  lemma {:induction false} ProbeCut(tr: Trust, s: Sender, blobs: seq<BlobRef>)
    requires forall i | 0 <= i < |blobs| :: |blobs[i].digest| == 32
    ensures QueryCut(tr, Queries(s, blobs)) == |blobs| <==> blobs == [] || Authorized(tr, s)
  {
    var qs := Queries(s, blobs);
    if Authorized(tr, s) {
      CleanQueries(tr, qs, s.tenant);
    } else if blobs != [] {
      FirstAuthorized(tr, qs);
    }
  }

  lemma {:induction false} FirstAuthorized(tr: Trust, qs: seq<Header>)
    requires qs != []
    ensures QueryCut(tr, qs) == |qs| ==> qs[0].tenant != [] && tr.accepts(qs[0].token, qs[0].tenant)
    decreases |qs|
  {
    if |qs| > 1 {
      FirstAuthorized(tr, qs[..|qs| - 1]);
    }
  }

  /** The blob is there already, or what the client reads now is acceptable under its digest. */
  predicate Deliverable(tr: Trust, store: Store, s: Sender, b: BlobRef)
  {
    (s.tenant, b.digest) in store || Accepted(tr, Offered(s, b))
  }

  ghost predicate AllDeliverable(tr: Trust, store: Store, s: Sender, blobs: seq<BlobRef>)
  {
    forall b | b in blobs && !IsAbs(b.path) :: Deliverable(tr, store, s, b)
  }

  predicate FullDigests(blobs: seq<BlobRef>)
  {
    forall i | 0 <= i < |blobs| :: |blobs[i].digest| == 32
  }

  lemma {:induction false} RelativeDigests(blobs: seq<BlobRef>)
    requires FullDigests(blobs)
    ensures FullDigests(Relatives(blobs))
  {
    forall i | 0 <= i < |Relatives(blobs)|
      ensures |Relatives(blobs)[i].digest| == 32
    {
      RelativesAre(blobs, Relatives(blobs)[i]);
    }
  }

  lemma {:induction false} UploadRefuses(tr: Trust, store: Store, s: Sender, rel: seq<BlobRef>)
    requires Authorized(tr, s) && FullDigests(rel)
    ensures
      var missing := Digests(Absent(store, Queries(s, rel)));
      var up := Upload(tr, store, SentFrames(s, rel, missing), true);
      up.reply.Done? && (up.reply.rejected == [] <==> forall b | b in rel :: Deliverable(tr, store, s, b))
  {
    var missing := Digests(Absent(store, Queries(s, rel)));
    var gs := SentGroups(s, rel, missing);
    FramesTaken(tr, s, rel, missing);
    UploadConserves(tr, store, SentFrames(s, rel, missing));
    NoneRefused(tr, gs);
    forall b | b in rel
      ensures b.digest in missing <==> (s.tenant, b.digest) !in store
      ensures b.digest in missing ==> Offered(s, b) in gs
    {
      MissingAre(store, s, rel, b);
      GroupsAre(s, rel, missing, Offered(s, b));
    }
    forall g | g in gs
      ensures exists b :: b in rel && (s.tenant, b.digest) !in store && g == Offered(s, b)
    {
      GroupsAre(s, rel, missing, g);
    }
  }

  /**
   * The exchange succeeds if and only if nothing is to be sent, or the client may speak for its
   * tenant and every relative blob is in the store or is read as content of acceptable size that
   * still hashes to its digest.
   */
  lemma {:induction false} ExchangeOkIff(tr: Trust, store: Store, s: Sender, blobs: seq<BlobRef>)
    requires FullDigests(blobs)
    ensures Exchange(tr, store, s, blobs).ok <==>
              Relatives(blobs) == [] || (Authorized(tr, s) && AllDeliverable(tr, store, s, blobs))
  {
    var rel := Relatives(blobs);
    var missing := Digests(Absent(store, Queries(s, rel)));
    RelativeDigests(blobs);
    ProbeCut(tr, s, rel);
    forall b
      ensures b in rel <==> b in blobs && !IsAbs(b.path)
    {
      RelativesAre(blobs, b);
    }
    if rel != [] && Authorized(tr, s) {
      UploadRefuses(tr, store, s, rel);
      forall b | b in rel
        ensures b.digest in missing <==> (s.tenant, b.digest) !in store
      {
        MissingAre(store, s, rel, b);
      }
    }
  }

  lemma {:induction false} NowPresent(tr: Trust, store: Store, s: Sender, blobs: seq<BlobRef>, b: BlobRef)
    requires FullDigests(blobs) && Exchange(tr, store, s, blobs).ok && b in blobs && !IsAbs(b.path)
    ensures (s.tenant, b.digest) in Exchange(tr, store, s, blobs).store
  {
    var rel := Relatives(blobs);
    var missing := Digests(Absent(store, Queries(s, rel)));
    var frames := SentFrames(s, rel, missing);
    RelativesAre(blobs, b);
    RelativeDigests(blobs);
    ProbeCut(tr, s, rel);
    ExchangeOkIff(tr, store, s, blobs);
    MissingAre(store, s, rel, b);
    if missing != {} {
      FramesTaken(tr, s, rel, missing);
      UploadStores(tr, store, frames, (s.tenant, b.digest));
      if (s.tenant, b.digest) !in store {
        GroupsAre(s, rel, missing, Offered(s, b));
        var gs := Groups(frames);
        var i :| 0 <= i < |gs| && gs[i] == Offered(s, b);
        UploadKeeps(tr, store, frames, i);
      }
    }
  }

  lemma {:induction false} ExchangeSound(tr: Trust, store: Store, s: Sender, blobs: seq<BlobRef>)
    requires Sound(tr, store)
    ensures Sound(tr, Exchange(tr, store, s, blobs).store)
  {
    var rel := Relatives(blobs);
    UploadSound(tr, store, SentFrames(s, rel, Digests(Absent(store, Queries(s, rel)))), true);
  }

  // ---- Staging what was sent ----

  /** The relative paths make a directory tree: each is fit, and none is a directory on the way to another. */
  ghost predicate Layable(blobs: seq<BlobRef>)
  {
    && (forall i | 0 <= i < |blobs| && Staged(blobs, i) ::
          ValidateBlobPath(blobs[i].path).None? && Clean(blobs[i].path) != [])
    && (forall i, j | 0 <= i < |blobs| && 0 <= j < |blobs| :: !Obstructs(blobs, i, j))
  }

  /** No later relative blob goes to the same place. */
  ghost predicate LastAtPlace(blobs: seq<BlobRef>, i: nat)
  {
    && Staged(blobs, i)
    && forall j | i < j < |blobs| && Staged(blobs, j) :: Clean(blobs[j].path) != Clean(blobs[i].path)
  }

  /**
   * After a successful exchange, provided nothing is evicted, staging the same blobs in any order
   * succeeds if and only if their paths can be laid out; then a blob that does not share its place
   * with a later one is staged as content that hashes to the digest it was named by.
   */
  lemma {:induction false} DanceSucceeds(tr: Trust, store: Store, s: Sender, blobs: seq<BlobRef>, sent: seq<BlobRef>)
    requires Sound(tr, store) && FullDigests(blobs) && Exchange(tr, store, s, blobs).ok
    requires multiset(sent) == multiset(blobs)
    ensures
      var dir := Stage(Exchange(tr, store, s, blobs).store, s.tenant, sent);
      && (dir.Some? <==> Layable(sent))
      && (dir.Some? ==> forall i | 0 <= i < |sent| && LastAtPlace(sent, i) ::
            Clean(sent[i].path) in dir.value && tr.hash(dir.value[Clean(sent[i].path)]) == sent[i].digest)
  {
    var after := Exchange(tr, store, s, blobs).store;
    ExchangeSound(tr, store, s, blobs);
    forall i | 0 <= i < |sent| && Staged(sent, i)
      ensures (s.tenant, sent[i].digest) in after
    {
      assert sent[i] in multiset(sent);
      NowPresent(tr, store, s, blobs, sent[i]);
    }
    StageSucceedsIff(after, s.tenant, sent);
    if Layable(sent) {
      forall i | 0 <= i < |sent| && LastAtPlace(sent, i)
        ensures Clean(sent[i].path) in Stage(after, s.tenant, sent).value
        ensures tr.hash(Stage(after, s.tenant, sent).value[Clean(sent[i].path)]) == sent[i].digest
      {
        StageHolds(after, s.tenant, sent, i);
      }
    }
  }

  // ---- From the client's files to the worker's ----

  /** The client's own files, named by its manifest. */
  predicate Offers(c: Client, paths: seq<Bytes>)
  {
    forall i | 0 <= i < |paths| :: Readable(c, paths[i])
  }

  ghost predicate NoCollision(tr: Trust, store: Store, content: Bytes)
  {
    forall k | k in store :: tr.hash(store[k]) == tr.hash(content) ==> store[k] == content
  }

  /** A project file is small enough, and is read again, by its manifest path, as it was when it was hashed. */
  predicate ReadsAgain(c: Client, s: Sender, p: Bytes)
    requires Readable(c, p)
  {
    !IsAbs(RefOf(c, p).path) ==>
      Flatten(s.read(RefOf(c, p).path)) == c.files[c.full(p)] && |c.files[c.full(p)]| <= MaxBlob
  }

  lemma {:induction false} SentHas(c: Client, paths: seq<Bytes>, m: Manifest, sent: seq<BlobRef>, i: nat)
    returns (j: nat)
    requires Offers(c, paths) && SortOf(Refs(c, paths), m.blobs) && multiset(sent) == multiset(m.blobs) && i < |paths|
    ensures j < |sent| && sent[j] == RefOf(c, paths[i])
  {
    var refs := Refs(c, paths);
    assert refs[i] in multiset(refs);
    assert refs[i] in multiset(sent);
    j :| 0 <= j < |sent| && sent[j] == refs[i];
  }

  lemma {:induction false} RefFor(c: Client, paths: seq<Bytes>, m: Manifest, b: BlobRef) returns (i: nat)
    requires Offers(c, paths) && SortOf(Refs(c, paths), m.blobs) && b in m.blobs
    ensures i < |paths| && b == RefOf(c, paths[i])
  {
    var refs := Refs(c, paths);
    assert b in multiset(m.blobs);
    assert b in multiset(refs);
    i :| 0 <= i < |refs| && refs[i] == b;
  }

  lemma {:induction false} ManifestDeliverable(tr: Trust, store: Store, c: Client, paths: seq<Bytes>, m: Manifest,
                                               s: Sender)
    requires c.hash == tr.hash && (forall x :: |tr.hash(x)| == 32)
    requires Offers(c, paths) && SortOf(Refs(c, paths), m.blobs)
    requires forall i | 0 <= i < |paths| :: ReadsAgain(c, s, paths[i])
    ensures FullDigests(m.blobs) && AllDeliverable(tr, store, s, m.blobs)
  {
    forall b | b in m.blobs
      ensures |b.digest| == 32 && (!IsAbs(b.path) ==> Deliverable(tr, store, s, b))
    {
      var i := RefFor(c, paths, m, b);
      assert ReadsAgain(c, s, paths[i]);
    }
  }

  /**
   * The whole exchange, from the client's files to the worker's source directory. The manifest is
   * the one BuildManifest makes, toolchain headers included; only project files are probed and sent;
   * the blobs travel in any order; the worker's own sort settles ties as it likes. The exchange
   * succeeds, the digest check passes, and every project file is staged with the bytes it has on the
   * client, unless the store holds different bytes of the same hash.
   */
  lemma {:induction false} FilesArrive(tr: Trust, store: Store, c: Client, paths: seq<Bytes>, m: Manifest,
                                       sent: seq<BlobRef>, sorted: seq<BlobRef>, s: Sender, i: nat)
    requires c.hash == tr.hash && (forall x :: |tr.hash(x)| == 32)
    requires Offers(c, paths) && NamesFiles(c, paths)
    requires SortOf(Refs(c, paths), m.blobs) && m.digest == c.hash(EncodeRefs(m.blobs))
    requires multiset(sent) == multiset(m.blobs) && SortOf(sent, sorted)
    requires Sound(tr, store) && Authorized(tr, s) && forall k | 0 <= k < |paths| :: ReadsAgain(c, s, paths[k])
    requires Layable(sent) && forall k | 0 <= k < |sent| && Staged(sent, k) :: LastAtPlace(sent, k)
    requires i < |paths| && !IsAbs(RefOf(c, paths[i]).path)
    requires NoCollision(tr, Exchange(tr, store, s, m.blobs).store, c.files[c.full(paths[i])])
    ensures Exchange(tr, store, s, m.blobs).ok && tr.hash(EncodeRefs(sorted)) == m.digest
    ensures
      var dir := Stage(Exchange(tr, store, s, m.blobs).store, s.tenant, sent);
      var place := Clean(RefOf(c, paths[i]).path);
      dir.Some? && place in dir.value && dir.value[place] == c.files[c.full(paths[i])]
  {
    ManifestVerifies(c, paths, m, sent, sorted);
    ManifestDeliverable(tr, store, c, paths, m, s);
    ExchangeOkIff(tr, store, s, m.blobs);
    DanceSucceeds(tr, store, s, m.blobs, sent);
    var j := SentHas(c, paths, m, sent, i);
    assert Staged(sent, j);
    StageHolds(Exchange(tr, store, s, m.blobs).store, s.tenant, sent, j);
  }
}
