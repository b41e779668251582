/**
 * The worker's side of the blob transfer (internal/worker/cas.go): FindMissingBlobs answers which
 * digests are absent, UploadBlobs takes a stream of headers and data chunks and stores what
 * hashes to the digest it was announced under.
 */
module CasTransfer {
  import opened Bytes

  /** 256 MiB. */
  const MaxBlob: nat := 0x1000_0000

  type Tenant = Bytes
  type Digest = Bytes
  type Store = map<(Tenant, Digest), Bytes>

  /** What is not modelled further: the content hash, and the check of scheduler tokens. */
  datatype Trust = Trust(hash: Bytes -> Digest, accepts: (Bytes, Tenant) -> bool)

  datatype Header = Header(digest: Digest, tenant: Tenant, token: Bytes)

  datatype Frame = Open(header: Header) | Chunk(data: Bytes) | Unknown

  datatype Error = BadDigest | NoTenant | BadToken | TenantChanged | DataFirst | UnknownBody | BrokenStream

  datatype Reply = Done(blobs: nat, bytes: nat, rejected: seq<Digest>) | Failed(error: Error)

  // ---- What a stream means ----

  /** A header and everything that was sent under it. */
  datatype Group = Group(header: Header, data: Bytes)

  function Last<T>(s: seq<T>): T
    requires s != []
  {
    s[|s| - 1]
  }

  function AllButLast<T>(s: seq<T>): (r: seq<T>)
  {
    if s == [] then [] else s[..|s| - 1]
  }

  /** The stream cut at its headers, the chunks of each piece joined. */
  function Groups(frames: seq<Frame>): (gs: seq<Group>)
  {
    if frames == [] then [] else Taken(Groups(frames[..|frames| - 1]), Last(frames))
  }

  /** One more frame. */
  function Taken(gs: seq<Group>, f: Frame): (r: seq<Group>)
  {
    match f
    case Open(h) => gs + [Group(h, [])]
    case Chunk(d) => if gs == [] then [] else AllButLast(gs) + [Group(Last(gs).header, Last(gs).data + d)]
    case Unknown => gs
  }

  function HeaderError(tr: Trust, pinned: Option<Tenant>, h: Header, badDigest: bool): (e: Option<Error>)
  {
    if badDigest then Some(BadDigest)
    else if h.tenant == [] then Some(NoTenant)
    else if !tr.accepts(h.token, h.tenant) then Some(BadToken)
    else if pinned.Some? && pinned.value != h.tenant then Some(TenantChanged)
    else None
  }

  /** The tenant a stream is pinned to: its first header's. */
  function Pinned(gs: seq<Group>): (t: Option<Tenant>)
  {
    if gs == [] then None else Some(gs[0].header.tenant)
  }

  function FrameError(tr: Trust, gs: seq<Group>, f: Frame): (e: Option<Error>)
  {
    match f
    case Open(h) => HeaderError(tr, Pinned(gs), h, |h.digest| != 32)
    case Chunk(_) => if gs == [] then Some(DataFirst) else None
    case Unknown => Some(UnknownBody)
  }

  /** No frame breaks the protocol. */
  predicate Legal(tr: Trust, frames: seq<Frame>)
  {
    frames == [] || (Legal(tr, frames[..|frames| - 1]) && FrameError(tr, Groups(frames[..|frames| - 1]),
        Last(frames)).None?)
  }

  /** The index of the first frame that does, or the length. */
  function Cut(tr: Trust, frames: seq<Frame>): (k: nat)
    ensures k <= |frames|
  {
    if frames == [] then 0
    else
      var n := |frames| - 1;
      var k := Cut(tr, frames[..n]);
      if k < n then k
      else if FrameError(tr, Groups(frames[..n]), frames[n]).None? then n + 1 else n
  }

  lemma {:induction false} CutIs(tr: Trust, frames: seq<Frame>)
    ensures Legal(tr, frames[..Cut(tr, frames)])
    ensures
      var k := Cut(tr, frames);
      k < |frames| ==> FrameError(tr, Groups(frames[..k]), frames[k]).Some?
    decreases |frames|
  {
    if frames != [] {
      var n := |frames| - 1;
      CutIs(tr, frames[..n]);
      TakeAll(frames);
      if Cut(tr, frames[..n]) < n {
        assert frames[..n][..Cut(tr, frames)] == frames[..Cut(tr, frames)];
      } else {
        TakeAll(frames[..n]);
      }
    }
  }

  lemma {:induction false} CutOfLegal(tr: Trust, frames: seq<Frame>)
    requires Legal(tr, frames)
    ensures Cut(tr, frames) == |frames|
    decreases |frames|
  {
    if frames != [] {
      CutOfLegal(tr, frames[..|frames| - 1]);
    }
  }

  // ---- What is stored ----

  predicate Accepted(tr: Trust, g: Group)
  {
    |g.data| <= MaxBlob && tr.hash(g.data) == g.header.digest
  }

  datatype Tally = Tally(store: Store, blobs: nat, bytes: nat, rejected: seq<Digest>)

  function Commit(tr: Trust, t: Tally, g: Group): (r: Tally)
  {
    if Accepted(tr, g) then
      Tally(t.store[(g.header.tenant, tr.hash(g.data)) := g.data], t.blobs + 1, t.bytes + |g.data|, t.rejected)
    else t.(rejected := t.rejected + [g.header.digest])
  }

  function CommitAll(tr: Trust, t: Tally, gs: seq<Group>): (r: Tally)
  {
    if gs == [] then t else Commit(tr, CommitAll(tr, t, AllButLast(gs)), Last(gs))
  }

  function Fresh(store: Store): Tally
  {
    Tally(store, 0, 0, [])
  }

  datatype Outcome = Outcome(store: Store, reply: Reply)

  /**
   * A bad header still settles the blob before it; any other way to stop loses the blob in
   * progress. `whole` says whether the stream ended by itself.
   */
  function Upload(tr: Trust, store: Store, frames: seq<Frame>, whole: bool): (r: Outcome)
  {
    var k := Cut(tr, frames);
    var gs := Groups(frames[..k]);
    if k < |frames| then
      var settled := CommitAll(tr, Fresh(store), if frames[k].Open? then gs else AllButLast(gs));
      var e := FrameError(tr, gs, frames[k]);
      Outcome(settled.store, Failed(if e.Some? then e.value else BrokenStream))
    else if whole then
      var t := CommitAll(tr, Fresh(store), gs);
      Outcome(t.store, Done(t.blobs, t.bytes, t.rejected))
    else Outcome(CommitAll(tr, Fresh(store), AllButLast(gs)).store, Failed(BrokenStream))
  }

  // ---- Properties ----

  function Count(frames: seq<Frame>): (n: nat)
  {
    if frames == [] then 0 else Count(frames[..|frames| - 1]) + if Last(frames).Open? then 1 else 0
  }

  lemma {:induction false} GroupPerHeader(frames: seq<Frame>)
    ensures |Groups(frames)| == Count(frames)
    decreases |frames|
  {
    if frames != [] {
      GroupPerHeader(frames[..|frames| - 1]);
    }
  }

  function StoredBytes(tr: Trust, gs: seq<Group>): (n: nat)
  {
    if gs == [] then 0 else StoredBytes(tr, AllButLast(gs)) + if Accepted(tr, Last(gs)) then |Last(gs).data| else 0
  }

  function Refused(tr: Trust, gs: seq<Group>): (r: seq<Digest>)
  {
    if gs == [] then []
    else if Accepted(tr, Last(gs)) then Refused(tr, AllButLast(gs))
    else Refused(tr, AllButLast(gs)) + [Last(gs).header.digest]
  }

  lemma {:induction false} TallyIs(tr: Trust, store: Store, gs: seq<Group>)
    ensures
      var t := CommitAll(tr, Fresh(store), gs);
      t.blobs + |t.rejected| == |gs| && t.bytes == StoredBytes(tr, gs) && t.rejected == Refused(tr, gs)
    decreases |gs|
  {
    if gs != [] {
      TallyIs(tr, store, AllButLast(gs));
    }
  }

  /** Every header is answered for: as a stored blob or as a rejected digest, and only stored bytes are counted. */
  lemma {:induction false} UploadConserves(tr: Trust, store: Store, frames: seq<Frame>)
    requires Legal(tr, frames)
    ensures
      var r := Upload(tr, store, frames, true).reply;
      && r.Done? && r.blobs + |r.rejected| == Count(frames)
      && r.bytes == StoredBytes(tr, Groups(frames)) && r.rejected == Refused(tr, Groups(frames))
  {
    CutOfLegal(tr, frames);
    TakeAll(frames);
    TallyIs(tr, store, Groups(frames));
    GroupPerHeader(frames);
  }

  /** Every blob in the store hashes to its key. */
  ghost predicate Sound(tr: Trust, store: Store)
  {
    forall k | k in store :: tr.hash(store[k]) == k.1
  }

  lemma {:induction false} CommitSound(tr: Trust, t: Tally, gs: seq<Group>)
    requires Sound(tr, t.store)
    ensures Sound(tr, CommitAll(tr, t, gs).store)
    decreases |gs|
  {
    if gs != [] {
      CommitSound(tr, t, AllButLast(gs));
    }
  }

  /** However the stream goes, the store stays sound. */
  lemma {:induction false} UploadSound(tr: Trust, store: Store, frames: seq<Frame>, whole: bool)
    requires Sound(tr, store)
    ensures Sound(tr, Upload(tr, store, frames, whole).store)
  {
    var gs := Groups(frames[..Cut(tr, frames)]);
    CommitSound(tr, Fresh(store), gs);
    CommitSound(tr, Fresh(store), AllButLast(gs));
  }

  predicate OneTenant(gs: seq<Group>)
  {
    forall i | 0 <= i < |gs| :: gs[i].header.tenant == gs[0].header.tenant
  }

  predicate NamedTenants(gs: seq<Group>)
  {
    forall i | 0 <= i < |gs| :: gs[i].header.tenant != []
  }

  lemma {:induction false} TakenOneTenant(tr: Trust, gs: seq<Group>, f: Frame)
    requires OneTenant(gs) && NamedTenants(gs) && FrameError(tr, gs, f).None?
    ensures OneTenant(Taken(gs, f)) && NamedTenants(Taken(gs, f))
  {
    var r := Taken(gs, f);
    assert forall i | 0 <= i < |gs| - 1 :: r[i] == gs[i];
  }

  lemma {:induction false} LegalOneTenant(tr: Trust, frames: seq<Frame>)
    requires Legal(tr, frames)
    ensures OneTenant(Groups(frames)) && NamedTenants(Groups(frames))
    decreases |frames|
  {
    if frames != [] {
      LegalOneTenant(tr, frames[..|frames| - 1]);
      TakenOneTenant(tr, Groups(frames[..|frames| - 1]), Last(frames));
    }
  }

  /** Entries of other tenants are as they were. */
  ghost predicate OthersKept(a: Store, b: Store, t: Tenant)
  {
    forall k: (Tenant, Digest) | k.0 != t :: (k in a <==> k in b) && (k in a ==> b[k] == a[k])
  }

  lemma {:induction false} CommitOneTenant(tr: Trust, t: Tally, gs: seq<Group>, tenant: Tenant)
    requires forall i | 0 <= i < |gs| :: gs[i].header.tenant == tenant
    ensures OthersKept(t.store, CommitAll(tr, t, gs).store, tenant)
    decreases |gs|
  {
    if gs != [] {
      CommitOneTenant(tr, t, AllButLast(gs), tenant);
    }
  }

  /** A stream only ever writes under the tenant of its first header. */
  lemma {:induction false} UploadOneTenant(tr: Trust, store: Store, frames: seq<Frame>, whole: bool, tenant: Tenant)
    requires Pinned(Groups(frames[..Cut(tr, frames)])) in {None, Some(tenant)}
    ensures OthersKept(store, Upload(tr, store, frames, whole).store, tenant)
  {
    CutIs(tr, frames);
    var gs := Groups(frames[..Cut(tr, frames)]);
    LegalOneTenant(tr, frames[..Cut(tr, frames)]);
    CommitOneTenant(tr, Fresh(store), gs, tenant);
    CommitOneTenant(tr, Fresh(store), AllButLast(gs), tenant);
  }

  function KeyOf(g: Group): (Tenant, Digest)
  {
    (g.header.tenant, g.header.digest)
  }

  lemma {:induction false} CommitStores(tr: Trust, t: Tally, gs: seq<Group>, k: (Tenant, Digest))
    ensures k in CommitAll(tr, t, gs).store <==>
              k in t.store || exists i | 0 <= i < |gs| :: Accepted(tr, gs[i]) && KeyOf(gs[i]) == k
    decreases |gs|
  {
    if gs != [] {
      var n := |gs| - 1;
      CommitStores(tr, t, gs[..n], k);
      assert forall i | 0 <= i < n :: gs[..n][i] == gs[i];
      assert gs[n] == Last(gs) && AllButLast(gs) == gs[..n];
    }
  }

  /**
   * On a stream that ends by itself a key is there afterwards exactly if it was there before or some
   * blob announced under it is within the size cap and hashes to it.
   */
  lemma {:induction false} UploadStores(tr: Trust, store: Store, frames: seq<Frame>, k: (Tenant, Digest))
    requires Legal(tr, frames)
    ensures k in Upload(tr, store, frames, true).store <==>
              var gs := Groups(frames);
              k in store || exists i | 0 <= i < |gs| :: Accepted(tr, gs[i]) && KeyOf(gs[i]) == k
  {
    CutOfLegal(tr, frames);
    TakeAll(frames);
    var gs := Groups(frames);
    assert Upload(tr, store, frames, true).store == CommitAll(tr, Fresh(store), gs).store;
    CommitStores(tr, Fresh(store), gs, k);
    if k !in store && k in CommitAll(tr, Fresh(store), gs).store {
      var i :| 0 <= i < |gs| && Accepted(tr, gs[i]) && KeyOf(gs[i]) == k;
      assert Accepted(tr, Groups(frames)[i]) && KeyOf(Groups(frames)[i]) == k;
    }
  }

  lemma {:induction false} UploadKeeps(tr: Trust, store: Store, frames: seq<Frame>, i: nat)
    requires Legal(tr, frames) && i < |Groups(frames)| && Accepted(tr, Groups(frames)[i])
    ensures KeyOf(Groups(frames)[i]) in Upload(tr, store, frames, true).store
  {
    UploadStores(tr, store, frames, KeyOf(Groups(frames)[i]));
  }

  // ---- The receive loop ----

  /** The blob being received. `fed` is what the running hash has seen. */
  datatype InProgress = InProgress(header: Header, fed: Bytes, buf: Bytes, rejected: bool)

  /** The receive state matches the data sent so far under the last header. */
  predicate Follows(a: InProgress, g: Group)
  {
    && a.header == g.header
    && (a.rejected <==> |g.data| > MaxBlob)
    && (a.rejected ==> a.buf == [])
    && (!a.rejected ==> a.buf == g.data && a.fed == g.data)
  }

  class Worker {
    const trust: Trust
    var store: Store

    constructor (trust: Trust)
      ensures this.trust == trust && store == map[]
    {
      this.trust := trust;
      store := map[];
    }

    method UploadBlobs(frames: seq<Frame>, whole: bool) returns (reply: Reply)
      modifies this
      ensures Outcome(store, reply) == Upload(trust, old(store), frames, whole)
    {
      ghost var start := Fresh(store);
      var up := new Receiver(this);
      var i := 0;
      while i < |frames|
        invariant 0 <= i <= |frames| && Cut(trust, frames[..i]) == i
        invariant fresh(up) && up.w == this && up.At(start, Groups(frames[..i]))
      {
        NextFrame(trust, frames, i);
        var err := up.Take(frames[i], start, Groups(frames[..i]));
        if err.Some? {
          return Failed(err.value);
        }
        i := i + 1;
      }
      TakeAll(frames);
      if !whole {
        return Failed(BrokenStream);
      }
      up.Commit(start, Groups(frames));
      return Done(up.blobs, up.bytes, up.rejected);
    }

    /** Which of the digests asked about are absent; the stream is dropped at its first bad query. */
    method FindMissingBlobs(queries: seq<Header>) returns (missing: seq<Header>, err: Option<Error>)
      ensures var k := QueryCut(trust, queries);
              && missing == Absent(store, queries[..k])
              && err == if k < |queries| then QueryError(trust, queries[..k], queries[k]) else None
    {
      missing := [];
      var pinned: Tenant := [];
      var i := 0;
      while i < |queries|
        invariant 0 <= i <= |queries| && QueryCut(trust, queries[..i]) == i
        invariant missing == Absent(store, queries[..i])
        invariant pinned == if i == 0 then [] else queries[0].tenant
        invariant i > 0 ==> queries[0].tenant != []
      {
        var q := queries[i];
        NextQuery(trust, queries, i);
        if |q.digest| == 0 {
          return missing, Some(BadDigest);
        }
        if q.tenant == [] {
          return missing, Some(NoTenant);
        }
        if !trust.accepts(q.token, q.tenant) {
          return missing, Some(BadToken);
        }
        if pinned == [] {
          pinned := q.tenant;
        } else if q.tenant != pinned {
          return missing, Some(TenantChanged);
        }
        if (q.tenant, q.digest) !in store {
          missing := missing + [q];
        }
        i := i + 1;
      }
      TakeAll(queries);
      return missing, None;
    }
  }

  /** What UploadBlobs keeps between frames. */
  class Receiver {
    const w: Worker
    var active: Option<InProgress>
    var pinned: Tenant
    var blobs: nat
    var bytes: nat
    var rejected: seq<Digest>

    constructor (w: Worker)
      ensures this.w == w && At(Fresh(w.store), [])
    {
      this.w := w;
      active, pinned, blobs, bytes, rejected := None, [], 0, 0, [];
    }

    ghost function Sum(): Tally
      reads this, w
    {
      Tally(w.store, blobs, bytes, rejected)
    }

    /** Every blob of the stream so far is settled but the last, which is still coming in, within the cap. */
    ghost predicate At(start: Tally, gs: seq<Group>)
      reads this, w
    {
      && (active.None? <==> gs == [])
      && (gs != [] ==> Follows(active.value, Last(gs)))
      && (active.Some? ==> |active.value.buf| <= MaxBlob)
      && pinned == (if gs == [] then [] else gs[0].header.tenant)
      && (gs != [] ==> gs[0].header.tenant != [])
      && Sum() == CommitAll(w.trust, start, AllButLast(gs))
    }

    /** Settles the blob in progress, if there is one. */
    method Commit(ghost start: Tally, ghost gs: seq<Group>)
      requires At(start, gs)
      modifies this, w`store
      ensures active.None? && pinned == old(pinned) && Sum() == CommitAll(w.trust, start, gs)
    {
      if active.None? {
        return;
      }
      var a := active.value;
      active := None;
      if a.rejected {
        rejected := rejected + [a.header.digest];
        return;
      }
      var recomputed := w.trust.hash(a.fed);
      if recomputed != a.header.digest {
        rejected := rejected + [a.header.digest];
        return;
      }
      w.store := w.store[(a.header.tenant, recomputed) := a.buf];
      blobs, bytes := blobs + 1, bytes + |a.buf|;
    }

    method TakeHeader(h: Header, ghost start: Tally, ghost gs: seq<Group>) returns (err: Option<Error>)
      requires At(start, gs)
      modifies this, w`store
      ensures err == HeaderError(w.trust, Pinned(gs), h, |h.digest| != 32)
      ensures if err.None? then At(start, gs + [Group(h, [])]) else w.store == CommitAll(w.trust, start, gs).store
    {
      Commit(start, gs);
      if |h.digest| != 32 {
        return Some(BadDigest);
      }
      if h.tenant == [] {
        return Some(NoTenant);
      }
      if !w.trust.accepts(h.token, h.tenant) {
        return Some(BadToken);
      }
      if pinned == [] {
        pinned := h.tenant;
      } else if h.tenant != pinned {
        return Some(TenantChanged);
      }
      active := Some(InProgress(h, [], [], false));
      SnocBack(gs, Group(h, []));
      return None;
    }

    method TakeData(d: Bytes, ghost start: Tally, ghost gs: seq<Group>) returns (err: Option<Error>)
      requires At(start, gs)
      modifies this
      ensures err == if gs == [] then Some(DataFirst) else None
      ensures if err.None? then At(start, AllButLast(gs) + [Group(Last(gs).header, Last(gs).data + d)])
              else w.store == CommitAll(w.trust, start, AllButLast(gs)).store
    {
      if active.None? {
        return Some(DataFirst);
      }
      ghost var g := Group(Last(gs).header, Last(gs).data + d);
      SnocBack(AllButLast(gs), g);
      var a := active.value;
      if a.rejected {
        return None;
      }
      if |a.buf| + |d| > MaxBlob {
        active := Some(a.(rejected := true, buf := []));
        return None;
      }
      active := Some(a.(fed := a.fed + d, buf := a.buf + d));
      return None;
    }

    method Take(f: Frame, ghost start: Tally, ghost gs: seq<Group>) returns (err: Option<Error>)
      requires At(start, gs)
      modifies this, w`store
      ensures err == FrameError(w.trust, gs, f)
      ensures err.None? ==> At(start, Taken(gs, f))
      ensures err.Some? ==> w.store == CommitAll(w.trust, start, if f.Open? then gs else AllButLast(gs)).store
    {
      match f {
        case Open(h) => err := TakeHeader(h, start, gs);
        case Chunk(d) => err := TakeData(d, start, gs);
        case Unknown => err := Some(UnknownBody);
      }
    }
  }

  lemma {:induction false} SnocBack<T>(s: seq<T>, x: T)
    ensures AllButLast(s + [x]) == s && Last(s + [x]) == x
  {
  }

  lemma {:induction false} NextFrame(tr: Trust, frames: seq<Frame>, i: nat)
    requires i < |frames| && Cut(tr, frames[..i]) == i
    ensures frames[..i + 1] == frames[..i] + [frames[i]]
    ensures FrameError(tr, Groups(frames[..i]), frames[i]).None? ==> Cut(tr, frames[..i + 1]) == i + 1
    ensures FrameError(tr, Groups(frames[..i]), frames[i]).Some? ==> Cut(tr, frames) == i
    ensures
      var gs := Groups(frames[..i]);
      Groups(frames[..i + 1]) == Taken(gs, frames[i])
  {
    assert frames[..i + 1][..i] == frames[..i];
    if FrameError(tr, Groups(frames[..i]), frames[i]).Some? {
      CutStays(tr, frames, i, i + 1);
    }
  }

  lemma {:induction false} CutStays(tr: Trust, frames: seq<Frame>, i: nat, j: nat)
    requires i < j <= |frames| && Cut(tr, frames[..j]) == i
    ensures Cut(tr, frames) == i
    decreases |frames| - j
  {
    if j == |frames| {
      TakeAll(frames);
    } else {
      assert frames[..j + 1][..j] == frames[..j];
      CutStays(tr, frames, i, j + 1);
    }
  }

  // ---- Queries ----

  function QueryError(tr: Trust, before: seq<Header>, q: Header): (e: Option<Error>)
  {
    HeaderError(tr, if before == [] then None else Some(before[0].tenant), q, |q.digest| == 0)
  }

  function QueryCut(tr: Trust, queries: seq<Header>): (k: nat)
    ensures k <= |queries|
  {
    if queries == [] then 0
    else
      var n := |queries| - 1;
      var k := QueryCut(tr, queries[..n]);
      if k < n then k else if QueryError(tr, queries[..n], queries[n]).None? then n + 1 else n
  }

  function Absent(store: Store, queries: seq<Header>): (r: seq<Header>)
  {
    if queries == [] then []
    else
      var r := Absent(store, queries[..|queries| - 1]);
      if (Last(queries).tenant, Last(queries).digest) in store then r else r + [Last(queries)]
  }

  lemma {:induction false} NextQuery(tr: Trust, queries: seq<Header>, i: nat)
    requires i < |queries| && QueryCut(tr, queries[..i]) == i
    ensures queries[..i + 1][..i] == queries[..i]
    ensures QueryError(tr, queries[..i], queries[i]).None? ==> QueryCut(tr, queries[..i + 1]) == i + 1
    ensures QueryError(tr, queries[..i], queries[i]).Some? ==> QueryCut(tr, queries) == i
  {
    assert queries[..i + 1][..i] == queries[..i];
    if QueryError(tr, queries[..i], queries[i]).Some? {
      QueryCutStays(tr, queries, i, i + 1);
    }
  }

  lemma {:induction false} QueryCutStays(tr: Trust, queries: seq<Header>, i: nat, j: nat)
    requires i < j <= |queries| && QueryCut(tr, queries[..j]) == i
    ensures QueryCut(tr, queries) == i
    decreases |queries| - j
  {
    if j == |queries| {
      TakeAll(queries);
    } else {
      assert queries[..j + 1][..j] == queries[..j];
      QueryCutStays(tr, queries, i, j + 1);
    }
  }

  lemma {:induction false} AbsentIs(store: Store, queries: seq<Header>, q: Header)
    ensures q in Absent(store, queries) <==> q in queries && (q.tenant, q.digest) !in store
    decreases |queries|
  {
    if queries != [] {
      var n := |queries| - 1;
      AbsentIs(store, queries[..n], q);
      TakeNext(queries, n);
      TakeAll(queries);
    }
  }

  lemma {:induction false} CleanQueries(tr: Trust, queries: seq<Header>, t: Tenant)
    requires t != [] && forall i | 0 <= i < |queries| ::
               queries[i].tenant == t && queries[i].digest != [] && tr.accepts(queries[i].token, t)
    ensures QueryCut(tr, queries) == |queries|
    decreases |queries|
  {
    if queries != [] {
      CleanQueries(tr, queries[..|queries| - 1], t);
    }
  }
}
