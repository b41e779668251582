/**
 * A blob upload by position in the stream: which frames keep to the protocol, which blobs are
 * settled however the stream ends, and what the store holds afterwards.
 */
module CasStream {
  import opened Bytes
  import opened CasTransfer

  // ---- Which frames keep to the protocol ----

  /**
   * A header has a full digest, names a tenant its token is accepted for, and the tenant of every
   * header before it; data comes behind a header.
   */
  predicate InOrder(tr: Trust, frames: seq<Frame>, i: nat)
    requires i < |frames|
  {
    match frames[i]
    case Open(h) =>
      && |h.digest| == 32 && h.tenant != [] && tr.accepts(h.token, h.tenant)
      && forall j | 0 <= j < i && frames[j].Open? :: frames[j].header.tenant == h.tenant
    case Chunk(_) => exists j | 0 <= j < i :: frames[j].Open?
    case Unknown => false
  }

  ghost predicate AllInOrder(tr: Trust, frames: seq<Frame>)
  {
    forall i | 0 <= i < |frames| :: InOrder(tr, frames, i)
  }

  lemma {:induction false} InOrderBefore(tr: Trust, frames: seq<Frame>, n: nat, i: nat)
    requires i < n <= |frames|
    ensures InOrder(tr, frames[..n], i) <==> InOrder(tr, frames, i)
  {
    var head := frames[..n];
    assert forall j | 0 <= j < i :: head[j] == frames[j];
    if InOrder(tr, frames, i) && frames[i].Chunk? {
      var j :| 0 <= j < i && frames[j].Open?;
      assert head[j].Open?;
    }
  }

  lemma {:induction false} InOrderSnoc(tr: Trust, frames: seq<Frame>)
    requires frames != []
    ensures
      var n := |frames| - 1;
      AllInOrder(tr, frames) <==> AllInOrder(tr, frames[..n]) && InOrder(tr, frames, n)
  {
    var n := |frames| - 1;
    forall i | 0 <= i < n
      ensures InOrder(tr, frames[..n], i) <==> InOrder(tr, frames, i)
    {
      InOrderBefore(tr, frames, n, i);
    }
  }

  /** A stream in order starts with a header; its first group and all other headers share that tenant. */
  lemma {:induction false} StartsOpen(tr: Trust, frames: seq<Frame>)
    requires AllInOrder(tr, frames) && frames != []
    ensures frames[0].Open? && forall j | 0 <= j < |frames| && frames[j].Open? ::
              frames[j].header.tenant == frames[0].header.tenant
  {
    assert InOrder(tr, frames, 0);
    forall j | 0 <= j < |frames| && frames[j].Open?
      ensures frames[j].header.tenant == frames[0].header.tenant
    {
      assert InOrder(tr, frames, j);
    }
  }

  lemma {:induction false} FirstGroup(frames: seq<Frame>)
    requires frames != [] && frames[0].Open?
    ensures Groups(frames) != [] && Groups(frames)[0].header == frames[0].header
    decreases |frames|
  {
    var n := |frames| - 1;
    if n > 0 {
      FirstGroup(frames[..n]);
    } else {
      assert frames[..0] == [];
    }
  }

  lemma {:induction false} NextInOrder(tr: Trust, frames: seq<Frame>)
    requires frames != [] && AllInOrder(tr, frames[..|frames| - 1])
    ensures
      var n := |frames| - 1;
      FrameError(tr, Groups(frames[..n]), frames[n]).None? <==> InOrder(tr, frames, n)
  {
    var n := |frames| - 1;
    var head := frames[..n];
    if n > 0 {
      StartsOpen(tr, head);
      FirstGroup(head);
      assert frames[0].Open? && frames[0] == head[0];
      assert forall j | 0 <= j < n :: frames[j] == head[j];
    }
  }

  /** Legal means: every frame is in order. */
  lemma {:induction false} LegalIff(tr: Trust, frames: seq<Frame>)
    ensures Legal(tr, frames) <==> AllInOrder(tr, frames)
    decreases |frames|
  {
    if frames != [] {
      LegalIff(tr, frames[..|frames| - 1]);
      InOrderSnoc(tr, frames);
      if AllInOrder(tr, frames[..|frames| - 1]) {
        NextInOrder(tr, frames);
      }
    }
  }

  // ---- What is sent under a header ----

  /** Where the next frame that is not data is, at or behind `i`. */
  function NextHead(frames: seq<Frame>, i: nat): (m: nat)
    requires i <= |frames|
    ensures i <= m <= |frames| && (m < |frames| ==> !frames[m].Chunk?)
    ensures forall k | i <= k < m :: frames[k].Chunk?
    decreases |frames| - i
  {
    if i == |frames| || !frames[i].Chunk? then i else NextHead(frames, i + 1)
  }

  lemma {:induction false} NextHeadIs(frames: seq<Frame>, i: nat, m: nat)
    requires i <= m <= |frames| && (m < |frames| ==> !frames[m].Chunk?) && forall k | i <= k < m :: frames[k].Chunk?
    ensures NextHead(frames, i) == m
  {
  }

  function DataOf(frames: seq<Frame>): (r: Bytes)
  {
    if frames == [] then []
    else DataOf(frames[..|frames| - 1]) + if Last(frames).Chunk? then Last(frames).data else []
  }

  /** The header at `i` with the data up to the next frame that is not data. */
  function SentAt(frames: seq<Frame>, i: nat): (g: Group)
    requires i < |frames| && frames[i].Open?
  {
    Group(frames[i].header, DataOf(frames[i + 1..NextHead(frames, i + 1)]))
  }

  ghost predicate NoUnknown(frames: seq<Frame>)
  {
    forall i | 0 <= i < |frames| :: !frames[i].Unknown?
  }

  lemma {:induction false} CountMore(frames: seq<Frame>, i: nat)
    requires i < |frames|
    ensures Count(frames[..i + 1]) == Count(frames[..i]) + if frames[i].Open? then 1 else 0
  {
    assert frames[..i + 1][..i] == frames[..i];
  }

  lemma {:induction false} CountUp(frames: seq<Frame>, i: nat, j: nat)
    requires i <= j <= |frames|
    ensures Count(frames[..i]) <= Count(frames[..j])
    ensures (forall k | i <= k < j :: frames[k].Chunk?) ==> Count(frames[..i]) == Count(frames[..j])
    decreases j - i
  {
    if i < j {
      CountUp(frames, i, j - 1);
      CountMore(frames, j - 1);
    }
  }

  /** The header at `i` opens the last group exactly if only data follows. */
  lemma {:induction false} LastHeader(frames: seq<Frame>, i: nat)
    requires NoUnknown(frames) && i < |frames| && frames[i].Open?
    ensures Count(frames[..i]) < Count(frames)
    ensures Count(frames[..i]) == Count(frames) - 1 <==> NextHead(frames, i + 1) == |frames|
  {
    var m := NextHead(frames, i + 1);
    CountMore(frames, i);
    CountUp(frames, i + 1, m);
    TakeAll(frames);
    if m < |frames| {
      CountMore(frames, m);
      CountUp(frames, m + 1, |frames|);
    }
  }

  lemma {:induction false} DataMore(frames: seq<Frame>, i: nat, n: nat)
    requires i <= n < |frames| && frames[n].Chunk?
    ensures DataOf(frames[i..n + 1]) == DataOf(frames[i..n]) + frames[n].data
  {
    var all := frames[i..n + 1];
    assert all[..|all| - 1] == frames[i..n];
  }

  lemma {:induction false} SentBefore(frames: seq<Frame>, i: nat)
    requires i < |frames| - 1 && frames[i].Open?
    ensures
      var n := |frames| - 1;
      var m := NextHead(frames[..n], i + 1);
      SentAt(frames, i) == if m == n && frames[n].Chunk?
                           then Group(frames[i].header, SentAt(frames[..n], i).data + frames[n].data)
                           else SentAt(frames[..n], i)
  {
    var n := |frames| - 1;
    var m := NextHead(frames[..n], i + 1);
    SliceOfTake(frames, n, i + 1, m);
    if m == n && frames[n].Chunk? {
      NextHeadIs(frames, i + 1, n + 1);
      DataMore(frames, i + 1, n);
    } else {
      NextHeadIs(frames, i + 1, m);
    }
  }

  /** The groups of a stream are its headers in order, each with the data behind it. */
  lemma {:induction false} GroupAt(frames: seq<Frame>, i: nat)
    requires NoUnknown(frames) && i < |frames| && frames[i].Open?
    ensures Count(frames[..i]) < |Groups(frames)| && Groups(frames)[Count(frames[..i])] == SentAt(frames, i)
    decreases |frames|
  {
    var n := |frames| - 1;
    var head := frames[..n];
    GroupPerHeader(frames);
    GroupPerHeader(head);
    LastHeader(frames, i);
    if i == n {
      assert frames[n + 1..n + 1] == [];
    } else {
      GroupAt(head, i);
      assert head[..i] == frames[..i];
      SentBefore(frames, i);
      LastHeader(head, i);
    }
  }

  /** And every group is some header's. */
  lemma {:induction false} HeaderOfGroup(frames: seq<Frame>, j: nat) returns (i: nat)
    requires j < Count(frames)
    ensures i < |frames| && frames[i].Open? && Count(frames[..i]) == j
    decreases |frames|
  {
    var n := |frames| - 1;
    if j < Count(frames[..n]) {
      i := HeaderOfGroup(frames[..n], j);
      assert frames[..n][..i] == frames[..i];
    } else {
      i := n;
    }
  }

  // ---- What an upload settles ----

  /**
   * The blob opened at `i` is complete: everything up to its header keeps to the protocol, and its
   * data is followed by another header, acceptable or not, or by the end of a stream that ended by
   * itself. A stream that breaks off, or goes on with anything else, loses the blob in progress.
   */
  ghost predicate Settled(tr: Trust, frames: seq<Frame>, whole: bool, i: nat)
  {
    && i < |frames| && frames[i].Open? && AllInOrder(tr, frames[..i + 1])
    && var m := NextHead(frames, i + 1);
       if m == |frames| then whole else frames[m].Open?
  }

  /** What Upload commits. */
  function Committed(tr: Trust, frames: seq<Frame>, whole: bool): (gs: seq<Group>)
  {
    var k := Cut(tr, frames);
    var gs := Groups(frames[..k]);
    if (if k < |frames| then frames[k].Open? else whole) then gs else AllButLast(gs)
  }

  lemma {:induction false} UploadCommits(tr: Trust, store: Store, frames: seq<Frame>, whole: bool)
    ensures Upload(tr, store, frames, whole).store == CommitAll(tr, Fresh(store), Committed(tr, frames, whole)).store
  {
  }

  /** The stream is in order up to the cut and not at it. */
  lemma {:induction false} CutEnds(tr: Trust, frames: seq<Frame>)
    ensures
      var k := Cut(tr, frames);
      AllInOrder(tr, frames[..k]) && (k < |frames| ==> !InOrder(tr, frames, k))
  {
    var k := Cut(tr, frames);
    CutIs(tr, frames);
    LegalIff(tr, frames[..k]);
    if k < |frames| {
      assert frames[..k + 1][..k] == frames[..k];
      NextInOrder(tr, frames[..k + 1]);
      InOrderBefore(tr, frames, k + 1, k);
    }
  }

  lemma {:induction false} BeforeCut(tr: Trust, frames: seq<Frame>, i: nat)
    requires i < |frames|
    ensures AllInOrder(tr, frames[..i + 1]) <==> i < Cut(tr, frames)
  {
    var k := Cut(tr, frames);
    CutEnds(tr, frames);
    if i < k {
      var front := frames[..i + 1];
      forall j | 0 <= j < |front|
        ensures InOrder(tr, front, j)
      {
        assert InOrder(tr, frames[..k], j);
        InOrderBefore(tr, frames, k, j);
        InOrderBefore(tr, frames, i + 1, j);
      }
    } else if AllInOrder(tr, frames[..i + 1]) {
      assert InOrder(tr, frames[..i + 1], k);
      InOrderBefore(tr, frames, i + 1, k);
    }
  }

  /** Cutting the stream there takes nothing from a blob opened before. */
  lemma {:induction false} SentBeforeCut(tr: Trust, frames: seq<Frame>, i: nat)
    requires i < Cut(tr, frames) && frames[i].Open?
    ensures
      var head := frames[..Cut(tr, frames)];
      NextHead(head, i + 1) == NextHead(frames, i + 1) && SentAt(head, i) == SentAt(frames, i)
  {
    var k := Cut(tr, frames);
    var m := NextHead(frames[..k], i + 1);
    CutEnds(tr, frames);
    NextHeadIs(frames, i + 1, m);
    SliceOfTake(frames, k, i + 1, m);
  }

  lemma {:induction false} HeadNoUnknown(tr: Trust, frames: seq<Frame>)
    requires AllInOrder(tr, frames)
    ensures NoUnknown(frames)
  {
    forall i | 0 <= i < |frames|
      ensures !frames[i].Unknown?
    {
      assert InOrder(tr, frames, i);
    }
  }

  /** Header `i`, at or before the cut, is settled exactly if its group is committed. */
  lemma {:induction false} SettledAt(tr: Trust, frames: seq<Frame>, whole: bool, i: nat)
    requires i < Cut(tr, frames) && frames[i].Open?
    ensures
      var head, gs := frames[..Cut(tr, frames)], Committed(tr, frames, whole);
      && (Settled(tr, frames, whole, i) <==> Count(head[..i]) < |gs|)
      && (Count(head[..i]) < |gs| ==> gs[Count(head[..i])] == SentAt(frames, i))
  {
    var k := Cut(tr, frames);
    var head := frames[..k];
    BeforeCut(tr, frames, i);
    CutEnds(tr, frames);
    HeadNoUnknown(tr, head);
    SentBeforeCut(tr, frames, i);
    GroupAt(head, i);
    LastHeader(head, i);
    GroupPerHeader(head);
    if NextHead(frames, i + 1) < k {
      assert InOrder(tr, head, NextHead(frames, i + 1));
    }
  }

  /** What the blob opened at `i` puts under `key`. */
  ghost predicate Puts(tr: Trust, frames: seq<Frame>, whole: bool, i: nat, key: (Tenant, Digest))
  {
    && Settled(tr, frames, whole, i)
    && var g := SentAt(frames, i);
       && |g.data| <= 0x1000_0000 && tr.hash(g.data) == g.header.digest
       && key == (g.header.tenant, g.header.digest)
  }

  lemma {:induction false} PutsCommitted(tr: Trust, frames: seq<Frame>, whole: bool, i: nat, key: (Tenant, Digest))
    returns (j: nat)
    requires Puts(tr, frames, whole, i, key)
    ensures
      var gs := Committed(tr, frames, whole);
      j < |gs| && Accepted(tr, gs[j]) && KeyOf(gs[j]) == key
  {
    BeforeCut(tr, frames, i);
    SettledAt(tr, frames, whole, i);
    j := Count(frames[..Cut(tr, frames)][..i]);
  }

  lemma {:induction false} CommittedPuts(tr: Trust, frames: seq<Frame>, whole: bool, j: nat) returns (i: nat)
    requires j < |Committed(tr, frames, whole)| && Accepted(tr, Committed(tr, frames, whole)[j])
    ensures Puts(tr, frames, whole, i, KeyOf(Committed(tr, frames, whole)[j]))
    ensures SentAt(frames, i) == Committed(tr, frames, whole)[j]
  {
    var head := frames[..Cut(tr, frames)];
    GroupPerHeader(head);
    i := HeaderOfGroup(head, j);
    SettledAt(tr, frames, whole, i);
  }

  /**
   * However a stream goes, a key is in the store afterwards if and only if it was there before or
   * some settled blob was announced under it, is within the cap and hashes to it.
   */
  lemma {:induction false} UploadExact(tr: Trust, store: Store, frames: seq<Frame>, whole: bool, key: (Tenant, Digest))
    ensures key in Upload(tr, store, frames, whole).store <==>
              key in store || exists i: nat :: Puts(tr, frames, whole, i, key)
  {
    var gs := Committed(tr, frames, whole);
    UploadCommits(tr, store, frames, whole);
    CommitStores(tr, Fresh(store), gs, key);
    if i: nat :| Puts(tr, frames, whole, i, key) {
      var j := PutsCommitted(tr, frames, whole, i, key);
      assert Accepted(tr, gs[j]) && KeyOf(gs[j]) == key;
    }
    if j :| 0 <= j < |gs| && Accepted(tr, gs[j]) && KeyOf(gs[j]) == key {
      var i := CommittedPuts(tr, frames, whole, j);
    }
  }

  lemma {:induction false} CommitValue(tr: Trust, t: Tally, gs: seq<Group>, k: (Tenant, Digest))
    requires k in CommitAll(tr, t, gs).store
    ensures
      var v := CommitAll(tr, t, gs).store[k];
      || (exists i | 0 <= i < |gs| :: Accepted(tr, gs[i]) && KeyOf(gs[i]) == k && v == gs[i].data)
      || (k in t.store && v == t.store[k] && forall i | 0 <= i < |gs| :: !(Accepted(tr, gs[i]) && KeyOf(gs[i]) == k))
    decreases |gs|
  {
    if gs != [] {
      var n := |gs| - 1;
      assert gs[n] == CasTransfer.Last(gs) && AllButLast(gs) == gs[..n];
      assert forall i | 0 <= i < n :: gs[..n][i] == gs[i];
      if !(Accepted(tr, gs[n]) && KeyOf(gs[n]) == k) {
        CommitValue(tr, t, gs[..n], k);
      }
    }
  }

  /** And it holds the data of such a blob, or what it held if there is none. */
  lemma {:induction false} UploadValue(tr: Trust, store: Store, frames: seq<Frame>, whole: bool, key: (Tenant, Digest))
    requires key in Upload(tr, store, frames, whole).store
    ensures
      var v := Upload(tr, store, frames, whole).store[key];
      if exists i: nat :: Puts(tr, frames, whole, i, key)
      then exists i: nat :: Puts(tr, frames, whole, i, key) && v == SentAt(frames, i).data
      else key in store && v == store[key]
  {
    var gs := Committed(tr, frames, whole);
    UploadCommits(tr, store, frames, whole);
    CommitValue(tr, Fresh(store), gs, key);
    if j :| 0 <= j < |gs| && Accepted(tr, gs[j]) && KeyOf(gs[j]) == key
            && Upload(tr, store, frames, whole).store[key] == gs[j].data {
      var i := CommittedPuts(tr, frames, whole, j);
      assert Puts(tr, frames, whole, i, key);
    } else if i: nat :| Puts(tr, frames, whole, i, key) {
      var j := PutsCommitted(tr, frames, whole, i, key);
      assert false;
    }
  }

  // ---- The probe ----

  /** A query names a digest and a tenant its token is accepted for, the same one as the first. */
  predicate WellAsked(tr: Trust, queries: seq<Header>, i: nat)
    requires i < |queries|
  {
    var q := queries[i];
    q.digest != [] && q.tenant != [] && tr.accepts(q.token, q.tenant) && q.tenant == queries[0].tenant
  }

  /** The probe is answered up to its first bad query. */
  lemma {:induction false} ProbeStops(tr: Trust, queries: seq<Header>)
    ensures
      var k := QueryCut(tr, queries);
      && (forall i | 0 <= i < k :: WellAsked(tr, queries, i))
      && (k < |queries| ==> !WellAsked(tr, queries, k))
    decreases |queries|
  {
    if queries != [] {
      var n := |queries| - 1;
      var head := queries[..n];
      ProbeStops(tr, head);
      forall i | 0 <= i < n
        ensures WellAsked(tr, head, i) <==> WellAsked(tr, queries, i)
      {
        assert head[i] == queries[i] && head[0] == queries[0];
      }
    }
  }

  /** The answer is the queries whose blob is absent, in order, each as often as it was asked. */
  lemma {:induction false} ProbeAnswers(store: Store, queries: seq<Header>) returns (places: seq<nat>)
    ensures Picks(queries, places, Absent(store, queries))
    ensures forall i: nat | i < |queries| ::
              i in places <==> (queries[i].tenant, queries[i].digest) !in store
    decreases |queries|
  {
    if queries == [] {
      places := [];
    } else {
      var n := |queries| - 1;
      places := ProbeAnswers(store, queries[..n]);
      PicksMore(queries, places, Absent(store, queries[..n]));
      assert forall i: nat | i < n :: queries[..n][i] == queries[i];
      if (queries[n].tenant, queries[n].digest) !in store {
        places := places + [n];
      }
    }
  }
}
