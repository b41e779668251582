/**
 * The scheduler (internal/scheduler/scheduler.go, state.go): sessions, the worker table, routing
 * and the reaper. Each call is one atomic step; time, tokens and the check of tenant JWTs are
 * given from outside.
 */
module Scheduler {
  import opened Bytes
  import opened LoadBalance

  type Token = string
  type Tenant = string
  type Image = string

  const ColdPullPenalty: int := 100
  const StickyTenantBonus: int := 2

  datatype VM = VM(id: string, tenant: Tenant, image: Image)

  datatype WorkerState = WorkerState(addr: string, images: seq<Image>, vcpus: int, load: int, vms: seq<VM>,
                                     lastBeat: int)

  /** A worker session before and after it has registered. */
  datatype Binding = Unbound | Bound(worker: Id)

  datatype Policy = Policy(sticky: bool, workerToken: string, tenants: set<Tenant>, jwtHolds: (Tenant, string) -> bool)

  /** verifyTenantJWT. */
  predicate Verified(p: Policy, t: Tenant, jwt: string)
  {
    t != "" && t in p.tenants && p.jwtHolds(t, jwt)
  }

  // ---- Scores ----

  predicate Warm(w: WorkerState, image: Image)
  {
    image in w.images
  }

  predicate Hosts(w: WorkerState, t: Tenant, image: Image)
  {
    exists i | 0 <= i < |w.vms| :: w.vms[i].tenant == t && w.vms[i].image == image
  }

  /** What a worker's score adds to its load; a route changes none of it. */
  function Offset(p: Policy, w: WorkerState, t: Tenant, image: Image): (n: int)
  {
    (if Warm(w, image) then 0 else ColdPullPenalty) - (if p.sticky && Hosts(w, t, image) then StickyTenantBonus else 0)
  }

  function Score(p: Policy, w: WorkerState, t: Tenant, image: Image): (n: int)
  {
    w.load + Offset(p, w, t, image)
  }

  predicate Free(w: WorkerState)
  {
    w.vcpus > 0
  }

  type Workers = map<Id, WorkerState>

  /** The scores of the workers a job may go to. */
  function Scores(p: Policy, ws: Workers, t: Tenant, image: Image): (m: map<Id, int>)
  {
    map id | id in ws && Free(ws[id]) :: Score(p, ws[id], t, image)
  }

  /** atomic.AddInt32. */
  function Inc32(n: int): (r: int)
  {
    if n == 0x7FFF_FFFF then -0x8000_0000 else n + 1
  }

  function Dispatched(ws: Workers, id: Id): (r: Workers)
    requires id in ws
  {
    ws[id := ws[id].(load := Inc32(ws[id].load))]
  }

  // ---- Which worker is preferred ----

  /**
   * Worker `w` is free, and no free worker is better off: load, plus 100 without the image, less 2
   * for a VM that runs it for the tenant when tenants are sticky.
   */
  ghost predicate Cheapest(p: Policy, ws: Workers, t: Tenant, image: Image, w: Id)
  {
    && w in ws && ws[w].vcpus > 0
    && forall v | v in ws && ws[v].vcpus > 0 ::
         ws[w].load + (if image in ws[w].images then 0 else 100)
         - (if p.sticky && (exists vm | vm in ws[w].vms :: vm.tenant == t && vm.image == image) then 2 else 0)
         <= ws[v].load + (if image in ws[v].images then 0 else 100)
            - (if p.sticky && (exists vm | vm in ws[v].vms :: vm.tenant == t && vm.image == image) then 2 else 0)
  }

  lemma {:induction false} ScoreIs(p: Policy, w: WorkerState, t: Tenant, image: Image)
    ensures Score(p, w, t, image)
            == w.load + (if image in w.images then 0 else 100)
               - (if p.sticky && (exists vm | vm in w.vms :: vm.tenant == t && vm.image == image) then 2 else 0)
  {
    if vm :| vm in w.vms && vm.tenant == t && vm.image == image {
      var i :| 0 <= i < |w.vms| && w.vms[i] == vm;
      assert Hosts(w, t, image);
    }
  }

  lemma {:induction false} LeastIsCheapest(p: Policy, ws: Workers, t: Tenant, image: Image, w: Id)
    ensures Least(Scores(p, ws, t, image), w) <==> Cheapest(p, ws, t, image, w)
  {
    var m := Scores(p, ws, t, image);
    if w in ws && Free(ws[w]) {
      ScoreIs(p, ws[w], t, image);
      forall v | v in ws && Free(ws[v])
        ensures v in m && m[v] == Score(p, ws[v], t, image)
        ensures Score(p, ws[v], t, image)
                == ws[v].load + (if image in ws[v].images then 0 else 100)
                   - (if p.sticky && (exists vm | vm in ws[v].vms :: vm.tenant == t && vm.image == image) then 2
                      else 0)
      {
        ScoreIs(p, ws[v], t, image);
      }
    }
  }

  /** A worker without the image is picked beside one with it only if that has far more to do. */
  lemma {:induction false} ColdNeedsLoad(p: Policy, ws: Workers, t: Tenant, image: Image, w: Id, v: Id)
    requires Cheapest(p, ws, t, image, w) && v in ws && ws[v].vcpus > 0
    requires image !in ws[w].images && image in ws[v].images
    ensures ws[v].load >= ws[w].load + 98 && (!p.sticky ==> ws[v].load >= ws[w].load + 100)
  {
  }

  /** Between workers alike in load and image, one that already runs it for the tenant is not passed over. */
  lemma {:induction false} StickyPreferred(p: Policy, ws: Workers, t: Tenant, image: Image, w: Id, v: Id)
    requires Cheapest(p, ws, t, image, w) && v in ws && ws[v].vcpus > 0 && p.sticky
    requires ws[w].load == ws[v].load && (image in ws[w].images <==> image in ws[v].images)
    requires exists vm | vm in ws[v].vms :: vm.tenant == t && vm.image == image
    ensures exists vm | vm in ws[w].vms :: vm.tenant == t && vm.image == image
  {
  }

  datatype Reply = Refused | NoWorker | Routed(worker: Id)

  datatype Beat = Unauthenticated | WrongWorker | NotRegistered | Accepted

  class Scheduler {
    const policy: Policy
    var userSessions: map<Token, Tenant>
    var workerSessions: map<Token, Binding>
    var workers: Workers
    /** Every session token handed to a tenant whose JWT verified. */
    ghost var issued: set<(Token, Tenant)>

    /** What holds in every reachable state. */
    ghost predicate Valid()
      reads this
    {
      && (forall k | k in workerSessions && workerSessions[k].Bound? :: workerSessions[k].worker in workers)
      && (forall k | k in userSessions :: userSessions[k] != "" && (k, userSessions[k]) in issued)
    }

    constructor (policy: Policy)
      ensures Valid() && this.policy == policy && issued == {}
      ensures userSessions == map[] && workerSessions == map[] && workers == map[]
    {
      this.policy := policy;
      userSessions, workerSessions, workers := map[], map[], map[];
      issued := {};
    }

    /** `drawn` is the random token drawn for this call. */
    method AuthenticateTenant(t: Tenant, jwt: string, drawn: Token) returns (ok: bool)
      requires Valid()
      modifies this
      ensures Valid() && (ok <==> t != "" && t in policy.tenants && policy.jwtHolds(t, jwt))
      ensures userSessions == if ok then old(userSessions)[drawn := t] else old(userSessions)
      ensures issued == if ok then old(issued) + {(drawn, t)} else old(issued)
      ensures workerSessions == old(workerSessions) && workers == old(workers)
    {
      ok := Verified(policy, t, jwt);
      if ok {
        userSessions := userSessions[drawn := t];
        issued := issued + {(drawn, t)};
      }
    }

    method AuthenticateWorker(secret: string, drawn: Token) returns (ok: bool)
      requires Valid()
      modifies this
      ensures Valid() && ok == (secret == policy.workerToken)
      ensures workerSessions == if ok then old(workerSessions)[drawn := Unbound] else old(workerSessions)
      ensures userSessions == old(userSessions) && workers == old(workers) && issued == old(issued)
    {
      ok := secret == policy.workerToken;
      if ok {
        workerSessions := workerSessions[drawn := Unbound];
      }
    }

    /**
     * The scan ranges over a concurrent map, so in any order; the strict comparison keeps the first
     * of several least scores it meets.
     */
    method PickWorker(t: Tenant, image: Image) returns (best: Option<Id>)
      requires Valid()
      modifies this`workers
      ensures Valid()
      ensures best.None? <==> Scores(policy, old(workers), t, image) == map[]
      ensures best.None? ==> workers == old(workers)
      ensures best.Some? ==> Least(Scores(policy, old(workers), t, image), best.value)
      ensures best.Some? ==> best.value in old(workers) && workers == Dispatched(old(workers), best.value)
      ensures best.None? <==> forall v | v in old(workers) :: old(workers)[v].vcpus <= 0
      ensures best.Some? ==> Cheapest(policy, old(workers), t, image, best.value)
    {
      best := None;
      var bestScore := 0;
      ghost var m := Scores(policy, workers, t, image);
      var rest := workers.Keys;
      while rest != {}
        invariant rest <= workers.Keys && workers == old(workers)
        invariant best.None? ==> forall v | v in workers && v !in rest :: v !in m
        invariant best.Some? ==> best.value in m && m[best.value] == bestScore
        invariant best.Some? ==> forall v | v in m && v !in rest :: bestScore <= m[v]
        decreases |rest|
      {
        var id :| id in rest;
        rest := rest - {id};
        var w := workers[id];
        if w.vcpus <= 0 {
          continue;
        }
        var score := ScoreOf(w, t, image);
        if best.None? || score < bestScore {
          bestScore := score;
          best := Some(id);
        }
      }
      if best.Some? {
        LeastIsCheapest(policy, workers, t, image, best.value);
        workers := Dispatched(workers, best.value);
      } else {
        assert m == map[];
      }
    }

    /** The two inner loops: is the image there, does a VM for the tenant run it. */
    method ScoreOf(w: WorkerState, t: Tenant, image: Image) returns (score: int)
      ensures score == Score(policy, w, t, image)
      ensures score == w.load + (if image in w.images then 0 else 100)
                       - (if policy.sticky && (exists vm | vm in w.vms :: vm.tenant == t && vm.image == image) then 2
                          else 0)
    {
      score := w.load;
      var hasImage := false;
      for i := 0 to |w.images|
        invariant !hasImage && forall k | 0 <= k < i :: w.images[k] != image
      {
        if w.images[i] == image {
          hasImage := true;
          break;
        }
      }
      if !hasImage {
        score := score + ColdPullPenalty;
      }
      if policy.sticky {
        var found := false;
        for i := 0 to |w.vms|
          invariant !found && forall k | 0 <= k < i :: !(w.vms[k].tenant == t && w.vms[k].image == image)
        {
          if w.vms[i].tenant == t && w.vms[i].image == image {
            score := score - StickyTenantBonus;
            found := true;
            break;
          }
        }
      }
      ScoreIs(policy, w, t, image);
    }

    /** A route succeeds only for the tenant whose verified login the session token came from. */
    method Route(session: Token, t: Tenant, image: Image) returns (r: Reply)
      requires Valid()
      modifies this`workers
      ensures Valid()
      ensures r.Refused? <==> !(session in userSessions && userSessions[session] == t)
      ensures !r.Refused? ==> t != "" && (session, t) in issued
      ensures !r.Routed? ==> workers == old(workers)
      ensures r.NoWorker? ==> Scores(policy, old(workers), t, image) == map[]
      ensures r.Routed? ==> Least(Scores(policy, old(workers), t, image), r.worker)
      ensures r.Routed? ==> r.worker in old(workers) && workers == Dispatched(old(workers), r.worker)
      ensures r.NoWorker? ==> forall v | v in old(workers) :: old(workers)[v].vcpus <= 0
      ensures r.Routed? ==> Cheapest(policy, old(workers), t, image, r.worker)
    {
      if session !in userSessions {
        return Refused;
      }
      var bound := userSessions[session];
      if bound == "" || bound != t {
        return Refused;
      }
      var w := PickWorker(t, image);
      if w.None? {
        return NoWorker;
      }
      return Routed(w.value);
    }

    method RegisterWorker(session: Token, id: Id, addr: string, images: seq<Image>, vcpus: int, load: int, now: int)
                          returns (ok: bool)
      requires Valid()
      modifies this
      ensures Valid() && ok == (session in old(workerSessions))
      ensures workerSessions == if ok then old(workerSessions)[session := Bound(id)] else old(workerSessions)
      ensures workers == if ok then old(workers)[id := WorkerState(addr, images, vcpus, load, [], now)]
                else old(workers)
      ensures userSessions == old(userSessions) && issued == old(issued)
    {
      if session !in workerSessions {
        return false;
      }
      workerSessions := workerSessions[session := Bound(id)];
      workers := workers[id := WorkerState(addr, images, vcpus, load, [], now)];
      return true;
    }

    /** The branch for a worker that is bound but not registered can never be taken. */
    method Heartbeat(session: Token, id: Id, vcpus: int, load: int, vms: seq<VM>, now: int) returns (r: Beat)
      requires Valid()
      modifies this`workers
      ensures Valid() && !r.NotRegistered?
      ensures r.Accepted? <==> session in workerSessions && workerSessions[session] == Bound(id)
      ensures r.Unauthenticated? <==> session !in workerSessions
      ensures workers.Keys == old(workers).Keys
      ensures workers == if r.Accepted?
                         then old(workers)[id := old(workers)[id].(vcpus := vcpus, load := load, vms := vms,
                             lastBeat := now)]
                         else old(workers)
    {
      if session !in workerSessions {
        return Unauthenticated;
      }
      if workerSessions[session] != Bound(id) {
        return WrongWorker;
      }
      if id !in workers {
        return NotRegistered;
      }
      workers := workers[id := ApplyHeartbeat(workers[id], vcpus, load, vms, now)];
      return Accepted;
    }

    /** A reap removes exactly the workers whose last beat is before the cutoff, and all their sessions. */
    method ReapStaleWorkers(cutoff: int)
      requires Valid()
      modifies this
      ensures Valid() && userSessions == old(userSessions) && issued == old(issued)
      ensures workers == map id | id in old(workers) && old(workers)[id].lastBeat >= cutoff :: old(workers)[id]
      ensures workerSessions ==
                map k | k in old(workerSessions)
                        && !(old(workerSessions)[k].Bound? && old(workerSessions)[k].worker in old(workers)
                             && old(workers)[old(workerSessions)[k].worker].lastBeat < cutoff) ::
                    old(workerSessions)[k]
    {
      var stale := FindStale(cutoff);
      workers := workers - stale;
      DropSessions(stale);
      assert forall k | k in old(workerSessions) ::
          old(workerSessions)[k].Bound? && old(workerSessions)[k].worker in stale <==>
              old(workerSessions)[k].Bound? && old(workerSessions)[k].worker in old(workers)
                  && old(workers)[old(workerSessions)[k].worker].lastBeat < cutoff;
    }

    method FindStale(cutoff: int) returns (stale: set<Id>)
      ensures forall id :: id in stale <==> id in workers && workers[id].lastBeat < cutoff
    {
      stale := {};
      var rest := workers.Keys;
      while rest != {}
        invariant rest <= workers.Keys
        invariant forall id :: id in stale <==> id in workers && id !in rest && workers[id].lastBeat < cutoff
        decreases |rest|
      {
        var id :| id in rest;
        rest := rest - {id};
        if workers[id].lastBeat < cutoff {
          stale := stale + {id};
        }
      }
    }

    method DropSessions(stale: set<Id>)
      modifies this`workerSessions
      ensures workerSessions == map k | k in old(workerSessions)
                && !(old(workerSessions)[k].Bound? && old(workerSessions)[k].worker in stale) ::
                                  old(workerSessions)[k]
    {
      var keys := workerSessions.Keys;
      while keys != {}
        invariant keys <= old(workerSessions).Keys
        invariant forall k :: k in workerSessions <==>
                    k in old(workerSessions) && (k in keys || !(old(workerSessions)[k].Bound?
                        && old(workerSessions)[k].worker in stale))
        invariant forall k | k in workerSessions :: workerSessions[k] == old(workerSessions)[k]
        decreases |keys|
      {
        var k :| k in keys;
        keys := keys - {k};
        if workerSessions[k].Bound? && workerSessions[k].worker in stale {
          workerSessions := workerSessions - {k};
        }
      }
    }
  }

  /** applyHeartbeat: what the worker reports replaces what the scheduler guessed. */
  function ApplyHeartbeat(w: WorkerState, vcpus: int, load: int, vms: seq<VM>, now: int): (r: WorkerState)
    ensures r.images == w.images && r.addr == w.addr
  {
    w.(vcpus := vcpus, load := load, vms := vms, lastBeat := now)
  }

  // ---- Runs of routes ----

  /** Routes one after the other for one tenant and image, nothing else in between. */
  ghost predicate RoutesTo(p: Policy, ws: Workers, t: Tenant, image: Image, picks: seq<Id>)
  {
    picks == [] || (Least(Scores(p, ws, t, image), picks[0]) && picks[0] in ws
                    && RoutesTo(p, Dispatched(ws, picks[0]), t, image, picks[1..]))
  }

  /** Every pick is a registered worker. */
  predicate Inside(ws: Workers, picks: seq<Id>)
  {
    forall i | 0 <= i < |picks| :: picks[i] in ws
  }

  function AfterRoutes(ws: Workers, picks: seq<Id>): (r: Workers)
    requires Inside(ws, picks)
  {
    if picks == [] then ws else AfterRoutes(Dispatched(ws, picks[0]), picks[1..])
  }

  const MaxLoad: int := 0x7FFF_FFFF

  /** How many of the picks meet a counter at its limit and turn it over. */
  function Wraps(ws: Workers, picks: seq<Id>): (n: nat)
    requires Inside(ws, picks)
  {
    if picks == [] then 0
    else (if ws[picks[0]].load == MaxLoad then 1 else 0) + Wraps(Dispatched(ws, picks[0]), picks[1..])
  }

  lemma {:induction false} PicksInside(p: Policy, ws: Workers, t: Tenant, image: Image, picks: seq<Id>)
    requires RoutesTo(p, ws, t, image, picks)
    ensures Inside(ws, picks)
    decreases |picks|
  {
    if picks != [] {
      PicksInside(p, Dispatched(ws, picks[0]), t, image, picks[1..]);
      forall i | 0 <= i < |picks|
        ensures picks[i] in ws
      {
        if i > 0 {
          assert picks[1..][i - 1] == picks[i];
        }
      }
    }
  }

  function Loads(ws: Workers): (m: map<Id, int>)
  {
    map id | id in ws :: ws[id].load
  }

  // ---- Totals ----

  /** A route is counted exactly when the 32-bit counter it bumps is not at its limit. */
  lemma {:induction false} RouteCounts(ws: Workers, w: Id, ids: seq<Id>)
    requires w in ws && Distinct(ids) && forall id :: id in ids <==> id in ws
    ensures Total(ids, Loads(Dispatched(ws, w))) ==
              Total(ids, Loads(ws)) + if ws[w].load == MaxLoad then 1 - 0x1_0000_0000 else 1
  {
    var m, r := Loads(ws), Loads(Dispatched(ws, w));
    assert r == m[w := Inc32(m[w])];
    TotalSet(ids, m, w, Inc32(m[w]));
  }

  /** Any run of routes raises the total load by their number, less 2^32 for every counter turned over. */
  lemma {:induction false} RoutesCount(ws: Workers, picks: seq<Id>, ids: seq<Id>)
    requires Inside(ws, picks) && Distinct(ids) && forall id :: id in ids <==> id in ws
    ensures Loads(AfterRoutes(ws, picks)).Keys == ws.Keys
    ensures Total(ids, Loads(AfterRoutes(ws, picks))) == Total(ids, Loads(ws))
              + |picks| - 0x1_0000_0000 * Wraps(ws, picks)
    decreases |picks|
  {
    if picks != [] {
      RouteCounts(ws, picks[0], ids);
      assert forall i | 0 <= i < |picks[1..]| :: picks[1..][i] == picks[i + 1];
      RoutesCount(Dispatched(ws, picks[0]), picks[1..], ids);
    }
  }

  // ---- When a counter turns over ----

  function Times(picks: seq<Id>, w: Id): (n: nat)
  {
    if picks == [] then 0 else (if picks[0] == w then 1 else 0) + Times(picks[1..], w)
  }

  /** The counters are 32-bit integers. */
  predicate Counters(ws: Workers)
  {
    forall id | id in ws :: -0x8000_0000 <= ws[id].load <= MaxLoad
  }

  /** No counter turns over exactly when each has room for the routes that go to its own worker. */
  lemma {:induction false} WrapsIff(ws: Workers, picks: seq<Id>)
    requires Inside(ws, picks) && Counters(ws)
    ensures Wraps(ws, picks) == 0 <==> forall w | w in ws :: ws[w].load + Times(picks, w) <= MaxLoad
    decreases |picks|
  {
    if picks != [] {
      var next := Dispatched(ws, picks[0]);
      assert forall i | 0 <= i < |picks[1..]| :: picks[1..][i] == picks[i + 1];
      WrapsIff(next, picks[1..]);
      forall w | w in ws
        ensures ws[picks[0]].load != MaxLoad ==> next[w].load + Times(picks[1..], w) == ws[w].load + Times(picks, w)
      {
      }
    }
  }

  lemma {:induction false} TimesBound(picks: seq<Id>, w: Id)
    ensures Times(picks, w) <= |picks| && (Times(picks, w) > 0 ==> w in picks)
    decreases |picks|
  {
    if picks != [] {
      TimesBound(picks[1..], w);
    }
  }

  lemma {:induction false} PicksFree(p: Policy, ws: Workers, t: Tenant, image: Image, picks: seq<Id>, w: Id)
    requires RoutesTo(p, ws, t, image, picks) && w in picks
    ensures w in ws && Free(ws[w])
    decreases |picks|
  {
    if picks[0] != w {
      PicksFree(p, Dispatched(ws, picks[0]), t, image, picks[1..], w);
    }
  }

  /** Room on the workers a job may go to is enough, however full the others are. */
  lemma {:induction false} RoomEnough(p: Policy, ws: Workers, t: Tenant, image: Image, picks: seq<Id>)
    requires RoutesTo(p, ws, t, image, picks) && Counters(ws)
    requires forall id | id in ws && Free(ws[id]) :: ws[id].load + |picks| <= MaxLoad
    ensures Inside(ws, picks) && Wraps(ws, picks) == 0
  {
    PicksInside(p, ws, t, image, picks);
    WrapsIff(ws, picks);
    forall w | w in ws
      ensures ws[w].load + Times(picks, w) <= MaxLoad
    {
      TimesBound(picks, w);
      if Times(picks, w) > 0 {
        PicksFree(p, ws, t, image, picks, w);
      }
    }
  }

  // ---- Spread ----

  lemma {:induction false} DispatchScores(p: Policy, ws: Workers, t: Tenant, image: Image, w: Id)
    requires Least(Scores(p, ws, t, image), w)
    ensures
      var m := Scores(p, ws, t, image);
      w in ws && Scores(p, Dispatched(ws, w), t, image) == m[w := m[w] + Inc32(ws[w].load) - ws[w].load]
  {
    var m, next := Scores(p, ws, t, image), Dispatched(ws, w);
    assert next[w].vms == ws[w].vms && next[w].images == ws[w].images;
    forall id | id in next && Free(next[id])
      ensures Score(p, next[id], t, image) == m[w := m[w] + Inc32(ws[w].load) - ws[w].load][id]
    {
      assert Offset(p, next[id], t, image) == Offset(p, ws[id], t, image);
    }
  }

  /** A run of routes that turns no counter over is a greedy run on the scores. */
  lemma {:induction false} RoutesAreGreedy(p: Policy, ws: Workers, t: Tenant, image: Image, picks: seq<Id>)
    requires RoutesTo(p, ws, t, image, picks)
    requires Inside(ws, picks) && Wraps(ws, picks) == 0
    ensures Greedy(Scores(p, ws, t, image), picks)
    ensures forall i | 0 <= i < |picks| :: picks[i] in Scores(p, ws, t, image)
    ensures Scores(p, AfterRoutes(ws, picks), t, image) == After(Scores(p, ws, t, image), picks)
    decreases |picks|
  {
    if picks != [] {
      var next := Dispatched(ws, picks[0]);
      DispatchScores(p, ws, t, image, picks[0]);
      assert forall i | 0 <= i < |picks[1..]| :: picks[1..][i] == picks[i + 1];
      RoutesAreGreedy(p, next, t, image, picks[1..]);
      GreedyInside(Scores(p, ws, t, image), picks);
    }
  }

  lemma {:induction false} LoadsFollow(ws: Workers, picks: seq<Id>)
    requires Inside(ws, picks) && Wraps(ws, picks) == 0
    ensures Loads(AfterRoutes(ws, picks)) == After(Loads(ws), picks)
    decreases |picks|
  {
    if picks != [] {
      var next := Dispatched(ws, picks[0]);
      assert Loads(next) == Bumped(Loads(ws), picks[0]);
      assert forall i | 0 <= i < |picks[1..]| :: picks[1..][i] == picks[i + 1];
      LoadsFollow(next, picks[1..]);
    }
  }

  /**
   * Between heartbeats, any number of routes for one tenant and image raises the total load by the
   * number of routes if and only if no counter is turned over, and then keeps the scores of the free
   * workers within a window as wide as at first, or one.
   */
  lemma {:induction false} RoutingBalances(p: Policy, ws: Workers, t: Tenant, image: Image, picks: seq<Id>,
                                           lo: int, d: nat, ids: seq<Id>) returns (lo': int)
    requires RoutesTo(p, ws, t, image, picks)
    requires Within(Scores(p, ws, t, image), lo, d) && d >= 1
    requires Distinct(ids) && forall id :: id in ids <==> id in ws
    ensures Inside(ws, picks)
    ensures Loads(AfterRoutes(ws, picks)).Keys == ws.Keys
    ensures Total(ids, Loads(AfterRoutes(ws, picks))) == Total(ids, Loads(ws))
              + |picks| - 0x1_0000_0000 * Wraps(ws, picks)
    ensures Wraps(ws, picks) == 0 <==> Total(ids, Loads(AfterRoutes(ws, picks))) == Total(ids, Loads(ws)) + |picks|
    ensures Wraps(ws, picks) == 0 ==> Within(Scores(p, AfterRoutes(ws, picks), t, image), lo', d)
  {
    PicksInside(p, ws, t, image, picks);
    RoutesCount(ws, picks, ids);
    lo' := lo;
    if Wraps(ws, picks) == 0 {
      RoutesAreGreedy(p, ws, t, image, picks);
      lo' := SpreadKept(Scores(p, ws, t, image), picks, lo, d);
    }
  }

  /** No two values are further apart than `d`. */
  ghost predicate Tight(m: map<Id, int>, d: nat)
  {
    forall v, w | v in m && w in m :: m[v] - m[w] <= d
  }

  ghost predicate Alone(m: map<Id, int>)
  {
    forall v, w | v in m && w in m :: v == w
  }

  /** The spread after every one of the routes. */
  ghost predicate TightThroughout(p: Policy, ws: Workers, t: Tenant, image: Image, picks: seq<Id>, d: nat)
    requires Inside(ws, picks)
  {
    Tight(Scores(p, ws, t, image), d)
    && (picks != [] ==> TightThroughout(p, Dispatched(ws, picks[0]), t, image, picks[1..], d))
  }

  /** A worker at the limit that is picked beside another free one tears the scores apart. */
  lemma {:induction false} WrapTears(p: Policy, ws: Workers, t: Tenant, image: Image, w: Id, d: nat)
    requires Least(Scores(p, ws, t, image), w) && w in ws && ws[w].load == MaxLoad && d < 0xFFFF_FFFF
    ensures Tight(Scores(p, Dispatched(ws, w), t, image), d) <==> Alone(Scores(p, ws, t, image))
  {
    var m, next := Scores(p, ws, t, image), Scores(p, Dispatched(ws, w), t, image);
    DispatchScores(p, ws, t, image, w);
    if !Alone(m) {
      var a, b :| a in m && b in m && a != b;
      var v := if a == w then b else a;
      assert next[v] - next[w] >= 0xFFFF_FFFF;
    }
  }

  lemma {:induction false} AloneStays(p: Policy, ws: Workers, t: Tenant, image: Image, picks: seq<Id>, d: nat)
    requires RoutesTo(p, ws, t, image, picks) && Inside(ws, picks)
    requires Alone(Scores(p, ws, t, image))
    ensures TightThroughout(p, ws, t, image, picks, d)
    decreases |picks|
  {
    if picks != [] {
      DispatchScores(p, ws, t, image, picks[0]);
      assert forall i | 0 <= i < |picks[1..]| :: picks[1..][i] == picks[i + 1];
      AloneStays(p, Dispatched(ws, picks[0]), t, image, picks[1..], d);
    }
  }

  lemma {:induction false} OneStepTight(p: Policy, ws: Workers, t: Tenant, image: Image, w: Id, d: nat)
    requires Least(Scores(p, ws, t, image), w) && w in ws && ws[w].load != MaxLoad && d >= 1
    requires Tight(Scores(p, ws, t, image), d)
    ensures Tight(Scores(p, Dispatched(ws, w), t, image), d)
  {
    DispatchScores(p, ws, t, image, w);
  }

  /**
   * The scores of the free workers stay as close as they were, or within one, after every route of
   * the run, if and only if no counter is turned over or only one worker is free.
   */
  lemma {:induction false} RoutingSpreadIff(p: Policy, ws: Workers, t: Tenant, image: Image, picks: seq<Id>, d: nat)
    requires RoutesTo(p, ws, t, image, picks) && Inside(ws, picks)
    requires Tight(Scores(p, ws, t, image), d) && 1 <= d < 0xFFFF_FFFF
    ensures TightThroughout(p, ws, t, image, picks, d) <==> Wraps(ws, picks) == 0 || Alone(Scores(p, ws, t, image))
    decreases |picks|
  {
    if Alone(Scores(p, ws, t, image)) {
      AloneStays(p, ws, t, image, picks, d);
    } else if picks != [] {
      var w, next := picks[0], Dispatched(ws, picks[0]);
      assert forall i | 0 <= i < |picks[1..]| :: picks[1..][i] == picks[i + 1];
      if ws[w].load == MaxLoad {
        WrapTears(p, ws, t, image, w, d);
      } else {
        OneStepTight(p, ws, t, image, w, d);
        DispatchScores(p, ws, t, image, w);
        assert Scores(p, next, t, image).Keys == Scores(p, ws, t, image).Keys;
        RoutingSpreadIff(p, next, t, image, picks[1..], d);
      }
    }
  }

  /** Two free workers at the limit are such a state: one route, and the scores are 2^32 - 1 apart. */
  lemma {:induction false} LimitTears(p: Policy, t: Tenant, image: Image, a: Id, b: Id) returns (ws: Workers)
    requires a != b
    ensures RoutesTo(p, ws, t, image, [a]) && Inside(ws, [a]) && Tight(Scores(p, ws, t, image), 1)
    ensures Wraps(ws, [a]) == 1 && !TightThroughout(p, ws, t, image, [a], 1)
  {
    var full := WorkerState("", [image], 1, MaxLoad, [], 0);
    ws := map[a := full, b := full];
    var m := Scores(p, ws, t, image);
    assert forall id | id in m :: m[id] == MaxLoad;
    assert a in m && b in m && [a][1..] == [];
    WrapTears(p, ws, t, image, a, 1);
    assert Wraps(Dispatched(ws, a), []) == 0;
    RoutingSpreadIff(p, ws, t, image, [a], 1);
  }

  // ---- Even shares ----

  ghost predicate EquallyWarm(p: Policy, ws: Workers, t: Tenant, image: Image, base: int)
  {
    forall id | id in ws :: Free(ws[id]) && Offset(p, ws[id], t, image) == base
  }

  lemma {:induction false} SharesSoFar(p: Policy, ws: Workers, t: Tenant, image: Image, picks: seq<Id>, ids: seq<Id>,
                                       w: Id)
    requires RoutesTo(p, ws, t, image, picks) && Inside(ws, picks) && w in ws
    requires Distinct(ids) && (forall id :: id in ids <==> id in ws) && Wraps(ws, picks) == 0
    requires EquallyWarm(p, ws, t, image, Offset(p, ws[w], t, image)) && forall id | id in ws :: ws[id].load == 0
    ensures |ids| > 0 && w in Loads(AfterRoutes(ws, picks))
    ensures Loads(AfterRoutes(ws, picks))[w] in {|picks| / |ids|, Ceil(|picks|, |ids|)}
  {
    var m := Scores(p, ws, t, image);
    var base := Offset(p, ws[w], t, image);
    RoutesAreGreedy(p, ws, t, image, picks);
    assert m.Keys == ws.Keys;
    EvenSplit(ids, m, picks, base, w);
    LoadsFollow(ws, picks);
    Shifted(Loads(ws), m, picks, base, w);
  }

  lemma {:induction false} RoutesFront(p: Policy, ws: Workers, t: Tenant, image: Image, picks: seq<Id>, k: nat)
    requires RoutesTo(p, ws, t, image, picks) && k < |picks| && Inside(ws, picks)
    ensures Inside(ws, picks[..k]) && Inside(ws, picks[..k + 1])
    ensures RoutesTo(p, ws, t, image, picks[..k]) && RoutesTo(p, ws, t, image, picks[..k + 1])
    ensures Least(Scores(p, AfterRoutes(ws, picks[..k]), t, image), picks[k]) && picks[k] in AfterRoutes(ws, picks[..k])
    ensures
      var at := AfterRoutes(ws, picks[..k])[picks[k]].load;
      Wraps(ws, picks[..k + 1]) == Wraps(ws, picks[..k]) + if at == MaxLoad then 1 else 0
    decreases k
  {
    if k > 0 {
      assert forall i | 0 <= i < |picks[1..]| :: picks[1..][i] == picks[i + 1];
      RoutesFront(p, Dispatched(ws, picks[0]), t, image, picks[1..], k - 1);
      assert picks[..k][1..] == picks[1..][..k - 1] && picks[..k + 1][1..] == picks[1..][..k];
    } else {
      assert picks[..1][1..] == [];
    }
  }

  lemma {:induction false} WarmStays(p: Policy, ws: Workers, t: Tenant, image: Image, picks: seq<Id>, base: int)
    requires Inside(ws, picks) && EquallyWarm(p, ws, t, image, base)
    ensures AfterRoutes(ws, picks).Keys == ws.Keys && EquallyWarm(p, AfterRoutes(ws, picks), t, image, base)
    decreases |picks|
  {
    if picks != [] {
      var next := Dispatched(ws, picks[0]);
      assert next[picks[0]].vms == ws[picks[0]].vms && next[picks[0]].images == ws[picks[0]].images;
      assert EquallyWarm(p, next, t, image, base);
      assert forall i | 0 <= i < |picks[1..]| :: picks[1..][i] == picks[i + 1];
      WarmStays(p, next, t, image, picks[1..], base);
    }
  }

  /** With equal offsets the least score is a load of at most the average. */
  lemma {:induction false} LeastBelowAverage(p: Policy, ws: Workers, t: Tenant, image: Image, ids: seq<Id>, w: Id,
                                             base: int)
    requires EquallyWarm(p, ws, t, image, base) && Least(Scores(p, ws, t, image), w) && w in ws
    requires forall id :: id in ids <==> id in ws
    ensures |ids| * ws[w].load <= Total(ids, Loads(ws))
  {
    forall id | id in ws
      ensures ws[w].load <= ws[id].load
    {
      assert Scores(p, ws, t, image)[w] <= Scores(p, ws, t, image)[id];
    }
    TotalAtLeast(ids, Loads(ws), ws[w].load);
  }

  /** Equal shares bring no counter to its limit before they must. */
  lemma {:induction false} SharesHaveRoom(p: Policy, ws: Workers, t: Tenant, image: Image, picks: seq<Id>, ids: seq<Id>,
                                          base: int, k: nat)
    requires RoutesTo(p, ws, t, image, picks) && Inside(ws, picks) && k <= |picks|
    requires Distinct(ids) && (forall id :: id in ids <==> id in ws) && ids != [] && Ceil(|picks|, |ids|) <= MaxLoad
    requires EquallyWarm(p, ws, t, image, base) && forall id | id in ws :: ws[id].load == 0
    ensures Inside(ws, picks[..k]) && Wraps(ws, picks[..k]) == 0
    decreases k
  {
    if k > 0 {
      var j, front := k - 1, picks[..k - 1];
      SharesHaveRoom(p, ws, t, image, picks, ids, base, j);
      RoutesFront(p, ws, t, image, picks, j);
      WarmStays(p, ws, t, image, front, base);
      LeastBelowAverage(p, AfterRoutes(ws, front), t, image, ids, picks[j], base);
      RoutesCount(ws, front, ids);
      TotalFlat(ids, Loads(ws), 0);
      if AfterRoutes(ws, front)[picks[j]].load == MaxLoad {
        CeilAbove(|picks|, |ids|, MaxLoad);
        assert false;
      }
    }
  }

  /** Workers that start free, idle and equally warm share the jobs evenly, as long as the counters can say so. */
  lemma {:induction false} RoutingSplitsEvenly(p: Policy, ws: Workers, t: Tenant, image: Image, picks: seq<Id>,
                                               ids: seq<Id>, w: Id)
    requires RoutesTo(p, ws, t, image, picks) && w in ws
    requires Distinct(ids) && (forall id :: id in ids <==> id in ws)
    requires EquallyWarm(p, ws, t, image, Offset(p, ws[w], t, image)) && forall id | id in ws :: ws[id].load == 0
    requires |ids| > 0 && Ceil(|picks|, |ids|) <= MaxLoad
    ensures Inside(ws, picks)
    ensures w in Loads(AfterRoutes(ws, picks))
    ensures Loads(AfterRoutes(ws, picks))[w] in {|picks| / |ids|, Ceil(|picks|, |ids|)}
  {
    PicksInside(p, ws, t, image, picks);
    SharesHaveRoom(p, ws, t, image, picks, ids, Offset(p, ws[w], t, image), |picks|);
    TakeAll(picks);
    SharesSoFar(p, ws, t, image, picks, ids, w);
  }

  /** Loads and scores rise together. */
  lemma {:induction false} Shifted(a: map<Id, int>, b: map<Id, int>, picks: seq<Id>, base: int, w: Id)
    requires a.Keys == b.Keys && w in a && forall v | v in a :: b[v] == a[v] + base
    requires forall i | 0 <= i < |picks| :: picks[i] in a
    ensures After(b, picks)[w] == After(a, picks)[w] + base
    decreases |picks|
  {
    if picks != [] {
      Shifted(Bumped(a, picks[0]), Bumped(b, picks[0]), picks[1..], base, w);
    }
  }
}
