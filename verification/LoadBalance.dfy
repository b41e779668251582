/**
 * What greedy routing does to the load of a cluster: a job always goes to a worker whose score is
 * least, and that score then rises by one (internal/scheduler/scheduler.go:317-367).
 */
module LoadBalance {
  import opened Bytes

  type Id = string

  /** All values lie in a window of width `d` from `lo` up. */
  predicate Within(m: map<Id, int>, lo: int, d: nat)
  {
    forall w | w in m :: lo <= m[w] <= lo + d
  }

  predicate Least(m: map<Id, int>, w: Id)
  {
    w in m && forall v | v in m :: m[w] <= m[v]
  }

  function Bumped(m: map<Id, int>, w: Id): (r: map<Id, int>)
    requires w in m
  {
    m[w := m[w] + 1]
  }

  /** A run of picks, each of a worker that is least at its turn. */
  ghost predicate Greedy(m: map<Id, int>, picks: seq<Id>)
  {
    picks == [] || (Least(m, picks[0]) && Greedy(Bumped(m, picks[0]), picks[1..]))
  }

  function After(m: map<Id, int>, picks: seq<Id>): (r: map<Id, int>)
    requires forall i | 0 <= i < |picks| :: picks[i] in m
    ensures r.Keys == m.Keys
  {
    if picks == [] then m else After(Bumped(m, picks[0]), picks[1..])
  }

  lemma {:induction false} GreedyInside(m: map<Id, int>, picks: seq<Id>)
    requires Greedy(m, picks)
    ensures forall i | 0 <= i < |picks| :: picks[i] in m
    decreases |picks|
  {
    if picks != [] {
      GreedyInside(Bumped(m, picks[0]), picks[1..]);
      forall i | 0 <= i < |picks|
        ensures picks[i] in m
      {
        if i > 0 {
          assert picks[1..][i - 1] == picks[i];
        }
      }
    }
  }

  lemma {:induction false} StepStaysWithin(m: map<Id, int>, w: Id, lo: int, d: nat) returns (lo': int)
    requires Within(m, lo, d) && d >= 1 && Least(m, w)
    ensures Within(Bumped(m, w), lo', d)
  {
    if m[w] < lo + d {
      lo' := lo;
    } else {
      lo' := lo + d;
    }
  }

  /** The spread never grows beyond what it was, or one. */
  lemma {:induction false} SpreadKept(m: map<Id, int>, picks: seq<Id>, lo: int, d: nat) returns (lo': int)
    requires Within(m, lo, d) && d >= 1 && Greedy(m, picks)
    ensures (forall i | 0 <= i < |picks| :: picks[i] in m) && Within(After(m, picks), lo', d)
    decreases |picks|
  {
    GreedyInside(m, picks);
    if picks == [] {
      lo' := lo;
    } else {
      var next := StepStaysWithin(m, picks[0], lo, d);
      lo' := SpreadKept(Bumped(m, picks[0]), picks[1..], next, d);
    }
  }

  // ---- Totals ----

  function Total(ids: seq<Id>, m: map<Id, int>): (n: int)
    requires forall i | 0 <= i < |ids| :: ids[i] in m
  {
    if ids == [] then 0 else m[ids[0]] + Total(ids[1..], m)
  }

  predicate Distinct(ids: seq<Id>)
  {
    forall i, j | 0 <= i < j < |ids| :: ids[i] != ids[j]
  }

  lemma {:induction false} TotalSet(ids: seq<Id>, m: map<Id, int>, w: Id, v: int)
    requires (forall i | 0 <= i < |ids| :: ids[i] in m) && Distinct(ids) && w in m
    ensures Total(ids, m[w := v]) == Total(ids, m) + if w in ids then v - m[w] else 0
    decreases |ids|
  {
    if ids != [] {
      TotalSet(ids[1..], m, w, v);
    }
  }

  /** Every job is counted once. */
  lemma {:induction false} TotalCounts(ids: seq<Id>, m: map<Id, int>, picks: seq<Id>)
    requires Distinct(ids) && (forall w :: w in ids <==> w in m) && forall i | 0 <= i < |picks| :: picks[i] in m
    ensures Total(ids, After(m, picks)) == Total(ids, m) + |picks|
    decreases |picks|
  {
    if picks != [] {
      assert picks[0] in ids;
      TotalSet(ids, m, picks[0], m[picks[0]] + 1);
      TotalCounts(ids, Bumped(m, picks[0]), picks[1..]);
    }
  }

  // ---- Equal workers ----

  lemma {:induction false} TotalBounds(ids: seq<Id>, m: map<Id, int>, lo: int)
    requires (forall i | 0 <= i < |ids| :: ids[i] in m) && Within(m, lo, 1)
    ensures |ids| * lo <= Total(ids, m) <= |ids| * lo + |ids|
    ensures (exists i | 0 <= i < |ids| :: m[ids[i]] == lo) ==> Total(ids, m) < |ids| * lo + |ids|
    ensures (exists i | 0 <= i < |ids| :: m[ids[i]] == lo + 1) ==> Total(ids, m) > |ids| * lo
    decreases |ids|
  {
    if ids != [] {
      TotalBounds(ids[1..], m, lo);
      assert |ids| * lo == lo + |ids[1..]| * lo;
      forall i | 0 <= i < |ids|
        ensures i > 0 ==> m[ids[1..][i - 1]] == m[ids[i]]
      {
      }
    }
  }

  lemma {:induction false} Quotient(n: nat, k: nat, lo: int)
    requires k > 0 && k * lo <= n < k * lo + k
    ensures n / k == lo
  {
    var q, r := n / k, n % k;
    assert n == k * q + r;
    assert k * (q + 1) == k * q + k && k * (lo + 1) == k * lo + k;
    FactorLess(k, q, lo + 1);
    FactorLess(k, lo, q + 1);
  }

  lemma {:induction false} FactorLess(k: nat, a: int, b: int)
    requires k * a < k * b
    ensures a < b
  {
    if b <= a {
      TimesMonotone(k, b, a);
    }
  }

  lemma {:induction false} TimesMonotone(k: nat, a: int, b: int)
    requires a <= b
    ensures k * a <= k * b
  {
  }

  lemma {:induction false} CeilIs(n: nat, k: nat, lo: int)
    requires k > 0 && k * lo < n <= k * lo + k
    ensures Ceil(n, k) == lo + 1
  {
    assert k * (lo + 1) == k * lo + k;
    Quotient(n + k - 1, k, lo + 1);
  }

  lemma {:induction false} CeilAbove(n: nat, k: nat, v: nat)
    requires k > 0 && k * v < n
    ensures Ceil(n, k) > v
  {
    var q, r := (n + k - 1) / k, (n + k - 1) % k;
    assert n + k - 1 == k * q + r;
    FactorLess(k, v, q);
  }

  lemma {:induction false} TotalAtLeast(ids: seq<Id>, m: map<Id, int>, v: int)
    requires (forall i | 0 <= i < |ids| :: ids[i] in m) && forall w | w in m :: v <= m[w]
    ensures |ids| * v <= Total(ids, m)
    decreases |ids|
  {
    if ids != [] {
      TotalAtLeast(ids[1..], m, v);
      assert |ids| * v == v + |ids[1..]| * v;
    }
  }

  /** After `n` jobs, workers that started equal and idle hold n / k jobs each, rounded down or up. */
  lemma {:induction false} EvenSplit(ids: seq<Id>, m: map<Id, int>, picks: seq<Id>, base: int, w: Id)
    requires Distinct(ids) && (forall v :: v in ids <==> v in m) && (forall v | v in m :: m[v] == base)
    requires Greedy(m, picks) && w in m
    ensures (forall i | 0 <= i < |picks| :: picks[i] in m) && |ids| > 0
    ensures After(m, picks)[w] - base in {|picks| / |ids|, Ceil(|picks|, |ids|)}
  {
    assert w in ids;
    GreedyInside(m, picks);
    var lo := SpreadKept(m, picks, base, 1);
    var r := After(m, picks);
    TotalCounts(ids, m, picks);
    TotalFlat(ids, m, base);
    TotalBounds(ids, r, lo);
    var i :| 0 <= i < |ids| && ids[i] == w;
    assert r[ids[i]] == lo || r[ids[i]] == lo + 1;
    assert |ids| * (lo - base) == |ids| * lo - |ids| * base;
    if r[w] == lo {
      Quotient(|picks|, |ids|, lo - base);
    } else {
      CeilIs(|picks|, |ids|, lo - base);
    }
  }

  lemma {:induction false} TotalFlat(ids: seq<Id>, m: map<Id, int>, base: int)
    requires (forall i | 0 <= i < |ids| :: ids[i] in m) && forall v | v in m :: m[v] == base
    ensures Total(ids, m) == |ids| * base
    decreases |ids|
  {
    if ids != [] {
      TotalFlat(ids[1..], m, base);
      assert |ids| * base == base + |ids[1..]| * base;
    }
  }
}
