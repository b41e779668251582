/** The order of strings by their units, and sorting by a string key, as sort.Slice and slices.SortFunc use it. */
module Sorting {
  /** Bytes or character codes. */
  type Units = seq<int>

  predicate Less(a: Units, b: Units)
  {
    b != [] && (a == [] || a[0] < b[0] || (a[0] == b[0] && Less(a[1..], b[1..])))
  }

  predicate Leq(a: Units, b: Units)
  {
    !Less(b, a)
  }

  lemma {:induction false} LessIrreflexive(a: Units)
    ensures !Less(a, a)
  {
    if a != [] {
      LessIrreflexive(a[1..]);
    }
  }

  lemma {:induction false} LessTrans(a: Units, b: Units, c: Units)
    requires Less(a, b) && Less(b, c)
    ensures Less(a, c)
  {
    if a != [] && a[0] == b[0] && b[0] == c[0] {
      LessTrans(a[1..], b[1..], c[1..]);
    }
  }

  lemma {:induction false} LessTotal(a: Units, b: Units)
    ensures Less(a, b) || Less(b, a) || a == b
  {
    if a != [] && b != [] && a[0] == b[0] {
      LessTotal(a[1..], b[1..]);
      assert a == [a[0]] + a[1..] && b == [b[0]] + b[1..];
    }
  }

  lemma {:induction false} LeqTrans(a: Units, b: Units, c: Units)
    requires Leq(a, b) && Leq(b, c)
    ensures Leq(a, c)
  {
    if Less(c, a) {
      LessTotal(a, b);
      if a != b {
        LessTrans(c, a, b);
      }
    }
  }

  lemma {:induction false} LessIsLeq(a: Units, b: Units)
    requires Less(a, b)
    ensures Leq(a, b)
  {
    if Less(b, a) {
      LessTrans(a, b, a);
      LessIrreflexive(a);
    }
  }

  /** `a` ends, or has the smaller unit, at the first place where the two differ. */
  predicate PartsAt(a: Units, b: Units, k: nat)
  {
    k <= |a| && k < |b| && a[..k] == b[..k] && (k == |a| || a[k] < b[k])
  }

  lemma {:induction false} LessIff(a: Units, b: Units)
    ensures Less(a, b) <==> exists k: nat :: PartsAt(a, b, k)
    decreases |a|
  {
    if Less(a, b) {
      var k := LessParts(a, b);
    }
    if k: nat :| PartsAt(a, b, k) {
      PartsLess(a, b, k);
    }
  }

  lemma {:induction false} LessParts(a: Units, b: Units) returns (k: nat)
    requires Less(a, b)
    ensures PartsAt(a, b, k)
    decreases |a|
  {
    if a == [] || a[0] < b[0] {
      k := 0;
    } else {
      var j := LessParts(a[1..], b[1..]);
      k := j + 1;
      assert a[..k] == [a[0]] + a[1..][..j] && b[..k] == [b[0]] + b[1..][..j];
    }
  }

  lemma {:induction false} PartsLess(a: Units, b: Units, k: nat)
    requires PartsAt(a, b, k)
    ensures Less(a, b)
    decreases k
  {
    if k > 0 {
      assert a[0] == a[..k][0] == b[..k][0] == b[0];
      assert a[1..][..k - 1] == a[..k][1..] && b[1..][..k - 1] == b[..k][1..];
      PartsLess(a[1..], b[1..], k - 1);
    }
  }

  predicate Sorted<T>(s: seq<T>, key: T -> Units)
  {
    forall i, j | 0 <= i < j < |s| :: Leq(key(s[i]), key(s[j]))
  }

  predicate StrictlySorted<T>(s: seq<T>, key: T -> Units)
  {
    forall i, j | 0 <= i < j < |s| :: Less(key(s[i]), key(s[j]))
  }

  function Insert<T>(x: T, s: seq<T>, key: T -> Units): (r: seq<T>)
    ensures multiset(r) == multiset(s) + multiset{x}
  {
    if s == [] || Leq(key(x), key(s[0])) then [x] + s
    else
      assert s == [s[0]] + s[1..];
      [s[0]] + Insert(x, s[1..], key)
  }

  function Sort<T>(s: seq<T>, key: T -> Units): (r: seq<T>)
    ensures multiset(r) == multiset(s)
  {
    if s == [] then []
    else
      assert s == [s[0]] + s[1..];
      Insert(s[0], Sort(s[1..], key), key)
  }

  lemma {:induction false} InMultiset<T>(s: seq<T>, t: seq<T>)
    requires multiset(s) == multiset(t)
    ensures |s| == |t|
    ensures forall x :: x in s <==> x in t
  {
    assert |multiset(s)| == |s|;
    forall x
      ensures x in s <==> x in t
    {
      assert x in multiset(s) <==> x in multiset(t);
    }
  }

  lemma {:induction false} InsertSorts<T>(x: T, s: seq<T>, key: T -> Units)
    requires Sorted(s, key)
    ensures Sorted(Insert(x, s, key), key)
  {
    if s == [] {
    } else if Leq(key(x), key(s[0])) {
      forall j | 0 <= j < |s|
        ensures Leq(key(x), key(s[j]))
      {
        if j > 0 {
          LeqTrans(key(x), key(s[0]), key(s[j]));
        }
      }
    } else {
      LessIsLeq(key(s[0]), key(x));
      var r := Insert(x, s[1..], key);
      InsertSorts(x, s[1..], key);
      forall y | y in r
        ensures Leq(key(s[0]), key(y))
      {
        assert y in multiset(r);
        assert y == x || y in multiset(s[1..]);
      }
    }
  }

  lemma {:induction false} SortSorts<T>(s: seq<T>, key: T -> Units)
    ensures Sorted(Sort(s, key), key)
  {
    if s != [] {
      SortSorts(s[1..], key);
      InsertSorts(s[0], Sort(s[1..], key), key);
    }
  }

  lemma {:induction false} SortOfSorted<T>(s: seq<T>, key: T -> Units)
    requires Sorted(s, key)
    ensures Sort(s, key) == s
  {
    if s != [] {
      SortOfSorted(s[1..], key);
      if |s| > 1 {
        assert Leq(key(s[0]), key(s[1]));
      }
      assert s == [s[0]] + s[1..];
    }
  }

  ghost predicate DistinctKeys<T>(s: seq<T>, key: T -> Units)
  {
    forall i, j | 0 <= i < j < |s| :: key(s[i]) != key(s[j])
  }

  lemma {:induction false} SortedDistinctIsStrict<T>(s: seq<T>, key: T -> Units)
    requires Sorted(s, key) && DistinctKeys(s, key)
    ensures StrictlySorted(s, key)
  {
    forall i, j | 0 <= i < j < |s|
      ensures Less(key(s[i]), key(s[j]))
    {
      LessTotal(key(s[i]), key(s[j]));
    }
  }

  /** Only one strictly sorted arrangement of a given set of elements exists. */
  lemma {:induction false} StrictUnique<T>(s: seq<T>, t: seq<T>, key: T -> Units)
    requires StrictlySorted(s, key) && StrictlySorted(t, key)
    requires forall x :: x in s <==> x in t
    ensures s == t
  {
    assert forall i | 0 <= i < |t| :: t[i] in s;
    assert forall i | 0 <= i < |s| :: s[i] in t;
    if s != [] {
      HeadsAgree(s, t, key);
      forall x
        ensures x in s[1..] <==> x in t[1..]
      {
        TailMember(s, key, x);
        TailMember(t, key, x);
      }
      StrictUnique(s[1..], t[1..], key);
      assert s == [s[0]] + s[1..] && t == [t[0]] + t[1..];
    }
  }

  lemma {:induction false} HeadsAgree<T>(s: seq<T>, t: seq<T>, key: T -> Units)
    requires StrictlySorted(s, key) && StrictlySorted(t, key)
    requires s != [] && t != [] && s[0] in t && t[0] in s
    ensures s[0] == t[0]
  {
    var i :| 0 <= i < |t| && t[i] == s[0];
    var j :| 0 <= j < |s| && s[j] == t[0];
    if i > 0 && j > 0 {
      LessTrans(key(s[0]), key(t[0]), key(s[0]));
      LessIrreflexive(key(s[0]));
    }
  }

  lemma {:induction false} TailMember<T>(s: seq<T>, key: T -> Units, x: T)
    requires StrictlySorted(s, key) && s != []
    ensures x in s[1..] <==> x in s && x != s[0]
  {
    LessIrreflexive(key(s[0]));
    if x in s && x != s[0] {
      var i :| 0 <= i < |s| && s[i] == x;
      assert s[1..][i - 1] == x;
    }
  }

  // ---- Repetition ----

  lemma {:induction false} DistinctCounts<T>(s: seq<T>, x: T)
    requires forall i, j | 0 <= i < j < |s| :: s[i] != s[j]
    ensures multiset(s)[x] <= 1
    decreases |s|
  {
    if s != [] {
      DistinctCounts(s[1..], x);
      assert s == [s[0]] + s[1..] && s[0] !in s[1..];
      assert multiset(s) == multiset{s[0]} + multiset(s[1..]);
    }
  }

  lemma {:induction false} RepeatCounts<T>(s: seq<T>, i: nat, j: nat)
    requires i < j < |s| && s[i] == s[j]
    ensures multiset(s)[s[i]] >= 2
  {
    assert s == s[..j] + s[j..];
    assert multiset(s) == multiset(s[..j]) + multiset(s[j..]);
    assert s[..j][i] == s[i] && s[j..][0] == s[i];
    assert s[i] in multiset(s[..j]) && s[i] in multiset(s[j..]);
  }

  /** Rearranging keeps elements distinct. */
  lemma {:induction false} DistinctKept<T>(a: seq<T>, b: seq<T>)
    requires multiset(a) == multiset(b)
    requires forall i, j | 0 <= i < j < |a| :: a[i] != a[j]
    ensures forall i, j | 0 <= i < j < |b| :: b[i] != b[j]
  {
    forall i, j | 0 <= i < j < |b|
      ensures b[i] != b[j]
    {
      DistinctCounts(a, b[i]);
      if b[i] == b[j] {
        RepeatCounts(b, i, j);
      }
    }
  }

  lemma {:induction false} DistinctSize<T>(s: seq<T>)
    requires forall i, j | 0 <= i < j < |s| :: s[i] != s[j]
    ensures |set x | x in s| == |s|
    decreases |s|
  {
    if s != [] {
      var n := |s| - 1;
      DistinctSize(s[..n]);
      assert s == s[..n] + [s[n]];
      assert (set x | x in s) == (set x | x in s[..n]) + {s[n]};
    }
  }
}
