/**
 * scanAssemblyClosure (internal/compiler/manifest.go:395-446): the worklist that finds every file
 * an assembler source needs through .incbin and .include, cycles included.
 */
module AssemblyClosure {
  import opened Bytes

  type Path = Bytes

  /** The directives of one file, spelled as in the source. */
  datatype Includes = Includes(incbin: seq<Path>, source: seq<Path>)

  /** The readable files by resolved path, and how a spelled path resolves against the working directory. */
  datatype Tree = Tree(files: map<Path, Includes>, resolve: Path -> Path)

  function Resolved(t: Tree, ps: seq<Path>): (r: set<Path>)
  {
    set i | 0 <= i < |ps| :: t.resolve(ps[i])
  }

  /** What `f` pulls in as further assembler source. */
  function Edges(t: Tree, f: Path): (r: set<Path>)
  {
    if f in t.files then Resolved(t, t.files[f].source) else {}
  }

  /** Everything `f` needs. */
  function Needs(t: Tree, f: Path): (r: set<Path>)
  {
    if f in t.files then Resolved(t, t.files[f].incbin) + Resolved(t, t.files[f].source) else {}
  }

  /** A directive is followed from a readable file only, to what its spelling resolves to. */
  lemma {:induction false} DirectivesAre(t: Tree, f: Path, q: Path)
    ensures q in Edges(t, f) <==> f in t.files && exists i | 0 <= i < |t.files[f].source| ::
              t.resolve(t.files[f].source[i]) == q
    ensures q in Needs(t, f) <==> q in Edges(t, f) || (f in t.files && exists i | 0 <= i < |t.files[f].incbin| ::
              t.resolve(t.files[f].incbin[i]) == q)
  {
  }

  ghost predicate Chain(t: Tree, seeds: set<Path>, c: seq<Path>)
  {
    c != [] && c[0] in seeds && forall i | 0 <= i < |c| - 1 :: c[i + 1] in Edges(t, c[i])
  }

  /** Some chain of .include directives leads from a seed to `f`. */
  ghost predicate Reachable(t: Tree, seeds: set<Path>, f: Path)
  {
    exists c :: Chain(t, seeds, c) && c[|c| - 1] == f
  }

  lemma {:induction false} SeedReachable(t: Tree, seeds: set<Path>, f: Path)
    requires f in seeds
    ensures Reachable(t, seeds, f)
  {
    assert Chain(t, seeds, [f]);
  }

  lemma {:induction false} EdgeReachable(t: Tree, seeds: set<Path>, f: Path, g: Path)
    requires Reachable(t, seeds, f) && g in Edges(t, f)
    ensures Reachable(t, seeds, g)
  {
    var c :| Chain(t, seeds, c) && c[|c| - 1] == f;
    var d := c + [g];
    forall i | 0 <= i < |d| - 1
      ensures d[i + 1] in Edges(t, d[i])
    {
      if i < |c| - 1 {
        assert c[i + 1] in Edges(t, c[i]);
      }
    }
    assert Chain(t, seeds, d) && d[|d| - 1] == g;
  }

  /** A set that holds the seeds and is closed under .include holds everything reachable. */
  lemma {:induction false} ClosedHasAll(t: Tree, seeds: set<Path>, s: set<Path>, f: Path)
    requires seeds <= s && (forall g | g in s :: Edges(t, g) <= s) && Reachable(t, seeds, f)
    ensures f in s
  {
    var c :| Chain(t, seeds, c) && c[|c| - 1] == f;
    ChainInside(t, seeds, s, c, |c| - 1);
  }

  lemma {:induction false} ChainInside(t: Tree, seeds: set<Path>, s: set<Path>, c: seq<Path>, i: nat)
    requires seeds <= s && (forall g | g in s :: Edges(t, g) <= s) && Chain(t, seeds, c) && i < |c|
    ensures c[i] in s
  {
    if i > 0 {
      ChainInside(t, seeds, s, c, i - 1);
      assert c[i - 1 + 1] in Edges(t, c[i - 1]);
    }
  }

  // ---- The walk ----

  predicate DistinctResolved(t: Tree, out: seq<Path>)
  {
    forall i, j | 0 <= i < j < |out| :: t.resolve(out[i]) != t.resolve(out[j])
  }

  /** `emitted` is what `out` resolves to, without duplicates. */
  ghost predicate Listed(t: Tree, emitted: set<Path>, out: seq<Path>)
  {
    DistinctResolved(t, out) && emitted == Resolved(t, out)
  }

  /** Every file whose directives are already in. */
  ghost predicate Walked(t: Tree, seeds: set<Path>, done: set<Path>, queue: seq<Path>, scanned: set<Path>,
                         emitted: set<Path>)
  {
    && seeds <= scanned
    && (forall f :: f in scanned <==> f in done || f in queue)
    && (forall f | f in queue :: f !in done)
    && (forall i, j | 0 <= i < j < |queue| :: queue[i] != queue[j])
    && (forall f | f in scanned :: Reachable(t, seeds, f))
    && (forall f | f in done :: Edges(t, f) <= scanned)
    && (forall q :: q in emitted <==> exists f | f in done :: q in Needs(t, f))
  }

  method Emit(t: Tree, p: Path, emitted: set<Path>, out: seq<Path>) returns (emitted': set<Path>, out': seq<Path>)
    requires Listed(t, emitted, out)
    ensures Listed(t, emitted', out') && emitted' == emitted + {t.resolve(p)}
    ensures out <= out' && forall x | x in out' :: x in out || x == p
  {
    emitted', out' := emitted, out;
    if t.resolve(p) in emitted {
      return;
    }
    emitted' := emitted + {t.resolve(p)};
    out' := out + [p];
    assert forall i | 0 <= i < |out| :: t.resolve(out[i]) in emitted;
    ResolvedSnoc(t, out, p);
  }

  lemma {:induction false} ResolvedSnoc(t: Tree, ps: seq<Path>, p: Path)
    ensures Resolved(t, ps + [p]) == Resolved(t, ps) + {t.resolve(p)}
  {
    var all := ps + [p];
    forall q | q in Resolved(t, ps) + {t.resolve(p)}
      ensures q in Resolved(t, all)
    {
      if q == t.resolve(p) {
        assert all[|ps|] == p;
      } else {
        var i :| 0 <= i < |ps| && t.resolve(ps[i]) == q;
        assert all[i] == ps[i];
      }
    }
  }

  /** The loop over a file's .incbin directives. */
  method TakeIncbins(t: Tree, ps: seq<Path>, emitted: set<Path>, out: seq<Path>)
                     returns (emitted': set<Path>, out': seq<Path>)
    requires Listed(t, emitted, out)
    ensures Listed(t, emitted', out') && emitted' == emitted + Resolved(t, ps)
    ensures out <= out' && forall x | x in out' :: x in out || x in ps
  {
    emitted', out' := emitted, out;
    for i := 0 to |ps|
      invariant Listed(t, emitted', out') && emitted' == emitted + Resolved(t, ps[..i])
      invariant out <= out' && forall x | x in out' :: x in out || x in ps
    {
      emitted', out' := Emit(t, ps[i], emitted', out');
      TakeNext(ps, i);
      ResolvedSnoc(t, ps[..i], ps[i]);
    }
    TakeAll(ps);
  }

  method Enqueue(f: Path, scanned: set<Path>, queue: seq<Path>) returns (scanned': set<Path>, queue': seq<Path>)
    ensures scanned' == scanned + {f}
    ensures queue' == if f in scanned then queue else queue + [f]
  {
    scanned', queue' := scanned, queue;
    if f in scanned {
      return;
    }
    scanned' := scanned + {f};
    queue' := queue + [f];
  }

  /** The queue took up exactly what was not scanned before. */
  predicate Grown(scanned: set<Path>, queue: seq<Path>, more: set<Path>, scanned': set<Path>, queue': seq<Path>)
  {
    && scanned' == scanned + more && queue <= queue'
    && (forall f | f in queue' :: f in queue || (f in more && f !in scanned))
    && (forall f | f in more :: f in scanned || f in queue')
    && (forall i, j | |queue| <= i < j < |queue'| :: queue'[i] != queue'[j])
    && (forall i | |queue| <= i < |queue'| :: queue'[i] in more && queue'[i] !in scanned)
  }

  /** The loop over a file's .include directives: list and walk. */
  method TakeIncludes(t: Tree, ps: seq<Path>, emitted: set<Path>, out: seq<Path>, scanned: set<Path>, queue: seq<Path>)
    returns (emitted': set<Path>, out': seq<Path>, scanned': set<Path>, queue': seq<Path>)
    requires Listed(t, emitted, out)
    ensures Listed(t, emitted', out') && emitted' == emitted + Resolved(t, ps)
    ensures out <= out' && forall x | x in out' :: x in out || x in ps
    ensures Grown(scanned, queue, Resolved(t, ps), scanned', queue')
  {
    emitted', out', scanned', queue' := emitted, out, scanned, queue;
    for i := 0 to |ps|
      invariant Listed(t, emitted', out') && emitted' == emitted + Resolved(t, ps[..i])
      invariant out <= out' && forall x | x in out' :: x in out || x in ps
      invariant Grown(scanned, queue, Resolved(t, ps[..i]), scanned', queue')
    {
      emitted', out' := Emit(t, ps[i], emitted', out');
      TakeNext(ps, i);
      ResolvedSnoc(t, ps[..i], ps[i]);
      ghost var s, q := scanned', queue';
      scanned', queue' := Enqueue(t.resolve(ps[i]), scanned', queue');
      GrownStep(scanned, queue, Resolved(t, ps[..i]), s, q, t.resolve(ps[i]));
    }
    TakeAll(ps);
  }

  lemma {:induction false} GrownStep(scanned: set<Path>, queue: seq<Path>, more: set<Path>, s: set<Path>,
                                     q: seq<Path>, f: Path)
    requires Grown(scanned, queue, more, s, q)
    ensures Grown(scanned, queue, more + {f}, s + {f}, if f in s then q else q + [f])
  {
    if f !in s {
      var all := q + [f];
      forall i, j | |queue| <= i < j < |all|
        ensures all[i] != all[j]
      {
        assert all[i] == q[i];
      }
    }
  }

  /** Everything the walk can ever meet. */
  function Universe(t: Tree, seeds: set<Path>): (u: set<Path>)
  {
    seeds + set f, i | f in t.files && 0 <= i < |t.files[f].source| :: t.resolve(t.files[f].source[i])
  }

  lemma {:induction false} EdgesInUniverse(t: Tree, seeds: set<Path>, f: Path)
    ensures Edges(t, f) <= Universe(t, seeds)
  {
  }

  /** After `cur` has been taken off the queue and read. */
  lemma {:induction false} WalkedStep(t: Tree, seeds: set<Path>, done: set<Path>, queue: seq<Path>,
                                      scanned: set<Path>, emitted: set<Path>,
                                      scanned': set<Path>, queue': seq<Path>, emitted': set<Path>)
    requires queue != [] && Walked(t, seeds, done, queue, scanned, emitted)
    requires Grown(scanned, queue[1..], Edges(t, queue[0]), scanned', queue')
    requires emitted' == emitted + Needs(t, queue[0])
    ensures Walked(t, seeds, done + {queue[0]}, queue', scanned', emitted')
  {
    var cur := queue[0];
    assert cur in queue;
    forall f | f in scanned'
      ensures Reachable(t, seeds, f)
    {
      if f in Edges(t, cur) {
        EdgeReachable(t, seeds, cur, f);
      }
    }
    HeadTail(queue);
    forall i, j | 0 <= i < j < |queue'|
      ensures queue'[i] != queue'[j]
    {
      var n := |queue[1..]|;
      if j < n {
        assert queue'[i] == queue[i + 1] && queue'[j] == queue[j + 1];
      } else if i < n {
        assert queue'[i] == queue[i + 1];
        assert queue[i + 1] in queue;
      }
    }
    forall f | f in queue'
      ensures f !in done + {cur}
    {
      if f in queue[1..] {
        var i :| 0 <= i < |queue[1..]| && queue[1..][i] == f;
        assert queue[i + 1] == f && f in queue;
      }
    }
    forall q | q in Needs(t, cur)
      ensures exists f | f in done + {cur} :: q in Needs(t, f)
    {
      assert cur in done + {cur};
    }
  }

  /** One file read: its directives listed, its .include targets put on the queue. */
  method ReadOne(t: Tree, cur: Path, emitted: set<Path>, out: seq<Path>, scanned: set<Path>, queue: seq<Path>)
    returns (emitted': set<Path>, out': seq<Path>, scanned': set<Path>, queue': seq<Path>)
    requires Listed(t, emitted, out)
    ensures Listed(t, emitted', out') && emitted' == emitted + Needs(t, cur)
    ensures Grown(scanned, queue, Edges(t, cur), scanned', queue')
    ensures forall x | x in out' :: x in out || (cur in t.files
              && (x in t.files[cur].incbin || x in t.files[cur].source))
  {
    emitted', out', scanned', queue' := emitted, out, scanned, queue;
    if cur !in t.files {
      return;
    }
    var incs := t.files[cur];
    emitted', out' := TakeIncbins(t, incs.incbin, emitted', out');
    emitted', out', scanned', queue' := TakeIncludes(t, incs.source, emitted', out', scanned', queue');
  }

  method Seed(t: Tree, root: Path, cppDeps: seq<Path>) returns (scanned: set<Path>, queue: seq<Path>)
    ensures Walked(t, {root} + Resolved(t, cppDeps), {}, queue, scanned, {})
    ensures scanned == {root} + Resolved(t, cppDeps)
  {
    scanned, queue := {root}, [root];
    for i := 0 to |cppDeps|
      invariant scanned == {root} + Resolved(t, cppDeps[..i])
      invariant forall f :: f in scanned <==> f in queue
      invariant forall i, j | 0 <= i < j < |queue| :: queue[i] != queue[j]
    {
      TakeNext(cppDeps, i);
      ResolvedSnoc(t, cppDeps[..i], cppDeps[i]);
      scanned, queue := Enqueue(t.resolve(cppDeps[i]), scanned, queue);
    }
    TakeAll(cppDeps);
    forall f | f in scanned
      ensures Reachable(t, {root} + Resolved(t, cppDeps), f)
    {
      SeedReachable(t, {root} + Resolved(t, cppDeps), f);
    }
  }

  /** Each listed path is spelled as some reachable file spells it. */
  ghost predicate Spelled(t: Tree, seeds: set<Path>, out: seq<Path>)
  {
    forall x | x in out ::
      exists f :: Reachable(t, seeds, f) && f in t.files && (x in t.files[f].incbin || x in t.files[f].source)
  }

  lemma {:induction false} SpelledStep(t: Tree, seeds: set<Path>, cur: Path, out: seq<Path>, out': seq<Path>)
    requires Spelled(t, seeds, out) && Reachable(t, seeds, cur)
    requires forall x | x in out' :: x in out || (cur in t.files
               && (x in t.files[cur].incbin || x in t.files[cur].source))
    ensures Spelled(t, seeds, out')
  {
  }

  lemma {:induction false} Shrinks(u: set<Path>, done: set<Path>, cur: Path)
    requires cur in u && cur !in done
    ensures |u - (done + {cur})| < |u - done|
  {
    assert u - done == u - (done + {cur}) + {cur};
  }

  /**
   * The result lists, once each, exactly the targets of the directives in files reachable from the
   * root and the preprocessor's dependencies, whether or not the includes form cycles.
   */
  method ScanAssemblyClosure(t: Tree, root: Path, cppDeps: seq<Path>) returns (out: seq<Path>)
    ensures DistinctResolved(t, out)
    ensures Spelled(t, {root} + Resolved(t, cppDeps), out)
    ensures forall q :: q in Resolved(t, out) <==>
              exists f :: Reachable(t, {root} + Resolved(t, cppDeps), f) && q in Needs(t, f)
  {
    ghost var seeds := {root} + Resolved(t, cppDeps);
    var scanned, queue := Seed(t, root, cppDeps);
    var emitted: set<Path> := {};
    out := [];
    ghost var done: set<Path> := {};
    while |queue| > 0
      invariant Walked(t, seeds, done, queue, scanned, emitted)
      invariant Listed(t, emitted, out) && Spelled(t, seeds, out)
      invariant scanned <= Universe(t, seeds) && done <= scanned
      decreases |Universe(t, seeds) - done|
    {
      var cur := queue[0];
      assert cur in queue;
      ghost var e, s, q, o := emitted, scanned, queue, out;
      emitted, out, scanned, queue := ReadOne(t, cur, emitted, out, scanned, queue[1..]);
      WalkedStep(t, seeds, done, q, s, e, scanned, queue, emitted);
      SpelledStep(t, seeds, cur, o, out);
      EdgesInUniverse(t, seeds, cur);
      Shrinks(Universe(t, seeds), done, cur);
      done := done + {cur};
    }
    AllFound(t, seeds, done, scanned, emitted);
  }

  lemma {:induction false} AllFound(t: Tree, seeds: set<Path>, done: set<Path>, scanned: set<Path>, emitted: set<Path>)
    requires Walked(t, seeds, done, [], scanned, emitted)
    ensures forall q :: q in emitted <==> exists f :: Reachable(t, seeds, f) && q in Needs(t, f)
  {
    assert done == scanned;
    forall q
      ensures q in emitted <==> exists f :: Reachable(t, seeds, f) && q in Needs(t, f)
    {
      if f :| Reachable(t, seeds, f) && q in Needs(t, f) {
        ClosedHasAll(t, seeds, scanned, f);
      }
    }
  }

  // ---- All inputs ----

  lemma {:induction false} ResolvedConcat(t: Tree, a: seq<Path>, b: seq<Path>)
    ensures Resolved(t, a + b) == Resolved(t, a) + Resolved(t, b)
  {
    var all := a + b;
    forall q | q in Resolved(t, a) + Resolved(t, b)
      ensures q in Resolved(t, all)
    {
      if i :| 0 <= i < |a| && t.resolve(a[i]) == q {
        assert t.resolve(all[i]) == q;
      } else {
        var j :| 0 <= j < |b| && t.resolve(b[j]) == q;
        assert t.resolve(all[|a| + j]) == q;
      }
    }
  }

  lemma {:induction false} MoreSeeds(t: Tree, a: set<Path>, b: set<Path>, f: Path)
    requires a <= b && Reachable(t, a, f)
    ensures Reachable(t, b, f)
  {
    var c :| Chain(t, a, c) && c[|c| - 1] == f;
    assert Chain(t, b, c);
  }

  /** Everything that assembling the input needs is among `deps`. */
  ghost predicate Provides(t: Tree, input: Path, found: seq<Path>, deps: seq<Path>)
  {
    forall f | Reachable(t, {t.resolve(input)} + Resolved(t, found), f) :: Needs(t, f) <= Resolved(t, deps)
  }

  /** Some chain of directives of either kind leads from a seed to `f`. */
  ghost predicate Mentioned(t: Tree, seeds: set<Path>, f: Path)
  {
    exists c: seq<Path> :: Links(t, seeds, c) && c[|c| - 1] == f
  }

  ghost predicate Links(t: Tree, seeds: set<Path>, c: seq<Path>)
  {
    c != [] && c[0] in seeds && forall i | 0 <= i < |c| - 1 :: c[i + 1] in Needs(t, c[i])
  }

  lemma {:induction false} MentionedFurther(t: Tree, seeds: set<Path>, mid: set<Path>, c: seq<Path>, q: Path)
    requires Chain(t, mid, c) && (forall m | m in mid :: Mentioned(t, seeds, m)) && q in Needs(t, c[|c| - 1])
    ensures Mentioned(t, seeds, q)
    decreases |c|
  {
    if |c| == 1 {
      var l :| Links(t, seeds, l) && l[|l| - 1] == c[0];
      LinkOn(t, seeds, l, q);
    } else {
      var n := |c| - 1;
      assert Chain(t, mid, c[..n]) && c[n] in Edges(t, c[n - 1]) && c[..n][n - 1] == c[n - 1];
      assert c[n] in Needs(t, c[n - 1]);
      MentionedFurther(t, seeds, mid, c[..n], c[n]);
      var l :| Links(t, seeds, l) && l[|l| - 1] == c[n];
      LinkOn(t, seeds, l, q);
    }
  }

  lemma {:induction false} LinkOn(t: Tree, seeds: set<Path>, l: seq<Path>, q: Path)
    requires Links(t, seeds, l) && q in Needs(t, l[|l| - 1])
    ensures Mentioned(t, seeds, q)
  {
    var d := l + [q];
    forall i | 0 <= i < |d| - 1
      ensures d[i + 1] in Needs(t, d[i])
    {
      if i < |l| - 1 {
        assert l[i + 1] in Needs(t, l[i]);
      }
    }
    assert Links(t, seeds, d) && d[|d| - 1] == q;
  }

  /** The inputs that are assembler sources. */
  function Roots(t: Tree, inputs: seq<Path>, asm: Path -> bool): (r: set<Path>)
  {
    set i | 0 <= i < |inputs| && asm(inputs[i]) :: t.resolve(inputs[i])
  }

  lemma {:induction false} OneScan(t: Tree, seeds: set<Path>, root: Path, deps: seq<Path>, out: seq<Path>)
    requires root in seeds && forall q | q in Resolved(t, deps) :: Mentioned(t, seeds, q)
    requires forall q :: q in Resolved(t, out) <==>
               exists f :: Reachable(t, {root} + Resolved(t, deps), f) && q in Needs(t, f)
    ensures forall q | q in Resolved(t, deps + out) :: Mentioned(t, seeds, q)
  {
    var mid := {root} + Resolved(t, deps);
    assert Links(t, seeds, [root]);
    ResolvedConcat(t, deps, out);
    forall q | q in Resolved(t, out)
      ensures Mentioned(t, seeds, q)
    {
      var f :| Reachable(t, mid, f) && q in Needs(t, f);
      var c :| Chain(t, mid, c) && c[|c| - 1] == f;
      MentionedFurther(t, seeds, mid, c, q);
    }
  }

  lemma {:induction false} ScanProvides(t: Tree, input: Path, found: seq<Path>, deps: seq<Path>, out: seq<Path>)
    requires Resolved(t, found) <= Resolved(t, deps)
    requires forall q :: q in Resolved(t, out) <==>
               exists f :: Reachable(t, {t.resolve(input)} + Resolved(t, deps), f) && q in Needs(t, f)
    ensures Provides(t, input, found, deps + out)
  {
    ResolvedConcat(t, deps, out);
    forall f | Reachable(t, {t.resolve(input)} + Resolved(t, found), f)
      ensures Needs(t, f) <= Resolved(t, deps + out)
    {
      MoreSeeds(t, {t.resolve(input)} + Resolved(t, found), {t.resolve(input)} + Resolved(t, deps), f);
    }
  }

  lemma {:induction false} ProvidesMore(t: Tree, input: Path, found: seq<Path>, deps: seq<Path>, out: seq<Path>)
    requires Provides(t, input, found, deps)
    ensures Provides(t, input, found, deps + out)
  {
    ResolvedConcat(t, deps, out);
  }

  /** All of `done` are provided for, and only what some directive mentions is there. */
  ghost predicate Gathered(t: Tree, seeds: set<Path>, done: seq<Path>, asm: Path -> bool, found: seq<Path>,
                           deps: seq<Path>)
  {
    && found <= deps
    && (forall i | 0 <= i < |done| && asm(done[i]) :: Provides(t, done[i], found, deps))
    && forall q | q in Resolved(t, deps) :: Mentioned(t, seeds, q)
  }

  lemma {:induction false} GatheredStart(t: Tree, seeds: set<Path>, asm: Path -> bool, found: seq<Path>)
    requires Resolved(t, found) <= seeds
    ensures Gathered(t, seeds, [], asm, found, found)
  {
    forall q | q in Resolved(t, found)
      ensures Mentioned(t, seeds, q)
    {
      assert Links(t, seeds, [q]);
    }
  }

  lemma {:induction false} GatheredStep(t: Tree, seeds: set<Path>, done: seq<Path>, asm: Path -> bool,
                                        found: seq<Path>, deps: seq<Path>,
                                        input: Path, out: seq<Path>)
    requires Gathered(t, seeds, done, asm, found, deps) && t.resolve(input) in seeds
    requires forall q :: q in Resolved(t, out) <==>
               exists f :: Reachable(t, {t.resolve(input)} + Resolved(t, deps), f) && q in Needs(t, f)
    ensures Gathered(t, seeds, done + [input], asm, found, deps + out)
  {
    assert found <= deps + out;
    ResolvedPrefix(t, found, deps);
    OneScan(t, seeds, t.resolve(input), deps, out);
    ScanProvides(t, input, found, deps, out);
    forall i | 0 <= i < |done| && asm(done[i])
      ensures Provides(t, done[i], found, deps + out)
    {
      ProvidesMore(t, done[i], found, deps, out);
    }
  }

  lemma {:induction false} ResolvedPrefix(t: Tree, a: seq<Path>, b: seq<Path>)
    requires a <= b
    ensures Resolved(t, a) <= Resolved(t, b)
  {
    SplitAt(b, |a|);
    ResolvedConcat(t, a, b[|a|..]);
  }

  /** What one scan adds: once each, exactly the targets in files reachable from the input and what is there already. */
  ghost predicate Adds(t: Tree, input: Path, deps: seq<Path>, out: seq<Path>)
  {
    && DistinctResolved(t, out) && Spelled(t, {t.resolve(input)} + Resolved(t, deps), out)
    && forall q :: q in Resolved(t, out) <==>
         exists f :: Reachable(t, {t.resolve(input)} + Resolved(t, deps), f) && q in Needs(t, f)
  }

  /** `deps` is what the scans of the assembler inputs, one after the other, make of `found`. */
  ghost predicate Scans(t: Tree, inputs: seq<Path>, asm: Path -> bool, found: seq<Path>, deps: seq<Path>)
    decreases |inputs|
  {
    if inputs == [] then deps == found
    else
      var n := |inputs| - 1;
      if !asm(inputs[n]) then Scans(t, inputs[..n], asm, found, deps)
      else
        exists k | 0 <= k <= |deps| ::
          Scans(t, inputs[..n], asm, found, deps[..k]) && Adds(t, inputs[n], deps[..k], deps[k..])
  }

  lemma {:induction false} ScansStep(t: Tree, inputs: seq<Path>, asm: Path -> bool, found: seq<Path>, deps: seq<Path>,
                                     out: seq<Path>)
    requires inputs != [] && asm(inputs[|inputs| - 1])
    requires Scans(t, inputs[..|inputs| - 1], asm, found, deps) && Adds(t, inputs[|inputs| - 1], deps, out)
    ensures Scans(t, inputs, asm, found, deps + out)
  {
    var all, k := deps + out, |deps|;
    assert all[..k] == deps && all[k..] == out;
  }

  /** The scans leave one set of files, whatever the order in which each lists its own. */
  lemma {:induction false} ScansAgree(t: Tree, inputs: seq<Path>, asm: Path -> bool, found: seq<Path>, a: seq<Path>,
                                      b: seq<Path>)
    requires Scans(t, inputs, asm, found, a) && Scans(t, inputs, asm, found, b)
    ensures Resolved(t, a) == Resolved(t, b)
    decreases |inputs|
  {
    if inputs != [] {
      var n := |inputs| - 1;
      if asm(inputs[n]) {
        var i :| 0 <= i <= |a| && Scans(t, inputs[..n], asm, found, a[..i]) && Adds(t, inputs[n], a[..i], a[i..]);
        var j :| 0 <= j <= |b| && Scans(t, inputs[..n], asm, found, b[..j]) && Adds(t, inputs[n], b[..j], b[j..]);
        ScansAgree(t, inputs[..n], asm, found, a[..i], b[..j]);
        SplitAt(a, i);
        SplitAt(b, j);
        ResolvedConcat(t, a[..i], a[i..]);
        ResolvedConcat(t, b[..j], b[j..]);
        SameAdded(t, inputs[n], a[..i], a[i..], b[..j], b[j..]);
      } else {
        ScansAgree(t, inputs[..n], asm, found, a, b);
      }
    }
  }

  lemma {:induction false} SameAdded(t: Tree, input: Path, a: seq<Path>, outA: seq<Path>, b: seq<Path>, outB: seq<Path>)
    requires Resolved(t, a) == Resolved(t, b) && Adds(t, input, a, outA) && Adds(t, input, b, outB)
    ensures Resolved(t, outA) == Resolved(t, outB)
  {
    forall q
      ensures q in Resolved(t, outA) <==> q in Resolved(t, outB)
    {
    }
  }

  /** So everything that assembling an input needs is there, and nothing that no directive mentions. */
  lemma {:induction false} ScansGather(t: Tree, seeds: set<Path>, inputs: seq<Path>, asm: Path -> bool,
                                       found: seq<Path>,
                                       deps: seq<Path>)
    requires Scans(t, inputs, asm, found, deps) && Resolved(t, found) + Roots(t, inputs, asm) <= seeds
    ensures Gathered(t, seeds, inputs, asm, found, deps)
    decreases |inputs|
  {
    if inputs == [] {
      GatheredStart(t, seeds, asm, found);
    } else {
      var n := |inputs| - 1;
      RootsSnoc(t, inputs, asm);
      TakeNext(inputs, n);
      TakeAll(inputs);
      if asm(inputs[n]) {
        var k :| 0 <= k <= |deps| && Scans(t, inputs[..n], asm, found, deps[..k])
            && Adds(t, inputs[n], deps[..k], deps[k..]);
        ScansGather(t, seeds, inputs[..n], asm, found, deps[..k]);
        GatheredStep(t, seeds, inputs[..n], asm, found, deps[..k], inputs[n], deps[k..]);
        SplitAt(deps, k);
      } else {
        ScansGather(t, seeds, inputs[..n], asm, found, deps);
      }
    }
  }

  lemma {:induction false} RootsSnoc(t: Tree, inputs: seq<Path>, asm: Path -> bool)
    requires inputs != []
    ensures
      var n := |inputs| - 1;
      Roots(t, inputs[..n], asm) <= Roots(t, inputs, asm) && (asm(inputs[n]) ==>
          t.resolve(inputs[n]) in Roots(t, inputs, asm))
  {
    var n := |inputs| - 1;
    forall q | q in Roots(t, inputs[..n], asm)
      ensures q in Roots(t, inputs, asm)
    {
      var i :| 0 <= i < n && asm(inputs[..n][i]) && t.resolve(inputs[..n][i]) == q;
      assert asm(inputs[i]) && t.resolve(inputs[i]) == q;
    }
  }

  /**
   * The loop over the inputs: the preprocessor's answer comes first; behind it exactly what the
   * scans of the assembler inputs add, each starting from all that is there so far.
   */
  method CollectDeps(t: Tree, inputs: seq<Path>, found: seq<Path>, asm: Path -> bool) returns (deps: seq<Path>)
    ensures Scans(t, inputs, asm, found, deps)
    ensures Gathered(t, Resolved(t, found) + Roots(t, inputs, asm), inputs, asm, found, deps)
  {
    deps := found;
    for i := 0 to |inputs|
      invariant Scans(t, inputs[..i], asm, found, deps)
    {
      assert inputs[..i + 1][..i] == inputs[..i];
      if asm(inputs[i]) {
        var out := ScanAssemblyClosure(t, t.resolve(inputs[i]), deps);
        ScansStep(t, inputs[..i + 1], asm, found, deps, out);
        deps := deps + out;
      }
    }
    TakeAll(inputs);
    ScansGather(t, Resolved(t, found) + Roots(t, inputs, asm), inputs, asm, found, deps);
  }
}
