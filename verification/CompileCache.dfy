/**
 * The compile cache (internal/cache/compile.go:117-331): an entry is several blobs put one after
 * the other into each store of a chain, and read back blob by blob.
 */
module CompileCache {
  import opened Bytes
  import Extras

  datatype Blob = OutputBlob | StdoutBlob | StderrBlob | ExitCodeBlob | MetadataBlob | ExtrasBlob

  type Tenant = Bytes
  type Key = Bytes
  type Slot = (Tenant, Key, Blob)
  type Store = map<Slot, Bytes>

  /** What one compile left behind. No output means the compile produced none. */
  datatype Result = Result(exitCode: int, stdout: Bytes, stderr: Bytes, output: Option<Bytes>, extras: Extras.Files)

  const Zero: Bytes := [48]

  predicate AllDigits(b: Bytes)
  {
    forall i | 0 <= i < |b| :: 48 <= b[i] <= 57
  }

  function Decimal(b: Bytes): (r: nat)
    requires AllDigits(b)
  {
    if b == [] then 0 else 10 * Decimal(b[..|b| - 1]) + (b[|b| - 1] - 48) as nat
  }

  /** strconv.Atoi: an optional sign, digits, and a value of 64 bits. */
  function ParseExit(b: Bytes): (r: Option<int>)
  {
    var digits := if b != [] && (b[0] == 43 || b[0] == 45) then b[1..] else b;
    if digits == [] || !AllDigits(digits) then None
    else
      var v := if b[0] == 45 then 0 - Decimal(digits) else Decimal(digits);
      if -0x8000_0000_0000_0000 <= v < 0x8000_0000_0000_0000 then Some(v) else None
  }

  lemma {:induction false} ZeroParses()
    ensures ParseExit(Zero) == Some(0)
  {
    assert Zero[..0] == [] && Decimal(Zero[..0]) == 0;
    assert Decimal(Zero) == 0;
  }

  /** A number in decimal, without leading zeros. */
  function Digits(n: nat): (b: Bytes)
    ensures b != [] && AllDigits(b)
  {
    if n < 10 then [(48 + n) as byte] else Digits(n / 10) + [(48 + n % 10) as byte]
  }

  lemma {:induction false} DecimalBack(n: nat)
    ensures Decimal(Digits(n)) == n
    decreases n
  {
    if n < 10 {
      assert Digits(n)[..0] == [];
    } else {
      DecimalBack(n / 10);
      assert Digits(n)[..|Digits(n)| - 1] == Digits(n / 10);
    }
  }

  /** Every 64-bit number written in decimal is read as that number, a plus sign or not. */
  lemma {:induction false} ExitBack(n: int)
    requires -0x8000_0000_0000_0000 <= n < 0x8000_0000_0000_0000
    ensures n >= 0 ==> ParseExit(Digits(n)) == Some(n) && ParseExit([43] + Digits(n)) == Some(n)
    ensures n < 0 ==> ParseExit([45] + Digits(-n)) == Some(n)
  {
    var digits := Digits(if n < 0 then -n else n);
    DecimalBack(if n < 0 then -n else n);
    assert digits[0] != 43 && digits[0] != 45;
    assert ([43] + digits)[1..] == digits && ([45] + digits)[1..] == digits;
  }

  /** Anything with another character in it, or without a digit, is refused. */
  lemma {:induction false} ExitRefused(b: Bytes, i: nat)
    requires b == [] || b == [43] || b == [45]
             || (i < |b| && !(48 <= b[i] <= 57) && !(i == 0 && (b[0] == 43 || b[0] == 45)))
    ensures ParseExit(b).None?
  {
    if |b| > 1 && (b[0] == 43 || b[0] == 45) {
      assert b[1..][i - 1] == b[i];
    }
  }

  // ---- The puts of one Store call ----

  datatype Put = Put(store: nat, blob: Blob, data: Bytes)

  function OutputPuts(i: nat, res: Result): (r: seq<Put>)
  {
    if res.output.Some? then [Put(i, OutputBlob, res.output.value)] else []
  }

  function CorePuts(i: nat, res: Result, meta: Bytes): (r: seq<Put>)
  {
    [Put(i, StdoutBlob, res.stdout), Put(i, StderrBlob, res.stderr), Put(i, ExitCodeBlob, Zero),
        Put(i, MetadataBlob, meta)]
  }

  function ExtrasPuts(i: nat, extras: Option<Bytes>): (r: seq<Put>)
  {
    if extras.Some? then [Put(i, ExtrasBlob, extras.value)] else []
  }

  /** What Store puts into one store, in order. */
  function PutsInto(i: nat, res: Result, meta: Bytes, extras: Option<Bytes>): (r: seq<Put>)
  {
    OutputPuts(i, res) + CorePuts(i, res, meta) + ExtrasPuts(i, extras)
  }

  function AllPuts(n: nat, res: Result, meta: Bytes, extras: Option<Bytes>): (r: seq<Put>)
  {
    if n == 0 then [] else AllPuts(n - 1, res, meta, extras) + PutsInto(n - 1, res, meta, extras)
  }

  function Applied(chain: seq<Store>, t: Tenant, key: Key, puts: seq<Put>): (r: seq<Store>)
    ensures |r| == |chain|
  {
    if puts == [] then chain
    else
      var c, p := Applied(chain, t, key, puts[..|puts| - 1]), puts[|puts| - 1];
      if p.store < |c| then c[p.store := c[p.store][(t, key, p.blob) := p.data]] else c
  }

  // ---- Reading ----

  function Get(s: Store, t: Tenant, key: Key, b: Blob): (r: Option<Bytes>)
  {
    if (t, key, b) in s then Some(s[(t, key, b)]) else None
  }

  function OrEmpty(b: Option<Bytes>): Bytes
  {
    if b.Some? then b.value else []
  }

  function LoadedExtras(s: Store, t: Tenant, key: Key): (r: Extras.Files)
  {
    match Get(s, t, key, ExtrasBlob)
    case None => map[]
    case Some(raw) =>
      match Extras.Decode(raw)
      case None => map[]
      case Some(m) => m
  }

  /** loadEntry. `named` says whether the invocation names an output file. */
  function Load(s: Store, t: Tenant, key: Key, named: bool): (r: Option<Result>)
  {
    match Get(s, t, key, ExitCodeBlob)
    case None => None
    case Some(raw) =>
      match ParseExit(raw)
      case None => None
      case Some(code) =>
        if named && Get(s, t, key, OutputBlob).None? then None
        else
          Some(Result(code, OrEmpty(Get(s, t, key, StdoutBlob)), OrEmpty(Get(s, t, key, StderrBlob)),
                      if named then Get(s, t, key, OutputBlob) else None, LoadedExtras(s, t, key)))
  }

  /** `has` is whatever the store answers when asked for the key. */
  function Lookup(chain: seq<Store>, has: (Store, Tenant, Key) -> bool, t: Tenant, key: Key,
                  named: bool): (r: Option<Result>)
  {
    if chain == [] then None
    else if has(chain[0], t, key) && Load(chain[0], t, key, named).Some? then Load(chain[0], t, key, named)
    else Lookup(chain[1..], has, t, key, named)
  }

  class CompileCache {
    var stores: seq<Store>

    constructor (stores: seq<Store>)
      ensures this.stores == stores
    {
      this.stores := stores;
    }

    /** `output` is the bytes read for the object file; failed compiles and empty chains are skipped. */
    method Store(res: Result, meta: Bytes, t: Tenant, key: Key) returns (ok: bool, ghost extras: Option<Bytes>)
      modifies this
      ensures ok == (|old(stores)| == 0 || res.exitCode != 0 || t != [])
      ensures extras.Some? <==> res.extras != map[]
      ensures extras.Some? ==> Extras.IsEncoding(res.extras, extras.value)
      ensures stores == if |old(stores)| == 0 || res.exitCode != 0 || t == [] then old(stores)
                        else Applied(old(stores), t, key, AllPuts(|old(stores)|, res, meta, extras))
    {
      var blob: Option<Bytes> := None;
      if res.extras != map[] {
        var enc := Extras.EncodeExtras(res.extras);
        blob := Some(enc);
      }
      extras := blob;
      if |stores| == 0 || res.exitCode != 0 {
        return true, extras;
      }
      if t == [] {
        return false, extras;
      }
      ghost var start := stores;
      for i := 0 to |stores|
        invariant |stores| == |start| && stores == Applied(start, t, key, AllPuts(i, res, meta, blob))
      {
        StoreInto(i, res, meta, blob, t, key, start, AllPuts(i, res, meta, blob));
      }
      return true, extras;
    }

    method PutBlob(i: nat, b: Blob, data: Bytes, t: Tenant, key: Key, ghost start: seq<Store>, ghost done: seq<Put>)
      requires i < |stores| && stores == Applied(start, t, key, done)
      modifies this
      ensures stores == Applied(start, t, key, done + [Put(i, b, data)]) && |stores| == |old(stores)|
    {
      assert (done + [Put(i, b, data)])[..|done|] == done;
      stores := stores[i := stores[i][(t, key, b) := data]];
    }

    /** The puts into one store of the chain. */
    method StoreInto(i: nat, res: Result, meta: Bytes, blob: Option<Bytes>, t: Tenant, key: Key,
                     ghost start: seq<Store>, ghost done: seq<Put>)
      requires i < |stores| && stores == Applied(start, t, key, done)
      modifies this
      ensures stores == Applied(start, t, key, done + PutsInto(i, res, meta, blob)) && |stores| == |old(stores)|
    {
      ghost var a, b, c := OutputPuts(i, res), CorePuts(i, res, meta), ExtrasPuts(i, blob);
      Nil(done);
      if res.output.Some? {
        PutBlob(i, OutputBlob, res.output.value, t, key, start, done);
      }
      PutCore(i, res, meta, t, key, start, done + a);
      Nil(done + a + b);
      if blob.Some? {
        PutBlob(i, ExtrasBlob, blob.value, t, key, start, done + a + b);
      }
      Assoc(done, a, b);
      Assoc(done, a + b, c);
    }

    method PutCore(i: nat, res: Result, meta: Bytes, t: Tenant, key: Key, ghost start: seq<Store>, ghost done: seq<Put>)
      requires i < |stores| && stores == Applied(start, t, key, done)
      modifies this
      ensures stores == Applied(start, t, key, done + CorePuts(i, res, meta)) && |stores| == |old(stores)|
    {
      ghost var p, q, r, s := Put(i, StdoutBlob, res.stdout), Put(i, StderrBlob, res.stderr),
          Put(i, ExitCodeBlob, Zero), Put(i, MetadataBlob, meta);
      PutBlob(i, StdoutBlob, res.stdout, t, key, start, done);
      PutBlob(i, StderrBlob, res.stderr, t, key, start, done + [p]);
      PutBlob(i, ExitCodeBlob, Zero, t, key, start, done + [p] + [q]);
      PutBlob(i, MetadataBlob, meta, t, key, start, done + [p] + [q] + [r]);
      assert done + [p] + [q] + [r] + [s] == done + [p, q, r, s];
    }

    method LookupEntry(has: (Store, Tenant, Key) -> bool, t: Tenant, key: Key, named: bool)
                       returns (ok: bool, r: Option<Result>)
      ensures ok == (|stores| == 0 || t != [])
      ensures r == if ok then Lookup(stores, has, t, key, named) else None
    {
      if |stores| == 0 {
        return true, None;
      }
      if t == [] {
        return false, None;
      }
      var i := 0;
      while i < |stores|
        invariant 0 <= i <= |stores|
        invariant Lookup(stores[i..], has, t, key, named) == Lookup(stores, has, t, key, named)
      {
        assert stores[i..][1..] == stores[i + 1..];
        if has(stores[i], t, key) {
          var res := LoadEntry(stores[i], t, key, named);
          if res.Some? {
            return true, res;
          }
        }
        i := i + 1;
      }
      return true, None;
    }
  }

  method LoadEntry(s: Store, t: Tenant, key: Key, named: bool) returns (r: Option<Result>)
    ensures r == Load(s, t, key, named)
    ensures r.Some? <==>
              && (t, key, ExitCodeBlob) in s && ParseExit(s[(t, key, ExitCodeBlob)]).Some?
              && (named ==> (t, key, OutputBlob) in s)
    ensures r.Some? ==>
              && Some(r.value.exitCode) == ParseExit(s[(t, key, ExitCodeBlob)])
              && r.value.stdout == (if (t, key, StdoutBlob) in s then s[(t, key, StdoutBlob)] else [])
              && r.value.stderr == (if (t, key, StderrBlob) in s then s[(t, key, StderrBlob)] else [])
              && r.value.output == (if named then Some(s[(t, key, OutputBlob)]) else None)
  {
    var exitCodeRaw := Get(s, t, key, ExitCodeBlob);
    if exitCodeRaw.None? {
      return None;
    }
    var exitCode := ParseExit(exitCodeRaw.value);
    if exitCode.None? {
      return None;
    }
    var stdout := OrEmpty(Get(s, t, key, StdoutBlob));
    var stderr := OrEmpty(Get(s, t, key, StderrBlob));
    var output: Option<Bytes> := None;
    if named {
      output := Get(s, t, key, OutputBlob);
      if output.None? {
        return None;
      }
    }
    var extras: Extras.Files := map[];
    var raw := Get(s, t, key, ExtrasBlob);
    if raw.Some? {
      var decoded := Extras.DecodeExtras(raw.value);
      if decoded.Some? {
        extras := decoded.value;
      }
    }
    return Some(Result(exitCode.value, stdout, stderr, output, extras));
  }

  predicate Answers(s: Store, has: (Store, Tenant, Key) -> bool, t: Tenant, key: Key, named: bool)
  {
    has(s, t, key) && Load(s, t, key, named).Some?
  }

  /** The first store of the chain that has the key and loads is the one that is returned. */
  lemma {:induction false} FirstWins(chain: seq<Store>, has: (Store, Tenant, Key) -> bool, t: Tenant, key: Key,
                                     named: bool, i: nat)
    requires i < |chain| && Answers(chain[i], has, t, key, named)
    requires forall j | 0 <= j < i :: !Answers(chain[j], has, t, key, named)
    ensures Lookup(chain, has, t, key, named) == Load(chain[i], t, key, named)
    decreases i
  {
    if i > 0 {
      assert forall j | 0 <= j < i - 1 :: chain[1..][j] == chain[j + 1];
      FirstWins(chain[1..], has, t, key, named, i - 1);
    }
  }

  /** A miss means that none does. */
  lemma {:induction false} NoneAnswers(chain: seq<Store>, has: (Store, Tenant, Key) -> bool, t: Tenant, key: Key,
                                       named: bool)
    ensures Lookup(chain, has, t, key, named).None? <==>
              forall j | 0 <= j < |chain| :: !Answers(chain[j], has, t, key, named)
    decreases |chain|
  {
    if chain != [] {
      NoneAnswers(chain[1..], has, t, key, named);
      assert forall j | 0 <= j < |chain[1..]| :: chain[1..][j] == chain[j + 1];
      assert forall j | 0 < j < |chain| :: chain[j] == chain[1..][j - 1];
    }
  }

  // ---- Stopping anywhere ----

  /**
   * What a store may already hold under the key: side outputs that are those of the result, or none
   * that can be read; an output only if the result has one; and behind an exit code that parses,
   * what the result says, the output possibly missing.
   */
  predicate SafeStart(s: Store, t: Tenant, key: Key, res: Result)
  {
    && (LoadedExtras(s, t, key) == res.extras || LoadedExtras(s, t, key) == map[])
    && (res.output.None? ==> Get(s, t, key, OutputBlob).None?)
    && (ExitOf(s, t, key).Some? ==> ExitOf(s, t, key) == Some(0) && SaysSame(s, t, key, res))
  }

  function ExitOf(s: Store, t: Tenant, key: Key): (r: Option<int>)
  {
    match Get(s, t, key, ExitCodeBlob)
    case None => None
    case Some(raw) => ParseExit(raw)
  }

  predicate SaysSame(s: Store, t: Tenant, key: Key, res: Result)
  {
    && OrEmpty(Get(s, t, key, StdoutBlob)) == res.stdout && OrEmpty(Get(s, t, key, StderrBlob)) == res.stderr
    && (Get(s, t, key, OutputBlob).None? || Get(s, t, key, OutputBlob) == res.output)
  }

  ghost predicate SafeKey(chain: seq<Store>, t: Tenant, key: Key, res: Result)
  {
    forall i | 0 <= i < |chain| :: SafeStart(chain[i], t, key, res)
  }

  /** What the puts leave in store `i`: the last data put for the blob, if any. */
  function LastPut(puts: seq<Put>, i: nat, b: Blob): (r: Option<Bytes>)
  {
    if puts == [] then None
    else
      var p := puts[|puts| - 1];
      if p.store == i && p.blob == b then Some(p.data) else LastPut(puts[..|puts| - 1], i, b)
  }

  function Or(a: Option<Bytes>, b: Option<Bytes>): Option<Bytes>
  {
    if a.Some? then a else b
  }

  lemma {:induction false} AppliedIs(chain: seq<Store>, t: Tenant, key: Key, puts: seq<Put>, i: nat, b: Blob)
    requires i < |chain|
    ensures Get(Applied(chain, t, key, puts)[i], t, key, b) == Or(LastPut(puts, i, b), Get(chain[i], t, key, b))
    decreases |puts|
  {
    if puts != [] {
      AppliedIs(chain, t, key, puts[..|puts| - 1], i, b);
    }
  }

  /** What a put may say about a blob. */
  predicate SaysRight(p: Put, res: Result, extras: Option<Bytes>)
  {
    match p.blob
    case OutputBlob => res.output == Some(p.data)
    case StdoutBlob => res.stdout == p.data
    case StderrBlob => res.stderr == p.data
    case ExitCodeBlob => p.data == Zero
    case MetadataBlob => true
    case ExtrasBlob => extras == Some(p.data)
  }

  /** Every put says the same about a blob, and the exit code comes after what a reader relies on. */
  ghost predicate Ordered(puts: seq<Put>, res: Result, meta: Bytes, extras: Option<Bytes>)
  {
    && (forall k | 0 <= k < |puts| :: SaysRight(puts[k], res, extras))
    && (forall k | 0 <= k < |puts| && puts[k].blob.ExitCodeBlob? ::
          && Before(puts, k, StdoutBlob) && Before(puts, k, StderrBlob)
              && (res.output.Some? ==> Before(puts, k, OutputBlob)))
  }

  predicate Before(puts: seq<Put>, k: nat, b: Blob)
    requires k < |puts|
  {
    exists j | 0 <= j < k :: puts[j].store == puts[k].store && puts[j].blob == b
  }

  lemma {:induction false} OneStoreOrdered(i: nat, res: Result, meta: Bytes, extras: Option<Bytes>)
    ensures Ordered(PutsInto(i, res, meta, extras), res, meta, extras)
  {
    var puts := PutsInto(i, res, meta, extras);
    var n := if res.output.Some? then 1 else 0;
    assert puts[n] == Put(i, StdoutBlob, res.stdout) && puts[n + 1] == Put(i, StderrBlob, res.stderr);
    assert puts[n + 2] == Put(i, ExitCodeBlob, Zero) && puts[n + 3] == Put(i, MetadataBlob, meta);
    assert res.output.Some? ==> puts[0] == Put(i, OutputBlob, res.output.value);
    assert extras.Some? ==> puts[n + 4] == Put(i, ExtrasBlob, extras.value);
    forall k | 0 <= k < |puts| && puts[k].blob.ExitCodeBlob?
      ensures Before(puts, k, StdoutBlob) && Before(puts, k, StderrBlob)
                && (res.output.Some? ==> Before(puts, k, OutputBlob))
    {
      assert k == n + 2;
    }
  }

  lemma {:induction false} OrderedConcat(a: seq<Put>, b: seq<Put>, res: Result, meta: Bytes, extras: Option<Bytes>)
    requires Ordered(a, res, meta, extras) && Ordered(b, res, meta, extras)
    ensures Ordered(a + b, res, meta, extras)
  {
    var all := a + b;
    forall k | 0 <= k < |all| && all[k].blob.ExitCodeBlob?
      ensures Before(all, k, StdoutBlob) && Before(all, k, StderrBlob)
                && (res.output.Some? ==> Before(all, k, OutputBlob))
    {
      BeforeKept(a, b, k, StdoutBlob);
      BeforeKept(a, b, k, StderrBlob);
      BeforeKept(a, b, k, OutputBlob);
    }
  }

  lemma {:induction false} BeforeKept(a: seq<Put>, b: seq<Put>, k: nat, blob: Blob)
    requires k < |a + b|
    ensures k < |a| && Before(a, k, blob) ==> Before(a + b, k, blob)
    ensures k >= |a| && Before(b, k - |a|, blob) ==> Before(a + b, k, blob)
  {
    var all := a + b;
    if k < |a| && Before(a, k, blob) {
      var j :| 0 <= j < k && a[j].store == a[k].store && a[j].blob == blob;
      assert all[j] == a[j] && all[k] == a[k];
    }
    if k >= |a| && Before(b, k - |a|, blob) {
      var j :| 0 <= j < k - |a| && b[j].store == b[k - |a|].store && b[j].blob == blob;
      assert all[|a| + j] == b[j] && all[k] == b[k - |a|];
    }
  }

  lemma {:induction false} AllOrdered(n: nat, res: Result, meta: Bytes, extras: Option<Bytes>)
    ensures Ordered(AllPuts(n, res, meta, extras), res, meta, extras)
  {
    if n > 0 {
      AllOrdered(n - 1, res, meta, extras);
      OneStoreOrdered(n - 1, res, meta, extras);
      OrderedConcat(AllPuts(n - 1, res, meta, extras), PutsInto(n - 1, res, meta, extras), res, meta, extras);
    }
  }

  lemma {:induction false} PrefixOrdered(puts: seq<Put>, k: nat, res: Result, meta: Bytes, extras: Option<Bytes>)
    requires Ordered(puts, res, meta, extras) && k <= |puts|
    ensures Ordered(puts[..k], res, meta, extras)
  {
    var cut := puts[..k];
    forall e | 0 <= e < |cut| && cut[e].blob.ExitCodeBlob?
      ensures Before(cut, e, StdoutBlob) && Before(cut, e, StderrBlob)
                && (res.output.Some? ==> Before(cut, e, OutputBlob))
    {
      assert cut[e] == puts[e];
      BeforeCut(puts, k, e, StdoutBlob);
      BeforeCut(puts, k, e, StderrBlob);
      BeforeCut(puts, k, e, OutputBlob);
    }
  }

  lemma {:induction false} BeforeCut(puts: seq<Put>, k: nat, e: nat, blob: Blob)
    requires e < k <= |puts|
    ensures Before(puts, e, blob) ==> Before(puts[..k], e, blob)
  {
    if Before(puts, e, blob) {
      var j :| 0 <= j < e && puts[j].store == puts[e].store && puts[j].blob == blob;
      assert puts[..k][j] == puts[j] && puts[..k][e] == puts[e];
    }
  }

  lemma {:induction false} LastPutFound(puts: seq<Put>, i: nat, b: Blob, j: nat)
    requires j < |puts| && puts[j].store == i && puts[j].blob == b
    ensures LastPut(puts, i, b).Some?
    decreases |puts|
  {
    var n := |puts| - 1;
    if !(puts[n].store == i && puts[n].blob == b) {
      LastPutFound(puts[..n], i, b, j);
    }
  }

  lemma {:induction false} LastPutAt(puts: seq<Put>, i: nat, b: Blob) returns (j: nat)
    requires LastPut(puts, i, b).Some?
    ensures j < |puts| && puts[j] == Put(i, b, LastPut(puts, i, b).value)
    decreases |puts|
  {
    var n := |puts| - 1;
    if puts[n].store == i && puts[n].blob == b {
      j := n;
    } else {
      j := LastPutAt(puts[..n], i, b);
    }
  }

  /** What a reader may be told about a compile: everything, except that side outputs may be missing. */
  predicate Faithful(r: Result, res: Result, named: bool)
  {
    && r.exitCode == 0 && r.stdout == res.stdout && r.stderr == res.stderr
    && (named ==> r.output == res.output && r.output.Some?)
    && (r.extras == res.extras || r.extras == map[])
  }

  /** The last put of a blob, where there is one, says what the result says. */
  lemma {:induction false} LastSaysRight(puts: seq<Put>, i: nat, b: Blob,
                                      res: Result, meta: Bytes, extras: Option<Bytes>)
    requires Ordered(puts, res, meta, extras) && LastPut(puts, i, b).Some?
    ensures SaysRight(Put(i, b, LastPut(puts, i, b).value), res, extras)
  {
    var j := LastPutAt(puts, i, b);
  }

  /** A put exit code has what a reader relies on before it. */
  lemma {:induction false} ExitComesLast(puts: seq<Put>, i: nat, b: Blob,
                                      res: Result, meta: Bytes, extras: Option<Bytes>)
    requires Ordered(puts, res, meta, extras) && LastPut(puts, i, ExitCodeBlob).Some?
    requires b.StdoutBlob? || b.StderrBlob? || (b.OutputBlob? && res.output.Some?)
    ensures LastPut(puts, i, b).Some?
  {
    var e := LastPutAt(puts, i, ExitCodeBlob);
    assert Before(puts, e, b);
    var j :| 0 <= j < e && puts[j].store == i && puts[j].blob == b;
    LastPutFound(puts, i, b, j);
  }

  /** What an entry shows is a miss or what the result says. */
  ghost predicate LoadsRight(s: Store, t: Tenant, key: Key, res: Result, named: bool)
  {
    var r := Load(s, t, key, named);
    r.Some? ==> Faithful(r.value, res, named)
  }

  lemma {:induction false} SafeLoads(s: Store, t: Tenant, key: Key, res: Result, named: bool)
    requires SafeStart(s, t, key, res)
    ensures LoadsRight(s, t, key, res, named)
  {
  }

  lemma {:induction false} ExtrasAfter(chain: seq<Store>, t: Tenant, key: Key, puts: seq<Put>, i: nat, res: Result,
                                       meta: Bytes, extras: Option<Bytes>)
    requires i < |chain| && Ordered(puts, res, meta, extras)
    requires extras.Some? ==> Extras.Fits(res.extras) && Extras.IsEncoding(res.extras, extras.value)
    ensures
      var after := LoadedExtras(Applied(chain, t, key, puts)[i], t, key);
      after == if LastPut(puts, i, ExtrasBlob).Some? then res.extras else LoadedExtras(chain[i], t, key)
  {
    AppliedIs(chain, t, key, puts, i, ExtrasBlob);
    if LastPut(puts, i, ExtrasBlob).Some? {
      LastSaysRight(puts, i, ExtrasBlob, res, meta, extras);
      Extras.ExtrasBack(res.extras, extras.value);
    }
  }

  /** A blob after the puts: what the result says where there was a put, what was there otherwise. */
  lemma {:induction false} BlobAfter(chain: seq<Store>, t: Tenant, key: Key, puts: seq<Put>, i: nat, b: Blob,
                                     res: Result, meta: Bytes, extras: Option<Bytes>)
    requires i < |chain| && Ordered(puts, res, meta, extras)
    ensures
      var r := Get(Applied(chain, t, key, puts)[i], t, key, b);
      if LastPut(puts, i, b).Some? then r.Some? && SaysRight(Put(i, b, r.value), res, extras)
      else r == Get(chain[i], t, key, b)
  {
    AppliedIs(chain, t, key, puts, i, b);
    if LastPut(puts, i, b).Some? {
      LastSaysRight(puts, i, b, res, meta, extras);
    }
  }

  /** A put exit code finds everything else in place. */
  lemma {:induction false} ExitPut(chain: seq<Store>, t: Tenant, key: Key, puts: seq<Put>, i: nat, res: Result,
                                   meta: Bytes, extras: Option<Bytes>)
    requires i < |chain| && SafeStart(chain[i], t, key, res) && Ordered(puts, res, meta, extras)
    requires LastPut(puts, i, ExitCodeBlob).Some?
    ensures
      var s := Applied(chain, t, key, puts)[i];
      ExitOf(s, t, key) == Some(0) && SaysSame(s, t, key, res)
  {
    ZeroParses();
    ExitComesLast(puts, i, StdoutBlob, res, meta, extras);
    ExitComesLast(puts, i, StderrBlob, res, meta, extras);
    if res.output.Some? {
      ExitComesLast(puts, i, OutputBlob, res, meta, extras);
    }
    BlobAfter(chain, t, key, puts, i, ExitCodeBlob, res, meta, extras);
    BlobAfter(chain, t, key, puts, i, StdoutBlob, res, meta, extras);
    BlobAfter(chain, t, key, puts, i, StderrBlob, res, meta, extras);
    BlobAfter(chain, t, key, puts, i, OutputBlob, res, meta, extras);
  }

  lemma {:induction false} ExitKept(chain: seq<Store>, t: Tenant, key: Key, puts: seq<Put>, i: nat, res: Result,
                                    meta: Bytes, extras: Option<Bytes>)
    requires i < |chain| && SafeStart(chain[i], t, key, res) && Ordered(puts, res, meta, extras)
    requires LastPut(puts, i, ExitCodeBlob).None?
    ensures
      var s := Applied(chain, t, key, puts)[i];
      ExitOf(s, t, key).Some? ==> ExitOf(s, t, key) == Some(0) && SaysSame(s, t, key, res)
  {
    BlobAfter(chain, t, key, puts, i, ExitCodeBlob, res, meta, extras);
    BlobAfter(chain, t, key, puts, i, StdoutBlob, res, meta, extras);
    BlobAfter(chain, t, key, puts, i, StderrBlob, res, meta, extras);
    BlobAfter(chain, t, key, puts, i, OutputBlob, res, meta, extras);
  }

  /** Puts in order keep a safe store safe. */
  lemma {:induction false} StaysSafe(chain: seq<Store>, t: Tenant, key: Key, puts: seq<Put>, i: nat, res: Result,
                                     meta: Bytes, extras: Option<Bytes>)
    requires i < |chain| && SafeStart(chain[i], t, key, res) && Ordered(puts, res, meta, extras)
    requires extras.Some? ==> Extras.Fits(res.extras) && Extras.IsEncoding(res.extras, extras.value)
    ensures SafeStart(Applied(chain, t, key, puts)[i], t, key, res)
  {
    ExtrasAfter(chain, t, key, puts, i, res, meta, extras);
    BlobAfter(chain, t, key, puts, i, OutputBlob, res, meta, extras);
    if LastPut(puts, i, ExitCodeBlob).Some? {
      ExitPut(chain, t, key, puts, i, res, meta, extras);
    } else {
      ExitKept(chain, t, key, puts, i, res, meta, extras);
    }
  }

  lemma {:induction false} LookupFrom(chain: seq<Store>, has: (Store, Tenant, Key) -> bool, t: Tenant, key: Key,
                                      named: bool, res: Result)
    requires forall i | 0 <= i < |chain| :: LoadsRight(chain[i], t, key, res, named)
    ensures
      var r := Lookup(chain, has, t, key, named);
      r.Some? ==> Faithful(r.value, res, named)
    decreases |chain|
  {
    if chain != [] {
      LookupFrom(chain[1..], has, t, key, named, res);
    }
  }

  /** What an interrupted Store leaves over a safe key is safe again. */
  lemma {:induction false} RetryIsSafe(chain: seq<Store>, t: Tenant, key: Key, res: Result, meta: Bytes,
                                       extras: Option<Bytes>, k: nat)
    requires SafeKey(chain, t, key, res) && k <= |AllPuts(|chain|, res, meta, extras)|
    requires extras.Some? ==> Extras.Fits(res.extras) && Extras.IsEncoding(res.extras, extras.value)
    ensures SafeKey(Applied(chain, t, key, AllPuts(|chain|, res, meta, extras)[..k]), t, key, res)
  {
    var puts := AllPuts(|chain|, res, meta, extras);
    AllOrdered(|chain|, res, meta, extras);
    PrefixOrdered(puts, k, res, meta, extras);
    var after := Applied(chain, t, key, puts[..k]);
    forall i | 0 <= i < |after|
      ensures SafeStart(after[i], t, key, res)
    {
      StaysSafe(chain, t, key, puts[..k], i, res, meta, extras);
    }
  }

  /**
   * If Store over a safe key stops after any number of its puts, anywhere in the chain, a later
   * Lookup is a miss or returns what was stored, side outputs possibly missing.
   */
  lemma {:induction false} StoppedStoreIsSafe(chain: seq<Store>, has: (Store, Tenant, Key) -> bool, t: Tenant,
                                              key: Key, res: Result,
                                              meta: Bytes, extras: Option<Bytes>, k: nat, named: bool)
    requires SafeKey(chain, t, key, res) && k <= |AllPuts(|chain|, res, meta, extras)|
    requires extras.Some? ==> Extras.Fits(res.extras) && Extras.IsEncoding(res.extras, extras.value)
    ensures
      var r := Lookup(Applied(chain, t, key, AllPuts(|chain|, res, meta, extras)[..k]), has, t, key, named);
      r.Some? ==> Faithful(r.value, res, named)
  {
    RetryIsSafe(chain, t, key, res, meta, extras, k);
    var after := Applied(chain, t, key, AllPuts(|chain|, res, meta, extras)[..k]);
    forall i | 0 <= i < |after|
      ensures LoadsRight(after[i], t, key, res, named)
    {
      SafeLoads(after[i], t, key, res, named);
    }
    LookupFrom(after, has, t, key, named, res);
  }

  // ---- Only over a safe key ----

  /** Wherever Store stops, no store of the chain shows anything wrong. */
  ghost predicate SafeThroughout(chain: seq<Store>, t: Tenant, key: Key, res: Result, meta: Bytes,
                                 extras: Option<Bytes>)
  {
    forall k, i, named | 0 <= k <= |AllPuts(|chain|, res, meta, extras)| && 0 <= i < |chain| ::
      ShowsRight(chain, t, key, res, meta, extras, k, i, named)
  }

  ghost predicate ShowsRight(chain: seq<Store>, t: Tenant, key: Key, res: Result, meta: Bytes, extras: Option<Bytes>,
                             k: nat, i: nat, named: bool)
    requires k <= |AllPuts(|chain|, res, meta, extras)| && i < |chain|
  {
    LoadsRight(Applied(chain, t, key, AllPuts(|chain|, res, meta, extras)[..k])[i], t, key, res, named)
  }

  lemma {:induction false} PutsFront(n: nat, res: Result, meta: Bytes, extras: Option<Bytes>, i: nat, m: nat)
    requires i < n && m <= |PutsInto(i, res, meta, extras)|
    ensures
      var all, k := AllPuts(n, res, meta, extras), |AllPuts(i, res, meta, extras)| + m;
      k <= |all| && all[..k] == AllPuts(i, res, meta, extras) + PutsInto(i, res, meta, extras)[..m]
    decreases n
  {
    var rest, last := AllPuts(n - 1, res, meta, extras), PutsInto(n - 1, res, meta, extras);
    if i < n - 1 {
      PutsFront(n - 1, res, meta, extras, i, m);
      var k := |AllPuts(i, res, meta, extras)| + m;
      assert (rest + last)[..k] == rest[..k];
    } else {
      assert (rest + last)[..|rest| + m] == rest + last[..m];
    }
  }

  /** The puts into store `i` up to and including its exit code. */
  function UpToExit(i: nat, res: Result): (r: seq<Put>)
  {
    OutputPuts(i, res) + [Put(i, StdoutBlob, res.stdout), Put(i, StderrBlob, res.stderr), Put(i, ExitCodeBlob, Zero)]
  }

  lemma {:induction false} UpToExitIs(i: nat, res: Result, meta: Bytes, extras: Option<Bytes>)
    ensures |UpToExit(i, res)| <= |PutsInto(i, res, meta, extras)|
    ensures PutsInto(i, res, meta, extras)[..|UpToExit(i, res)|] == UpToExit(i, res)
    ensures Ordered(UpToExit(i, res), res, meta, extras)
  {
    OneStoreOrdered(i, res, meta, extras);
    PrefixOrdered(PutsInto(i, res, meta, extras), |UpToExit(i, res)|, res, meta, extras);
  }

  lemma {:induction false} LastUpToExit(i: nat, res: Result)
    ensures LastPut(UpToExit(i, res), i, ExitCodeBlob).Some?
    ensures LastPut(UpToExit(i, res), i, ExtrasBlob).None?
    ensures res.output.None? ==> LastPut(UpToExit(i, res), i, OutputBlob).None?
  {
    var p := UpToExit(i, res);
    LastPutFound(p, i, ExitCodeBlob, |p| - 1);
    if LastPut(p, i, ExtrasBlob).Some? {
      var j := LastPutAt(p, i, ExtrasBlob);
    }
    if res.output.None? && LastPut(p, i, OutputBlob).Some? {
      var j := LastPutAt(p, i, OutputBlob);
    }
  }

  /**
   * The moment store `i` has its exit code: nothing is known yet of side outputs, or of an output
   * where there is none.
   */
  ghost predicate JustExited(s: Store, was: Store, t: Tenant, key: Key, res: Result)
  {
    && ExitOf(s, t, key) == Some(0)
    && Get(s, t, key, ExtrasBlob) == Get(was, t, key, ExtrasBlob)
    && (res.output.None? ==> Get(s, t, key, OutputBlob) == Get(was, t, key, OutputBlob))
  }

  lemma {:induction false} ExitedThen(chain: seq<Store>, t: Tenant, key: Key, res: Result, meta: Bytes,
                                      extras: Option<Bytes>, i: nat, puts: seq<Put>)
    requires i < |chain| && puts == AllPuts(i, res, meta, extras) + UpToExit(i, res)
    ensures JustExited(Applied(chain, t, key, puts)[i], chain[i], t, key, res)
  {
    UpToExitIs(i, res, meta, extras);
    LastUpToExit(i, res);
    AtExitBlob(chain, t, key, res, meta, extras, i, ExitCodeBlob);
    AtExitBlob(chain, t, key, res, meta, extras, i, ExtrasBlob);
    AtExitBlob(chain, t, key, res, meta, extras, i, OutputBlob);
    LastSaysRight(UpToExit(i, res), i, ExitCodeBlob, res, meta, extras);
    ZeroParses();
  }

  lemma {:induction false} ExitFront(n: nat, res: Result, meta: Bytes, extras: Option<Bytes>, i: nat) returns (k: nat)
    requires i < n
    ensures k <= |AllPuts(n, res, meta, extras)|
    ensures AllPuts(n, res, meta, extras)[..k] == AllPuts(i, res, meta, extras) + UpToExit(i, res)
  {
    UpToExitIs(i, res, meta, extras);
    PutsFront(n, res, meta, extras, i, |UpToExit(i, res)|);
    k := |AllPuts(i, res, meta, extras)| + |UpToExit(i, res)|;
  }

  lemma {:induction false} AtExit(chain: seq<Store>, t: Tenant, key: Key, res: Result, meta: Bytes,
                                  extras: Option<Bytes>, i: nat) returns (k: nat)
    requires i < |chain|
    ensures k <= |AllPuts(|chain|, res, meta, extras)|
    ensures JustExited(Applied(chain, t, key, AllPuts(|chain|, res, meta, extras)[..k])[i], chain[i], t, key, res)
  {
    k := ExitFront(|chain|, res, meta, extras, i);
    ExitedThen(chain, t, key, res, meta, extras, i, AllPuts(|chain|, res, meta, extras)[..k]);
  }

  lemma {:induction false} AtExitBlob(chain: seq<Store>, t: Tenant, key: Key, res: Result, meta: Bytes,
                                      extras: Option<Bytes>, i: nat, b: Blob)
    requires i < |chain|
    ensures
      var puts := AllPuts(i, res, meta, extras) + UpToExit(i, res);
      Get(Applied(chain, t, key, puts)[i], t, key, b) == Or(LastPut(UpToExit(i, res), i, b), Get(chain[i], t, key, b))
  {
    AppliedIs(chain, t, key, AllPuts(i, res, meta, extras) + UpToExit(i, res), i, b);
    LastOfConcat(AllPuts(i, res, meta, extras), UpToExit(i, res), i, b);
    LastAmongOthers(i, res, meta, extras, i, b);
  }

  lemma {:induction false} RightFromStart(chain: seq<Store>, t: Tenant, key: Key, res: Result, meta: Bytes,
                                          extras: Option<Bytes>, i: nat)
    requires SafeThroughout(chain, t, key, res, meta, extras) && i < |chain|
    ensures ExitOf(chain[i], t, key).Some? ==> ExitOf(chain[i], t, key) == Some(0) && SaysSame(chain[i], t, key, res)
  {
    assert AllPuts(|chain|, res, meta, extras)[..0] == [];
    assert ShowsRight(chain, t, key, res, meta, extras, 0, i, false);
    assert ShowsRight(chain, t, key, res, meta, extras, 0, i, true);
  }

  lemma {:induction false} RightAtExit(chain: seq<Store>, t: Tenant, key: Key, res: Result, meta: Bytes,
                                       extras: Option<Bytes>, i: nat)
    requires SafeThroughout(chain, t, key, res, meta, extras) && i < |chain|
    ensures LoadedExtras(chain[i], t, key) == res.extras || LoadedExtras(chain[i], t, key) == map[]
    ensures res.output.None? ==> Get(chain[i], t, key, OutputBlob).None?
  {
    var k := AtExit(chain, t, key, res, meta, extras, i);
    assert ShowsRight(chain, t, key, res, meta, extras, k, i, false);
    assert ShowsRight(chain, t, key, res, meta, extras, k, i, true);
  }

  /**
   * Store may be interrupted anywhere without any store ever showing something wrong if and only if
   * the key is safe.
   */
  lemma {:induction false} InterruptSafeIff(chain: seq<Store>, t: Tenant, key: Key, res: Result, meta: Bytes,
                                            extras: Option<Bytes>)
    requires extras.Some? ==> Extras.Fits(res.extras) && Extras.IsEncoding(res.extras, extras.value)
    ensures SafeThroughout(chain, t, key, res, meta, extras) <==> SafeKey(chain, t, key, res)
  {
    if SafeKey(chain, t, key, res) {
      forall k, i, named | 0 <= k <= |AllPuts(|chain|, res, meta, extras)| && 0 <= i < |chain|
        ensures ShowsRight(chain, t, key, res, meta, extras, k, i, named)
      {
        RetryIsSafe(chain, t, key, res, meta, extras, k);
        SafeLoads(Applied(chain, t, key, AllPuts(|chain|, res, meta, extras)[..k])[i], t, key, res, named);
      }
    }
    if SafeThroughout(chain, t, key, res, meta, extras) {
      forall i | 0 <= i < |chain|
        ensures SafeStart(chain[i], t, key, res)
      {
        RightFromStart(chain, t, key, res, meta, extras, i);
        RightAtExit(chain, t, key, res, meta, extras, i);
      }
    }
  }

  /** Asks for the one store only. */
  function Only(s: Store): (Store, Tenant, Key) -> bool
  {
    (s', _, _) => s' == s
  }

  lemma {:induction false} OnlyFinds(chain: seq<Store>, t: Tenant, key: Key, named: bool, i: nat)
    requires i < |chain| && Load(chain[i], t, key, named).Some?
    ensures Lookup(chain, Only(chain[i]), t, key, named) == Load(chain[i], t, key, named)
    decreases |chain|
  {
    if chain[0] != chain[i] {
      OnlyFinds(chain[1..], t, key, named, i - 1);
    }
  }

  /** Over any other key there is a place to stop and a Lookup that then returns something wrong. */
  lemma {:induction false} UnsafeShows(chain: seq<Store>, t: Tenant, key: Key, res: Result, meta: Bytes,
                                       extras: Option<Bytes>)
                                       returns (k: nat, has: (Store, Tenant, Key) -> bool, named: bool)
    requires !SafeKey(chain, t, key, res)
    requires extras.Some? ==> Extras.Fits(res.extras) && Extras.IsEncoding(res.extras, extras.value)
    ensures k <= |AllPuts(|chain|, res, meta, extras)|
    ensures
      var r := Lookup(Applied(chain, t, key, AllPuts(|chain|, res, meta, extras)[..k]), has, t, key, named);
      r.Some? && !Faithful(r.value, res, named)
  {
    InterruptSafeIff(chain, t, key, res, meta, extras);
    var i;
    k, i, named :| 0 <= k <= |AllPuts(|chain|, res, meta, extras)| && 0 <= i < |chain|
                   && !ShowsRight(chain, t, key, res, meta, extras, k, i, named);
    var after := Applied(chain, t, key, AllPuts(|chain|, res, meta, extras)[..k]);
    has := Only(after[i]);
    OnlyFinds(after, t, key, named, i);
  }

  /** Over a complete entry of another result it is not safe: its first put already mixes the two. */
  lemma {:induction false} MixedEntry(t: Tenant, key: Key, res: Result, meta: Bytes, extras: Option<Bytes>)
                                      returns (s: Store)
    requires res.output.Some? && res.stdout != []
    ensures |AllPuts(1, res, meta, extras)| > 1
    ensures
      var r := Load(Applied([s], t, key, AllPuts(1, res, meta, extras)[..1])[0], t, key, true);
      r.Some? && r.value.output == res.output && r.value.stdout == [] && !Faithful(r.value, res, true)
  {
    s := map[(t, key, ExitCodeBlob) := Zero, (t, key, StdoutBlob) := [], (t, key, StderrBlob) := []];
    var puts := AllPuts(1, res, meta, extras);
    assert AllPuts(0, res, meta, extras) == [] && puts[0] == Put(0, OutputBlob, res.output.value);
    var one := puts[..1];
    assert one[..0] == [] && Applied([s], t, key, one[..0]) == [s];
    ZeroParses();
  }

  lemma {:induction false} LastOfConcat(a: seq<Put>, b: seq<Put>, i: nat, blob: Blob)
    ensures LastPut(a + b, i, blob) == if LastPut(b, i, blob).Some? then LastPut(b, i, blob) else LastPut(a, i, blob)
    decreases |b|
  {
    if b == [] {
      Nil(a);
    } else {
      var n := |b| - 1;
      LastOfConcat(a, b[..n], i, blob);
      assert (a + b)[..|a + b| - 1] == a + b[..n] && (a + b)[|a + b| - 1] == b[n];
    }
  }

  lemma {:induction false} NoneElsewhere(n: nat, res: Result, meta: Bytes, extras: Option<Bytes>, i: nat, blob: Blob)
    requires i != n
    ensures LastPut(PutsInto(n, res, meta, extras), i, blob).None?
  {
    if LastPut(PutsInto(n, res, meta, extras), i, blob).Some? {
      var j := LastPutAt(PutsInto(n, res, meta, extras), i, blob);
    }
  }

  /** The puts of one store after the other, for any puts into each. */
  ghost function Joined(into: nat -> seq<Put>, n: nat): seq<Put>
  {
    if n == 0 then [] else Joined(into, n - 1) + into(n - 1)
  }

  lemma {:induction false} LastJoined(into: nat -> seq<Put>, n: nat, i: nat, blob: Blob)
    requires forall j: nat | j != i :: LastPut(into(j), i, blob).None?
    ensures LastPut(Joined(into, n), i, blob) == if i < n then LastPut(into(i), i, blob) else None
    decreases n
  {
    if n > 0 {
      LastJoined(into, n - 1, i, blob);
      LastOfConcat(Joined(into, n - 1), into(n - 1), i, blob);
    }
  }

  lemma {:induction false} AllJoined(into: nat -> seq<Put>, n: nat, res: Result, meta: Bytes, extras: Option<Bytes>)
    requires forall j: nat :: into(j) == PutsInto(j, res, meta, extras)
    ensures AllPuts(n, res, meta, extras) == Joined(into, n)
    decreases n
  {
    if n > 0 {
      AllJoined(into, n - 1, res, meta, extras);
    }
  }

  lemma {:induction false} LastAmongOthers(n: nat, res: Result, meta: Bytes, extras: Option<Bytes>, i: nat, blob: Blob)
    ensures LastPut(AllPuts(n, res, meta, extras), i, blob)
            == if i < n then LastPut(PutsInto(i, res, meta, extras), i, blob) else None
  {
    var into := (j: nat) => PutsInto(j, res, meta, extras);
    forall j: nat | j != i
      ensures LastPut(into(j), i, blob).None?
    {
      NoneElsewhere(j, res, meta, extras, i, blob);
    }
    AllJoined(into, n, res, meta, extras);
    LastJoined(into, n, i, blob);
  }

  lemma {:induction false} LastInto(i: nat, res: Result, meta: Bytes, extras: Option<Bytes>)
    ensures
      var p := PutsInto(i, res, meta, extras);
      && LastPut(p, i, OutputBlob) == res.output && LastPut(p, i, StdoutBlob) == Some(res.stdout)
      && LastPut(p, i, StderrBlob) == Some(res.stderr) && LastPut(p, i, ExitCodeBlob) == Some(Zero)
      && LastPut(p, i, ExtrasBlob) == extras
  {
    OneStoreOrdered(i, res, meta, extras);
    var p := PutsInto(i, res, meta, extras);
    var n := |OutputPuts(i, res)|;
    assert p[n] == Put(i, StdoutBlob, res.stdout) && p[n + 1] == Put(i, StderrBlob, res.stderr)
        && p[n + 2] == Put(i, ExitCodeBlob, Zero);
    LastPutFound(p, i, StdoutBlob, n);
    LastPutFound(p, i, StderrBlob, n + 1);
    LastPutFound(p, i, ExitCodeBlob, n + 2);
    var a := LastPutAt(p, i, StdoutBlob);
    var b := LastPutAt(p, i, StderrBlob);
    var c := LastPutAt(p, i, ExitCodeBlob);
    OptionalInto(i, res, meta, extras);
  }

  lemma {:induction false} OptionalInto(i: nat, res: Result, meta: Bytes, extras: Option<Bytes>)
    ensures LastPut(PutsInto(i, res, meta, extras), i, OutputBlob) == res.output
    ensures LastPut(PutsInto(i, res, meta, extras), i, ExtrasBlob) == extras
  {
    OneStoreOrdered(i, res, meta, extras);
    var p := PutsInto(i, res, meta, extras);
    if res.output.Some? {
      assert p[0] == Put(i, OutputBlob, res.output.value);
      LastPutFound(p, i, OutputBlob, 0);
    }
    if LastPut(p, i, OutputBlob).Some? {
      var a := LastPutAt(p, i, OutputBlob);
    }
    if extras.Some? {
      assert p[|p| - 1] == Put(i, ExtrasBlob, extras.value);
      LastPutFound(p, i, ExtrasBlob, |p| - 1);
    }
    if LastPut(p, i, ExtrasBlob).Some? {
      var b := LastPutAt(p, i, ExtrasBlob);
    }
  }

  lemma {:induction false} WholeEntry(s: Store, t: Tenant, key: Key, res: Result, named: bool)
    requires res.exitCode == 0 && (named ==> res.output.Some? && Get(s, t, key, OutputBlob) == res.output)
    requires Get(s, t, key, StdoutBlob) == Some(res.stdout) && Get(s, t, key, StderrBlob) == Some(res.stderr)
    requires Get(s, t, key, ExitCodeBlob) == Some(Zero)
    ensures Load(s, t, key, named) == Some(res.(output := if named then res.output else None,
              extras := LoadedExtras(s, t, key)))
  {
    ZeroParses();
  }

  lemma {:induction false} StoredIs(chain: seq<Store>, t: Tenant, key: Key, res: Result, meta: Bytes,
                                    extras: Option<Bytes>, i: nat, b: Blob)
    requires i < |chain|
    ensures Get(Applied(chain, t, key, AllPuts(|chain|, res, meta, extras))[i], t, key, b)
            == Or(LastPut(PutsInto(i, res, meta, extras), i, b), Get(chain[i], t, key, b))
  {
    AppliedIs(chain, t, key, AllPuts(|chain|, res, meta, extras), i, b);
    LastAmongOthers(|chain|, res, meta, extras, i, b);
  }

  /** The metadata is put beside the result, and the blobs of the side outputs when there are any. */
  lemma {:induction false} MetadataStored(chain: seq<Store>, t: Tenant, key: Key, res: Result, meta: Bytes,
                                          extras: Option<Bytes>, i: nat)
    requires i < |chain|
    ensures
      var after := Applied(chain, t, key, AllPuts(|chain|, res, meta, extras))[i];
      && Get(after, t, key, MetadataBlob) == Some(meta)
      && Get(after, t, key, ExtrasBlob) == if extras.Some? then extras else Get(chain[i], t, key, ExtrasBlob)
  {
    StoredIs(chain, t, key, res, meta, extras, i, MetadataBlob);
    StoredIs(chain, t, key, res, meta, extras, i, ExtrasBlob);
    OptionalInto(i, res, meta, extras);
    MetaInto(i, res, meta, extras);
  }

  lemma {:induction false} MetaInto(i: nat, res: Result, meta: Bytes, extras: Option<Bytes>)
    ensures LastPut(PutsInto(i, res, meta, extras), i, MetadataBlob) == Some(meta)
  {
    var p := PutsInto(i, res, meta, extras);
    var n := |OutputPuts(i, res)| + 3;
    assert p[n] == Put(i, MetadataBlob, meta);
    LastPutFound(p, i, MetadataBlob, n);
    var j := LastPutAt(p, i, MetadataBlob);
    assert p[j] == Put(i, MetadataBlob, meta);
  }

  /** No readable side outputs of an earlier result are left where this one has none: Store never deletes a blob. */
  predicate NoStaleExtras(s: Store, t: Tenant, key: Key, res: Result)
  {
    res.extras == map[] ==> LoadedExtras(s, t, key) == map[]
  }

  lemma {:induction false} StoredExtras(chain: seq<Store>, t: Tenant, key: Key, res: Result, meta: Bytes,
                                        extras: Option<Bytes>, i: nat)
    requires i < |chain| && (extras.Some? <==> res.extras != map[])
    requires extras.Some? ==> Extras.Fits(res.extras) && Extras.IsEncoding(res.extras, extras.value)
    ensures
      var after := Applied(chain, t, key, AllPuts(|chain|, res, meta, extras))[i];
      LoadedExtras(after, t, key) == if res.extras != map[] then res.extras else LoadedExtras(chain[i], t, key)
  {
    AllOrdered(|chain|, res, meta, extras);
    ExtrasAfter(chain, t, key, AllPuts(|chain|, res, meta, extras), i, res, meta, extras);
    LastAmongOthers(|chain|, res, meta, extras, i, ExtrasBlob);
    LastInto(i, res, meta, extras);
  }

  /** After a whole Store a store holds the whole result if and only if no stale side outputs are left in it. */
  lemma {:induction false} StoredWholeIff(chain: seq<Store>, t: Tenant, key: Key, res: Result, meta: Bytes,
                                          extras: Option<Bytes>, i: nat, named: bool)
    requires i < |chain| && res.exitCode == 0 && (named ==> res.output.Some?)
    requires extras.Some? <==> res.extras != map[]
    requires extras.Some? ==> Extras.Fits(res.extras) && Extras.IsEncoding(res.extras, extras.value)
    ensures
      var r := Load(Applied(chain, t, key, AllPuts(|chain|, res, meta, extras))[i], t, key, named);
      var whole := res.(output := if named then res.output else None);
      && r.Some? && r.value.(extras := res.extras) == whole
      && (r == Some(whole) <==> NoStaleExtras(chain[i], t, key, res))
  {
    LastInto(i, res, meta, extras);
    StoredIs(chain, t, key, res, meta, extras, i, OutputBlob);
    StoredIs(chain, t, key, res, meta, extras, i, StdoutBlob);
    StoredIs(chain, t, key, res, meta, extras, i, StderrBlob);
    StoredIs(chain, t, key, res, meta, extras, i, ExitCodeBlob);
    StoredExtras(chain, t, key, res, meta, extras, i);
    WholeEntry(Applied(chain, t, key, AllPuts(|chain|, res, meta, extras))[i], t, key, res, named);
  }

  lemma {:induction false} FirstHit(chain: seq<Store>, has: (Store, Tenant, Key) -> bool, t: Tenant, key: Key,
                                    named: bool, i: nat, r: Result)
    requires i < |chain| && has(chain[i], t, key)
    requires forall j | 0 <= j < |chain| :: Load(chain[j], t, key, named) == Some(r)
    ensures Lookup(chain, has, t, key, named) == Some(r)
    decreases |chain|
  {
    if !has(chain[0], t, key) {
      FirstHit(chain[1..], has, t, key, named, i - 1, r);
    }
  }

  /**
   * Once Store is through, Lookup gives back the whole result as soon as any store owns up to the
   * key, whatever was there before, stale side outputs excepted.
   */
  lemma {:induction false} CompleteStoreHits(chain: seq<Store>, has: (Store, Tenant, Key) -> bool, t: Tenant,
                                             key: Key, res: Result,
                                             meta: Bytes, extras: Option<Bytes>, i: nat, named: bool)
    requires i < |chain| && res.exitCode == 0 && (named ==> res.output.Some?)
    requires forall j | 0 <= j < |chain| :: NoStaleExtras(chain[j], t, key, res)
    requires extras.Some? <==> res.extras != map[]
    requires extras.Some? ==> Extras.Fits(res.extras) && Extras.IsEncoding(res.extras, extras.value)
    requires has(Applied(chain, t, key, AllPuts(|chain|, res, meta, extras))[i], t, key)
    ensures
      var r := Lookup(Applied(chain, t, key, AllPuts(|chain|, res, meta, extras)), has, t, key, named);
      r == Some(res.(output := if named then res.output else None))
  {
    var after := Applied(chain, t, key, AllPuts(|chain|, res, meta, extras));
    var whole := res.(output := if named then res.output else None);
    forall j | 0 <= j < |after|
      ensures Load(after[j], t, key, named) == Some(whole)
    {
      StoredWholeIff(chain, t, key, res, meta, extras, j, named);
    }
    FirstHit(after, has, t, key, named, i, whole);
  }

  /** Stale side outputs do come back: a Lookup served by that store returns them with the new result. */
  lemma {:induction false} StaleExtrasShow(chain: seq<Store>, t: Tenant, key: Key, res: Result,
                                           meta: Bytes, extras: Option<Bytes>, i: nat, named: bool)
                                           returns (has: (Store, Tenant, Key) -> bool)
    requires i < |chain| && res.exitCode == 0 && (named ==> res.output.Some?) && !NoStaleExtras(chain[i], t, key, res)
    requires extras.None?
    ensures
      var r := Lookup(Applied(chain, t, key, AllPuts(|chain|, res, meta, extras)), has, t, key, named);
      r == Some(res.(output := if named then res.output else None, extras := LoadedExtras(chain[i], t, key)))
  {
    var after := Applied(chain, t, key, AllPuts(|chain|, res, meta, extras));
    StoredWholeIff(chain, t, key, res, meta, extras, i, named);
    StoredExtras(chain, t, key, res, meta, extras, i);
    has := Only(after[i]);
    OnlyFinds(after, t, key, named, i);
  }

  /** Entries under other keys and tenants are as they were. */
  lemma {:induction false} OthersUntouched(chain: seq<Store>, t: Tenant, key: Key, puts: seq<Put>, i: nat,
                                           t': Tenant, key': Key, b: Blob)
    requires i < |chain| && (t', key') != (t, key)
    ensures Get(Applied(chain, t, key, puts)[i], t', key', b) == Get(chain[i], t', key', b)
    decreases |puts|
  {
    if puts != [] {
      OthersUntouched(chain, t, key, puts[..|puts| - 1], i, t', key', b);
    }
  }
}
